/**
 * What the writing-practice app does with the vision model's answer: the verdict, the
 * three-phrase fallback, the field extraction with its placeholders, the error record,
 * and the fence strip and key check applied to a generated practice sentence.
 *
 * The model call is an input: `Success(text)` is `response.text`, `Failure(msg)` is
 * the exception the call raised. `decode` stands for `json.loads` (`None` when it raises).
 */
module HandwritingEvaluation {
  import opened Wrappers
  import opened Strings
  import opened JsonValues

  // ---------------------------------------------------------------------------
  // Verdict

  /** The exact, case-sensitive marker of a positive verdict. */
  const CorrectVerdict := "VERDICT: CORRECT"
  const IncorrectVerdict := "VERDICT: INCORRECT"

  /** The three phrases of the fallback heuristic, looked up in the lowercased reply. */
  predicate AlternativeCorrect(text: string) {
    var low := Lower(text);
    Contains(low, "grammatically correct") && Contains(low, "perfectly") && Contains(low, "no errors")
    && !Contains(text, IncorrectVerdict)
  }

  /** `is_correct` after the fallback has had its say. */
  predicate IsCorrect(text: string) {
    Contains(text, CorrectVerdict) || AlternativeCorrect(text)
  }

  // ---------------------------------------------------------------------------
  // Field extraction

  const HandwrittenMarker := "1. Handwritten Spanish Text:"
  /** The pattern of the case-insensitive branch, as written: it keeps an uppercase `S`. */
  const HandwrittenAltMarker := "handwritten Spanish text:"
  const TranslationMarker := "4. Correct Translation:"
  const TranslationAltMarker := "correct translation:"

  const TextPlaceholder := "Texto no detectado claramente"
  const TranslationPlaceholder := "No se pudo determinar la traducción correcta"

  /** `text.split(marker)[1].split("\n")[0].strip()` for a marker that occurs in `text`. */
  function Field(text: string, marker: string): (r: string)
    requires marker != "" && Contains(text, marker)
  {
    Strip(Before(SecondPiece(text, marker).value, "\n"))
  }

  /** A field is a piece of the reply and stays on one line. */
  lemma FieldIsOneLineOfReply(text: string, marker: string)
    requires marker != "" && Contains(text, marker)
    ensures IsSlice(Field(text, marker), text)
    ensures '\n' !in Field(text, marker)
  {
    var piece := SecondPiece(text, marker).value;
    var line := Before(piece, "\n");
    SecondPieceIsSlice(text, marker);
    StripSetIsSlice(line, Whitespace);
    assert line == piece[0..|line|];
    assert IsSlice(line, piece);
    IsSliceTransitive(line, piece, text);
    IsSliceTransitive(Field(text, marker), line, text);
    ContainsChar(line, '\n');
    NotInSlice(Field(text, marker), line, '\n');
  }

  /** The handwritten-text extraction, with its case-insensitive branch as written. */
  function ExtractedText(text: string): Option<string> {
    if Contains(text, HandwrittenMarker) then Some(Field(text, HandwrittenMarker))
    else if Contains(Lower(text), HandwrittenAltMarker) then Some(Field(Lower(text), HandwrittenAltMarker))
    else None
  }

  /** The correct-translation extraction, with its lowercasing fallback as written. */
  function CorrectTranslation(text: string): Option<string> {
    if Contains(text, TranslationMarker) then Some(Field(text, TranslationMarker))
    else if Contains(Lower(text), TranslationAltMarker) then Some(Field(Lower(text), TranslationAltMarker))
    else None
  }

  /**
   * The case-insensitive branch for the handwritten text can never be taken: its
   * pattern holds an uppercase letter and is searched in lowercased text.
   */
  lemma CaseInsensitiveTextBranchIsDead(text: string)
    ensures ExtractedText(text).Some? <==> Contains(text, HandwrittenMarker)
    ensures Contains(text, HandwrittenMarker) ==> ExtractedText(text) == Some(Field(text, HandwrittenMarker))
  {
    LowerHasNoUpper(text);
    assert HandwrittenAltMarker[12] == 'S';
    NoUpperExcludes(Lower(text), HandwrittenAltMarker, 12);
  }

  /** The fallback translation is read from the lowercased reply, so it has no uppercase letter. */
  lemma FallbackTranslationIsLowercase(text: string)
    requires !Contains(text, TranslationMarker) && CorrectTranslation(text).Some?
    ensures HasNoUpper(CorrectTranslation(text).value)
  {
    var low := Lower(text);
    LowerHasNoUpper(text);
    FieldIsOneLineOfReply(low, TranslationAltMarker);
    var lo: nat, hi: nat :| lo <= hi <= |low| && Field(low, TranslationAltMarker) == low[lo..hi];
    NoUpperSlice(low, lo, hi);
  }

  /**
   * The intended case-insensitive extraction: find the lowercase pattern in the
   * lowercased reply, but read the field from the reply itself, so its case is kept.
   */
  function CaseInsensitiveField(text: string, lowerMarker: string): (r: Option<string>)
    requires lowerMarker != ""
    ensures r.Some? <==> Contains(Lower(text), lowerMarker)
  {
    match Find(Lower(text), lowerMarker)
    case None => None
    case Some(i) => Some(Strip(Before(text[i + |lowerMarker|..], "\n")))
  }

  /** The stripped line that starts at position `j` of `text` is a one-line piece of `text`. */
  lemma LineFromIsOneLineOfText(text: string, j: nat)
    requires j <= |text|
    ensures IsSlice(Strip(Before(text[j..], "\n")), text)
    ensures '\n' !in Strip(Before(text[j..], "\n"))
  {
    var rest := text[j..];
    var line := Before(rest, "\n");
    assert rest == text[j..|text|];
    assert IsSlice(rest, text);
    assert line == rest[0..|line|];
    assert IsSlice(line, rest);
    IsSliceTransitive(line, rest, text);
    StripSetIsSlice(line, Whitespace);
    IsSliceTransitive(Strip(line), line, text);
    ContainsChar(line, '\n');
    NotInSlice(Strip(line), line, '\n');
  }

  /** The intended case-insensitive field is a one-line piece of the reply itself. */
  lemma CaseInsensitiveFieldIsOneLineOfReply(text: string, lowerMarker: string)
    requires lowerMarker != "" && Contains(Lower(text), lowerMarker)
    ensures IsSlice(CaseInsensitiveField(text, lowerMarker).value, text)
    ensures '\n' !in CaseInsensitiveField(text, lowerMarker).value
  {
    var low := Lower(text);
    var i := Find(low, lowerMarker).value;
    assert OccursAt(low, lowerMarker, i);
    assert |low| == |text|;
    var j := i + |lowerMarker|;
    LineFromIsOneLineOfText(text, j);
    assert CaseInsensitiveField(text, lowerMarker) == Some(Strip(Before(text[j..], "\n")));
  }

  /** The handwritten-text extraction with a lowercase pattern in its second branch. */
  function ExtractedTextIntended(text: string): (r: Option<string>)
    ensures r.Some? <==> Contains(text, HandwrittenMarker) || Contains(Lower(text), "handwritten spanish text:")
  {
    if Contains(text, HandwrittenMarker) then Some(Field(text, HandwrittenMarker))
    else CaseInsensitiveField(text, "handwritten spanish text:")
  }

  /** The correct-translation extraction that keeps the case of the reply in its fallback. */
  function CorrectTranslationIntended(text: string): (r: Option<string>)
    ensures r.Some? <==> Contains(text, TranslationMarker) || Contains(Lower(text), TranslationAltMarker)
  {
    if Contains(text, TranslationMarker) then Some(Field(text, TranslationMarker))
    else CaseInsensitiveField(text, TranslationAltMarker)
  }

  /** Lowercasing keeps an occurrence: a pattern found in `s` is found, lowercased, in `Lower(s)`. */
  lemma LowerKeepsOccurrence(s: string, pat: string)
    requires Contains(s, pat)
    ensures Contains(Lower(s), Lower(pat))
  {
    var i: nat :| i <= |s| && OccursAt(s, pat, i);
    assert s[i..i + |pat|] == pat;
    assert forall k :: 0 <= k < |pat| ==> Lower(s)[i + k] == LowerChar(pat[k]);
    assert Lower(s)[i..i + |pat|] == Lower(pat);
    ContainsWitness(Lower(s), Lower(pat), i);
  }

  /**
   * A reply whose heading is written `handwritten Spanish text:` (any case, without the
   * number) gets no extracted text as written, and gets one from the intended definition.
   */
  lemma LowercaseHeadingIsMissedAsWritten(text: string)
    requires !Contains(text, HandwrittenMarker) && Contains(text, HandwrittenAltMarker)
    ensures ExtractedText(text).None?
    ensures ExtractedTextIntended(text).Some?
  {
    CaseInsensitiveTextBranchIsDead(text);
    LowerKeepsOccurrence(text, HandwrittenAltMarker);
    AltMarkerLowered();
  }

  /** Lowercasing the pattern of the case-insensitive branch gives the lowercase heading. */
  lemma AltMarkerLowered()
    ensures Lower(HandwrittenAltMarker) == "handwritten spanish text:"
  {
    var m, low := HandwrittenAltMarker, "handwritten spanish text:";
    forall i | 0 <= i < |m| ensures LowerChar(m[i]) == low[i] {
      if i == 12 {
        assert m[i] == 'S';
      } else {
        assert !IsUpperChar(m[i]) && m[i] == low[i];
      }
    }
  }

  /** Where the numbered marker is absent, the intended fallback keeps the reply's own case. */
  lemma IntendedFallbackKeepsCase(text: string)
    requires !Contains(text, TranslationMarker) && Contains(Lower(text), TranslationAltMarker)
    ensures IsSlice(CorrectTranslationIntended(text).value, text)
  {
    CaseInsensitiveFieldIsOneLineOfReply(text, TranslationAltMarker);
  }

  // ---------------------------------------------------------------------------
  // The evaluation record

  /**
   * The dictionary `evaluate_handwriting` returns. `extractedText` and
   * `correctTranslation` are `None` only in the error record; `error` is present only there.
   */
  datatype Evaluation = Evaluation(
    extractedText: Option<string>,
    isCorrect: bool,
    feedback: string,
    correctTranslation: Option<string>,
    error: Option<string>)

  /** Python's `value or placeholder` on an optional string. */
  function OrPlaceholder(value: Option<string>, placeholder: string): string {
    if value.Some? && value.value != "" then value.value else placeholder
  }

  /** The record for a model reply, given the two extracted fields. */
  function Report(text: string, extracted: Option<string>, translation: Option<string>): Evaluation {
    Evaluation(
      Some(OrPlaceholder(extracted, TextPlaceholder)),
      IsCorrect(text),
      text,
      Some(OrPlaceholder(translation, TranslationPlaceholder)),
      None)
  }

  /** The error record for a model call that raised. */
  function ErrorRecord(msg: string): Evaluation {
    Evaluation(None, false, "Error analyzing the image: " + msg, None, Some(msg))
  }

  /** The post-response logic of `evaluate_handwriting`, with both extractions as written. */
  function Evaluate(reply: Result<string, string>): (e: Evaluation)
    ensures e.error.Some? <==> reply.Failure?
    ensures reply.Failure? ==>
      !e.isCorrect && e.extractedText.None? && e.correctTranslation.None?
      && e.feedback == "Error analyzing the image: " + reply.error
    ensures reply.Success? ==>
      e.feedback == reply.value
      && e.isCorrect == (Contains(reply.value, CorrectVerdict) || AlternativeCorrect(reply.value))
      && e.extractedText.Some? && e.extractedText.value != ""
      && e.correctTranslation.Some? && e.correctTranslation.value != ""
  {
    match reply
    case Failure(msg) => ErrorRecord(msg)
    case Success(text) => Report(text, ExtractedText(text), CorrectTranslation(text))
  }

  /**
   * The same record with the corrected case-insensitive extractions
   * (`ExtractedTextIntended`, `CorrectTranslationIntended`).
   */
  function EvaluateIntended(reply: Result<string, string>): (e: Evaluation)
    ensures e.error.Some? <==> reply.Failure?
    ensures reply.Failure? ==> e == Evaluate(reply)
    ensures reply.Success? ==>
      e.feedback == reply.value && e.isCorrect == Evaluate(reply).isCorrect
      && e.extractedText.Some? && e.extractedText.value != ""
      && e.correctTranslation.Some? && e.correctTranslation.value != ""
  {
    match reply
    case Failure(msg) => ErrorRecord(msg)
    case Success(text) => Report(text, ExtractedTextIntended(text), CorrectTranslationIntended(text))
  }

  /** The exact verdict marker always makes the evaluation correct; the fallback never undoes it. */
  lemma VerdictMarkerIsDecisive(text: string)
    requires Contains(text, CorrectVerdict)
    ensures Evaluate(Success(text)).isCorrect
  {
  }

  /** The marker is case-sensitive: a lowercase verdict line alone is not enough. */
  lemma LowercaseVerdictIsNotAVerdict()
    ensures !Contains("verdict: correct", CorrectVerdict)
  {
    assert "verdict: correct"[0] != CorrectVerdict[0];
    assert !OccursAt("verdict: correct", CorrectVerdict, 0);
  }

  /** An explicit negative verdict switches the fallback off, whatever the phrases say. */
  lemma IncorrectVerdictBlocksFallback(text: string)
    requires Contains(text, IncorrectVerdict) && !Contains(text, CorrectVerdict)
    ensures !Evaluate(Success(text)).isCorrect
  {
  }

  /** The three phrases, with no verdict line at all, make the evaluation correct. */
  lemma PhrasesAloneMakeItCorrect(text: string)
    requires !Contains(text, IncorrectVerdict)
    requires Contains(text, "grammatically correct") && Contains(text, "perfectly") && Contains(text, "no errors")
    ensures Evaluate(Success(text)).isCorrect
  {
    PhrasesMakeAlternative(text);
  }

  lemma PhrasesMakeAlternative(text: string)
    requires !Contains(text, IncorrectVerdict)
    requires Contains(text, "grammatically correct") && Contains(text, "perfectly") && Contains(text, "no errors")
    ensures AlternativeCorrect(text)
  {
    PhrasesHaveNoUpper();
    PhraseSurvivesLower(text, "grammatically correct");
    PhraseSurvivesLower(text, "perfectly");
    PhraseSurvivesLower(text, "no errors");
  }

  lemma PhrasesHaveNoUpper()
    ensures HasNoUpper("grammatically correct") && HasNoUpper("perfectly") && HasNoUpper("no errors")
  {
  }

  /** A lowercase phrase found in a reply is found in the lowercased reply. */
  lemma PhraseSurvivesLower(text: string, phrase: string)
    requires Contains(text, phrase) && HasNoUpper(phrase)
    ensures Contains(Lower(text), phrase)
  {
    LowerKeepsOccurrence(text, phrase);
    LowerOfNoUpper(phrase);
  }

  /** With the numbered heading present, the extracted text is its line of the reply. */
  lemma ExtractedTextComesFromTheReply(text: string)
    requires Contains(text, HandwrittenMarker) && Field(text, HandwrittenMarker) != ""
    ensures var t := Evaluate(Success(text)).extractedText.value;
      IsSlice(t, text) && '\n' !in t
  {
    FieldIsOneLineOfReply(text, HandwrittenMarker);
  }

  /**
   * As written, the placeholder is reported whenever the numbered heading is missing or
   * its line is empty, whatever other form of the heading the reply holds.
   */
  lemma MissingHeadingGivesPlaceholder(text: string)
    requires !Contains(text, HandwrittenMarker) || Field(text, HandwrittenMarker) == ""
    ensures Evaluate(Success(text)).extractedText == Some(TextPlaceholder)
  {
    CaseInsensitiveTextBranchIsDead(text);
  }

  /** A reply with neither translation heading gets the translation placeholder. */
  lemma MissingTranslationGivesPlaceholder(text: string)
    requires !Contains(text, TranslationMarker) && !Contains(Lower(text), TranslationAltMarker)
    ensures Evaluate(Success(text)).correctTranslation == Some(TranslationPlaceholder)
  {
  }

  /**
   * As written, a translation found only by the lowercase heading is reported with no
   * uppercase letter: "Correct translation: Me llamo John." reports "me llamo john.".
   */
  lemma FallbackTranslationReportedLowercase(text: string)
    requires !Contains(text, TranslationMarker) && Contains(Lower(text), TranslationAltMarker)
    requires CorrectTranslation(text).value != ""
    ensures Evaluate(Success(text)).correctTranslation == CorrectTranslation(text)
    ensures HasNoUpper(Evaluate(Success(text)).correctTranslation.value)
  {
    FallbackTranslationIsLowercase(text);
  }

  /** Corrected: a translation found by the case-insensitive heading keeps the reply's own case. */
  lemma FallbackTranslationKeepsCase(text: string)
    requires !Contains(text, TranslationMarker) && Contains(Lower(text), TranslationAltMarker)
    requires CaseInsensitiveField(text, TranslationAltMarker).value != ""
    ensures var t := EvaluateIntended(Success(text)).correctTranslation.value;
      IsSlice(t, text) && '\n' !in t
  {
    CaseInsensitiveFieldIsOneLineOfReply(text, TranslationAltMarker);
  }

  /** Corrected: a heading in any case, without the number, is read from the reply. */
  lemma BareHeadingReadWhenIntended(text: string)
    requires !Contains(text, HandwrittenMarker) && Contains(Lower(text), "handwritten spanish text:")
    requires CaseInsensitiveField(text, "handwritten spanish text:").value != ""
    ensures Evaluate(Success(text)).extractedText == Some(TextPlaceholder)
    ensures var t := EvaluateIntended(Success(text)).extractedText.value;
      IsSlice(t, text) && '\n' !in t
  {
    MissingHeadingGivesPlaceholder(text);
    CaseInsensitiveFieldIsOneLineOfReply(text, "handwritten spanish text:");
  }

  // ---------------------------------------------------------------------------
  // generate_sentence_with_gemini

  /**
   * `re.sub(r'^```json|```$', '', text).strip()` on an already stripped text: a leading
   * "```json" and a trailing "```" are removed. The two matches cannot overlap, since the
   * last three characters of "```json" are not backticks.
   */
  function StripFences(text: string): (r: string)
    ensures |r| <= |text|
  {
    Strip(Unfenced(text))
  }

  /** The `re.sub` itself: a leading "```json" and a trailing "```" removed. */
  function Unfenced(text: string): (r: string)
    ensures |r| <= |text|
  {
    var a := if StartsWith(text, "```json") then text[7..] else text;
    if EndsWith(a, "```") then a[..|a| - 3] else a
  }

  /** Python's `key in value` on a decoded value; `None` where Python raises `TypeError`. */
  function PyIn(key: string, j: Json): Option<bool> {
    match j
    case JObj(fields) => Some(key in fields)
    case JArr(items) => Some(JStr(key) in items)
    case JStr(s) => Some(Contains(s, key))
    case _ => None
  }

  /** The key check: `'english' in result and 'spanish' in result`, raising on a scalar. */
  predicate HasSentenceKeys(j: Json) {
    PyIn("english", j) == Some(true) && PyIn("spanish", j) == Some(true)
  }

  /**
   * `generate_sentence_with_gemini` after the model call: `reply` is `response.text`
   * (`None` when the call raised). The decoded value is returned as it is.
   */
  function GenerateSentence(reply: Option<string>, decode: string -> Option<Json>): (r: Option<Json>)
    ensures r.Some? ==> reply.Some? && HasSentenceKeys(r.value)
    ensures r.Some? ==> decode(StripFences(Strip(reply.value))) == r
  {
    if reply.None? then None
    else match decode(StripFences(Strip(reply.value)))
      case None => None
      case Some(j) => if HasSentenceKeys(j) then Some(j) else None
  }

  /** A decoded object with both keys comes back unchanged; one missing either key does not. */
  lemma SentenceObjectAcceptedIffBothKeys(reply: string, decode: string -> Option<Json>,
                                          fields: map<string, Json>)
    requires decode(StripFences(Strip(reply))) == Some(JObj(fields))
    ensures GenerateSentence(Some(reply), decode) == Some(JObj(fields))
        <==> "english" in fields && "spanish" in fields
    ensures GenerateSentence(Some(reply), decode).None?
        <==> !("english" in fields && "spanish" in fields)
  {
    var j := JObj(fields);
    assert PyIn("english", j) == Some("english" in fields);
    assert PyIn("spanish", j) == Some("spanish" in fields);
  }

  /** A fenced object reaches the decoder without its fences. */
  lemma FencedReplyIsUnwrapped(body: string)
    requires Strip(body) == body
    ensures StripFences("```json" + body + "```") == body
  {
    FencesRemoved(body);
  }

  lemma FencesRemoved(body: string)
    ensures Unfenced("```json" + body + "```") == body
  {
    var t := "```json" + body + "```";
    var a := body + "```";
    assert t[..7] == "```json";
    assert t[7..] == a;
    assert a[|a| - 3..] == "```";
    assert a[..|a| - 3] == body;
  }

  /** A decoded number makes the key check raise, which is reported as no sentence. */
  lemma ScalarResultIsRejected(reply: string, decode: string -> Option<Json>, n: int)
    requires decode(StripFences(Strip(reply))) == Some(JNum(n))
    ensures GenerateSentence(Some(reply), decode).None?
  {
  }
}
