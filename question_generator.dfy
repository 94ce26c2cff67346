/**
 * The quiz-question pipeline of the listening-comprehension backend:
 * topic translation, the retrieval context, the generation prompt, the
 * first-`{`/last-`}` JSON extraction and the answer-feedback reconciliation.
 *
 * Every model call is an input: `reply: Option<string>` is what the model
 * returned (`None` when the call failed), and `decode` stands for `json.loads`
 * (`None` when it raises).
 */
module QuestionGenerator {
  import opened Wrappers
  import opened Strings
  import opened JsonValues

  // ---------------------------------------------------------------------------
  // Topic translation

  /** The fixed English-to-Spanish topic table. */
  const TopicTable: map<string, string> := map[
    "Astronomy" := "Astronomía",
    "Geography" := "Geografía",
    "History" := "Historia",
    "Science" := "Ciencia",
    "Art" := "Arte",
    "Sports" := "Deportes",
    "Other" := "Otro"
  ]

  /** The characters removed by `.strip('"\'')`. */
  const QuoteChars: set<char> := {'"', '\''}

  /** The prompt sent to the model for a topic outside the table. */
  function TranslationPrompt(topic: string): (p: string)
    ensures Contains(p, topic)
  {
    var head := "Translate this topic from English to Spanish. Return ONLY the Spanish translation without any additional text or explanation: '";
    ContainsInfix(head, topic, "'");
    head + topic + "'"
  }

  /** A reply the code accepts: present and not empty (`if translation:`). */
  predicate Answered(reply: Option<string>) {
    reply.Some? && reply.value != ""
  }

  /** `translation.strip().strip('"\'')`. */
  function CleanReply(t: string): (r: string)
    ensures r != "" ==> r[0] !in QuoteChars && r[|r| - 1] !in QuoteChars
  {
    StripSet(Strip(t), QuoteChars)
  }

  /**
   * `_translate_topic_to_spanish`. `reply` is the model's answer to
   * `TranslationPrompt(topic)`; the model is only asked for topics outside the table.
   */
  function TranslateTopic(topic: string, reply: Option<string>): (r: string)
    ensures topic in TopicTable ==> r == TopicTable[topic]
    ensures topic !in TopicTable && !Answered(reply) ==> r == topic
    ensures topic !in TopicTable && Answered(reply) ==> r == CleanReply(reply.value)
  {
    if topic in TopicTable then TopicTable[topic]
    else if Answered(reply) then CleanReply(reply.value)
    else topic
  }

  /** The cleaned reply is a contiguous piece of the raw reply. */
  lemma CleanReplyIsSlice(t: string)
    ensures IsSlice(CleanReply(t), t)
  {
    StripSetIsSlice(t, Whitespace);
    StripSetIsSlice(Strip(t), QuoteChars);
    IsSliceTransitive(CleanReply(t), Strip(t), t);
  }

  /** A translated custom topic is a contiguous piece of the model's reply. */
  lemma TranslationIsPieceOfReply(topic: string, reply: string)
    requires topic !in TopicTable && reply != ""
    ensures IsSlice(TranslateTopic(topic, Some(reply)), reply)
  {
    var r := TranslateTopic(topic, Some(reply));
    assert r == CleanReply(reply) by {
      assert Answered(Some(reply));
    }
    CleanReplyIsSlice(reply);
  }

  /** For a table topic the answer is fixed, whatever the model would have said. */
  lemma TableTopicIgnoresModel(topic: string, reply1: Option<string>, reply2: Option<string>)
    requires topic in TopicTable
    ensures TranslateTopic(topic, reply1) == TranslateTopic(topic, reply2) == TopicTable[topic]
    ensures TranslateTopic(topic, reply1) != topic
  {
  }

  /** A reply that is already clean is returned as it is. */
  lemma CleanReplyIsReturnedVerbatim(topic: string, t: string)
    requires topic !in TopicTable && t != ""
    requires t[0] !in Whitespace + QuoteChars && t[|t| - 1] !in Whitespace + QuoteChars
    ensures TranslateTopic(topic, Some(t)) == t
  {
    assert TranslateTopic(topic, Some(t)) == CleanReply(t) by {
      assert Answered(Some(t));
    }
    assert StripLeft(t, Whitespace) == t && StripRight(t, Whitespace) == t;
    assert StripLeft(t, QuoteChars) == t && StripRight(t, QuoteChars) == t;
  }

  /** A non-empty reply made only of blanks and quotes yields an empty topic, not the original. */
  lemma QuotesOnlyReplyGivesEmptyTopic(topic: string)
    requires topic !in TopicTable
    ensures TranslateTopic(topic, Some(" \"\" ")) == ""
  {
    var r := TranslateTopic(topic, Some(" \"\" "));
    assert r == CleanReply(" \"\" ") by {
      assert Answered(Some(" \"\" "));
    }
    QuotesOnlyCleanToEmpty();
  }

  lemma QuotesOnlyCleanToEmpty()
    ensures CleanReply(" \"\" ") == ""
  {
    var s, t, q := " \"\" ", "\"\" ", "\"\"";
    assert t[0] == '"' && '"' !in Whitespace;
    assert StripLeft(t, Whitespace) == t;
    assert s[0] == ' ' && s[1..] == t;
    assert StripLeft(s, Whitespace) == t;
    assert q[|q| - 1] == '"';
    assert StripRight(q, Whitespace) == q;
    assert t[|t| - 1] == ' ' && t[..|t| - 1] == q;
    assert StripRight(t, Whitespace) == q;
    assert q[1..][1..] == "";
    assert StripLeft(q[1..], QuoteChars) == "";
    assert StripLeft(q, QuoteChars) == "";
  }

  // ---------------------------------------------------------------------------
  // Retrieval context

  /** The value of a retrieved question's `correct_option` field (absent, a number or a label). */
  datatype CorrectOption = NoOption | Index(n: int) | Label(s: string)

  /** A question returned by the vector store; an absent field holds its `.get` default. */
  datatype RetrievedQuestion = RetrievedQuestion(
    question: string,
    answer: string,
    correctOption: CorrectOption,
    options: seq<string>)

  predicate OptionTruthy(c: CorrectOption) {
    match c
    case NoOption => false
    case Index(n) => n != 0
    case Label(s) => s != ""
  }

  /** `f"{correct_option}"`. */
  function OptionText(c: CorrectOption): string {
    match c
    case NoOption => ""
    case Index(n) => IntToString(n)
    case Label(s) => s
  }

  /** The question is rendered as multiple choice (`if options and correct_option`). */
  predicate IsMultipleChoice(q: RetrievedQuestion) {
    q.options != [] && OptionTruthy(q.correctOption)
  }

  function OptionLine(i: nat, option: string): string {
    "OPTION " + NatToString(i) + ": " + option
  }

  /** The `OPTION n: ...` lines, numbered from 1. */
  function OptionLines(options: seq<string>): (lines: seq<string>)
    ensures |lines| == |options|
  {
    if options == [] then []
    else OptionLines(options[..|options| - 1]) + [OptionLine(|options|, options[|options| - 1])]
  }

  lemma {:induction false} OptionLinesAt(options: seq<string>, i: nat)
    requires i < |options|
    ensures OptionLines(options)[i] == OptionLine(i + 1, options[i])
    decreases |options|
  {
    if i < |options| - 1 {
      OptionLinesAt(options[..|options| - 1], i);
    }
  }

  /** The lines `_build_context` emits for one retrieved question. */
  function QuestionBlock(q: RetrievedQuestion): seq<string> {
    if IsMultipleChoice(q) then
      ["QUESTION: " + q.question] + OptionLines(q.options)
      + ["CORRECT OPTION: " + OptionText(q.correctOption)]
      + (if q.answer != "" then ["ANSWER EXPLANATION: " + q.answer] else [])
      + ["---"]
    else
      ["Q: " + q.question]
      + (if q.answer != "" then ["A: " + q.answer] else [])
      + ["---"]
  }

  /** The shape of a multiple-choice block: the question, the options numbered 1..n,
    * the correct option, the explanation if any, and the separator. */
  lemma MultipleChoiceBlockShape(q: RetrievedQuestion)
    requires IsMultipleChoice(q)
    ensures var b := QuestionBlock(q); var n := |q.options|;
      && |b| == n + 3 + (if q.answer != "" then 1 else 0)
      && b[0] == "QUESTION: " + q.question
      && (forall i :: 0 <= i < n ==> b[1 + i] == "OPTION " + NatToString(i + 1) + ": " + q.options[i])
      && b[n + 1] == "CORRECT OPTION: " + OptionText(q.correctOption)
      && (q.answer != "" ==> b[n + 2] == "ANSWER EXPLANATION: " + q.answer)
      && b[|b| - 1] == "---"
  {
    var b := QuestionBlock(q);
    forall i | 0 <= i < |q.options|
      ensures b[1 + i] == "OPTION " + NatToString(i + 1) + ": " + q.options[i]
    {
      OptionLinesAt(q.options, i);
    }
  }

  /** The shape of a plain block: `Q:`, an optional `A:`, and the separator. */
  lemma PlainBlockShape(q: RetrievedQuestion)
    requires !IsMultipleChoice(q)
    ensures var b := QuestionBlock(q);
      && |b| == 2 + (if q.answer != "" then 1 else 0)
      && b[0] == "Q: " + q.question
      && (q.answer != "" ==> b[1] == "A: " + q.answer)
      && b[|b| - 1] == "---"
  {
  }

  /** All context lines: one block per retrieved question, in order. */
  function ContextLines(items: seq<RetrievedQuestion>): seq<string> {
    ConcatMap(items, QuestionBlock)
  }

  /** The block of item k sits right after the blocks of the items before it. */
  lemma ContextBlockPosition(items: seq<RetrievedQuestion>, k: nat)
    requires k < |items|
    ensures ContextLines(items)
         == ContextLines(items[..k]) + QuestionBlock(items[k]) + ContextLines(items[k + 1..])
  {
    ConcatMapAt(items, k, QuestionBlock);
  }

  /** One pass of `_build_context`'s loop: append the lines of one retrieved question. */
  method AppendQuestionBlock(lines: seq<string>, q: RetrievedQuestion) returns (out: seq<string>)
    ensures out == lines + QuestionBlock(q)
  {
    out := lines;
    if IsMultipleChoice(q) {
      out := out + ["QUESTION: " + q.question];
      out := AppendOptionLines(out, q.options);
      out := out + ["CORRECT OPTION: " + OptionText(q.correctOption)];
      if q.answer != "" {
        out := out + ["ANSWER EXPLANATION: " + q.answer];
      }
    } else {
      out := out + ["Q: " + q.question];
      if q.answer != "" {
        out := out + ["A: " + q.answer];
      }
    }
    out := out + ["---"];
  }

  /** The `for i, opt in enumerate(options, 1)` loop: append one numbered line per option. */
  method AppendOptionLines(lines: seq<string>, options: seq<string>) returns (out: seq<string>)
    ensures out == lines + OptionLines(options)
  {
    out := lines;
    for i := 0 to |options|
      invariant out == lines + OptionLines(options[..i])
    {
      assert options[..i + 1][..i] == options[..i];
      out := out + [OptionLine(i + 1, options[i])];
    }
    assert options[..|options|] == options;
  }

  /**
   * `_build_context`: the lines of every retrieved question, joined by newlines.
   */
  method BuildContext(items: seq<RetrievedQuestion>) returns (context: string)
    ensures context == Join(ContextLines(items), "\n")
  {
    var lines: seq<string> := [];
    for k := 0 to |items|
      invariant lines == ContextLines(items[..k])
    {
      lines := AppendQuestionBlock(lines, items[k]);
      assert items[..k + 1][..k] == items[..k];
    }
    assert items[..|items|] == items;
    context := Join(lines, "\n");
  }

  /** No retrieved question gives an empty context. */
  lemma EmptyContext()
    ensures Join(ContextLines([]), "\n") == ""
  {
  }

  /** Every retrieved question's text appears in the context string. */
  lemma ContextContainsEveryQuestion(items: seq<RetrievedQuestion>, k: nat)
    requires k < |items|
    ensures Contains(Join(ContextLines(items), "\n"), items[k].question)
  {
    var q := items[k];
    var lines := ContextLines(items);
    var head := if IsMultipleChoice(q) then "QUESTION: " else "Q: ";
    QuestionLineInContext(items, k);
    JoinContainsElement(lines, "\n", |ContextLines(items[..k])|);
    ContainsInfix(head, q.question, "");
    assert head + q.question + "" == head + q.question;
    ContainsTransitive(Join(lines, "\n"), head + q.question, q.question);
  }

  /** The first line of item k's block is its question line. */
  lemma QuestionLineInContext(items: seq<RetrievedQuestion>, k: nat)
    requires k < |items|
    ensures var q := items[k]; var lines := ContextLines(items); var n := |ContextLines(items[..k])|;
      n < |lines| && lines[n] == (if IsMultipleChoice(q) then "QUESTION: " else "Q: ") + q.question
  {
    ContextBlockPosition(items, k);
  }

  // ---------------------------------------------------------------------------
  // Generation prompt

  const PromptHead: string :=
    "You are a Spanish language learning assistant that creates engaging multiple-choice quiz questions.\n\n"
    + "INSTRUCTIONS:\n"
    + "1. Create a multiple-choice question in Spanish related to the topic: "

  const PromptMiddle: string :=
    "\n2. The question should test the user's Spanish comprehension while teaching them about the topic\n"
    + "3. Make the question challenging but fair, like those in the examples below\n"
    + "4. Include 3-4 possible answers in Spanish with only one correct answer\n"
    + "5. Add a brief scenario or context in Spanish to make the question more interesting\n"
    + "6. Return ONLY a JSON object with the following fields:\n"
    + "   - Question: The question text in Spanish\n"
    + "   - Options: Array of possible answers in Spanish\n"
    + "   - CorrectAnswer: Number of the correct option (1-indexed)\n"
    + "   - Context: A brief scenario that introduces the question in Spanish\n\n"
    + "EXAMPLES FROM THE DATABASE:\n"

  const PromptTail: string :=
    "\n\nFORMAT YOUR RESPONSE AS VALID JSON:\n"
    + "{\n"
    + "  \"Question\": \"Your question in Spanish\",\n"
    + "  \"Options\": [\"Option 1 in Spanish\", \"Option 2 in Spanish\", \"Option 3 in Spanish\"],\n"
    + "  \"CorrectAnswer\": 1,\n"
    + "  \"Context\": \"Brief scenario in Spanish\"\n"
    + "}\n"

  /** `_build_prompt`: the fixed template with the topic and the context spliced in verbatim. */
  function BuildPrompt(context: string, topic: string): (p: string)
    ensures Contains(p, topic) && Contains(p, context)
    ensures StartsWith(p, PromptHead + topic) && EndsWith(p, context + PromptTail)
  {
    FivePartsContain(PromptHead, topic, PromptMiddle, context, PromptTail);
    PromptHead + topic + PromptMiddle + context + PromptTail
  }

  // ---------------------------------------------------------------------------
  // Response parsing

  /** `response[response.find("{"):response.rfind("}") + 1]`, or `None` when a brace is missing. */
  function JsonSlice(response: string): (r: Option<string>)
    ensures r.Some? <==> '{' in response && '}' in response
  {
    ContainsChar(response, '{');
    var start := Find(response, "{");
    var end := RFindChar(response, '}');
    if start.None? || end.None? then None
    else if start.value <= end.value then Some(response[start.value..end.value + 1])
    else Some("")
  }

  /** The four keys of a generated question. */
  const QuestionKeys: set<string> := {"Question", "Options", "CorrectAnswer", "Context"}

  /** The output's `key` is the decoded object's value when present, and `default` otherwise. */
  predicate TakenOrDefault(q: map<string, Json>, data: map<string, Json>, key: string, default: Json) {
    key in q && (key in data ==> q[key] == data[key]) && (key !in data ==> q[key] == default)
  }

  /** The question built from a decoded object, with the per-field defaults. */
  function QuestionFromObject(data: map<string, Json>): (q: map<string, Json>)
    ensures q.Keys == QuestionKeys
    ensures TakenOrDefault(q, data, "Question", JStr(""))
    ensures TakenOrDefault(q, data, "Options", JArr([]))
    ensures TakenOrDefault(q, data, "CorrectAnswer", JNum(1))
    ensures TakenOrDefault(q, data, "Context", JStr(""))
  {
    map[
      "Question" := Get(data, "Question", JStr("")),
      "Options" := Get(data, "Options", JArr([])),
      "CorrectAnswer" := Get(data, "CorrectAnswer", JNum(1)),
      "Context" := Get(data, "Context", JStr(""))
    ]
  }

  /**
   * `_parse_response`: decode the slice from the first `{` to the last `}`;
   * `None` (never an exception) when a brace is missing, decoding fails or the
   * decoded value is not an object.
   */
  function ParseResponse(response: string, decode: string -> Option<Json>): (r: Option<map<string, Json>>)
    ensures ('{' !in response || '}' !in response) ==> r.None?
    ensures r.Some? <==>
      JsonSlice(response).Some? && decode(JsonSlice(response).value).Some?
      && decode(JsonSlice(response).value).value.JObj?
    ensures r.Some? ==> r.value.Keys == QuestionKeys
    ensures r.Some? ==> r.value == QuestionFromObject(decode(JsonSlice(response).value).value.fields)
  {
    match JsonSlice(response)
    case None => None
    case Some(text) =>
      match decode(text)
      case Some(JObj(data)) => Some(QuestionFromObject(data))
      case _ => None
  }

  /** The slice handed to the decoder runs exactly from the first `{` to the last `}`. */
  lemma JsonSliceBounds(response: string)
    requires JsonSlice(response).Some? && JsonSlice(response).value != ""
    ensures var t := JsonSlice(response).value;
      && t[0] == '{' && t[|t| - 1] == '}'
      && exists start: nat :: start + |t| <= |response| && response[start..start + |t|] == t
           && '{' !in response[..start] && '}' !in response[start + |t|..]
  {
    var start := Find(response, "{").value;
    var end := RFindChar(response, '}').value;
    var t := JsonSlice(response).value;
    assert t == response[start..end + 1];
    assert response[start..start + 1] == "{";
    forall i | 0 <= i < start ensures response[i] != '{' {
      assert !OccursAt(response, "{", i);
      assert response[i..i + 1] == [response[i]];
    }
    assert '{' !in response[..start];
    assert '}' !in response[end + 1..];
    assert response[start..start + |t|] == t;
  }

  /** The first `{` of `prefix + body + suffix` is the one that opens `body`. */
  lemma FirstBraceOpensBody(prefix: string, body: string, suffix: string)
    requires '{' !in prefix && body != [] && body[0] == '{'
    ensures Find(prefix + body + suffix, "{") == Some(|prefix|)
  {
    var s := prefix + body + suffix;
    assert s[|prefix|..|prefix| + 1] == "{";
    assert OccursAt(s, "{", |prefix|);
    ContainsWitness(s, "{", |prefix|);
    forall j: nat | j < |prefix| ensures !OccursAt(s, "{", j) {
      assert s[j..j + 1] == [prefix[j]];
    }
  }

  /** The last `}` of `prefix + body + suffix` is the one that closes `body`. */
  lemma LastBraceClosesBody(prefix: string, body: string, suffix: string)
    requires '}' !in suffix && body != [] && body[|body| - 1] == '}'
    ensures RFindChar(prefix + body + suffix, '}') == Some(|prefix| + |body| - 1)
  {
    var s := prefix + body + suffix;
    assert s[|prefix| + |body| - 1] == '}';
    forall j | |prefix| + |body| <= j < |s| ensures s[j] != '}' {
      assert s[j] == suffix[j - |prefix| - |body|];
    }
  }

  /** The slice of `prefix + body + suffix` is `body` when the braces that bound it are the outermost. */
  lemma WrappedSlice(prefix: string, body: string, suffix: string)
    requires '{' !in prefix && '}' !in suffix
    requires |body| >= 2 && body[0] == '{' && body[|body| - 1] == '}'
    ensures JsonSlice(prefix + body + suffix) == Some(body)
  {
    var s := prefix + body + suffix;
    FirstBraceOpensBody(prefix, body, suffix);
    LastBraceClosesBody(prefix, body, suffix);
    assert s[|prefix|..|prefix| + |body|] == body;
  }

  /** Prose or fences around the object, free of braces, do not change the result. */
  lemma SurroundingProseIgnored(prefix: string, body: string, suffix: string, decode: string -> Option<Json>)
    requires '{' !in prefix && '}' !in suffix
    requires |body| >= 2 && body[0] == '{' && body[|body| - 1] == '}'
    ensures JsonSlice(prefix + body + suffix) == Some(body)
    ensures ParseResponse(prefix + body + suffix, decode) == ParseResponse(body, decode)
  {
    WrappedSlice(prefix, body, suffix);
    WrappedSlice([], body, []);
    assert [] + body + [] == body;
  }

  /** An object with none of the four keys yields the defaults. */
  lemma EmptyObjectGivesDefaults(response: string, decode: string -> Option<Json>)
    requires JsonSlice(response).Some? && decode(JsonSlice(response).value) == Some(JObj(map[]))
    ensures ParseResponse(response, decode) == Some(map[
      "Question" := JStr(""), "Options" := JArr([]), "CorrectAnswer" := JNum(1), "Context" := JStr("")])
  {
  }

  /** `CorrectAnswer` is passed through without a bounds check against `Options`. */
  lemma CorrectAnswerNotBoundsChecked()
    ensures var decode := (t: string) => Some(JObj(map["CorrectAnswer" := JNum(7)]));
      var r := ParseResponse("{}", decode);
      r.Some? && r.value["CorrectAnswer"] == JNum(7) && r.value["Options"] == JArr([])
  {
    var decode := (t: string) => Some(JObj(map["CorrectAnswer" := JNum(7)]));
    assert OccursAt("{}", "{", 0);
    ContainsWitness("{}", "{", 0);
    assert Find("{}", "{") == Some(0);
    assert RFindChar("{}", '}') == Some(1);
    assert "{}"[0..2] == "{}";
    assert JsonSlice("{}") == Some("{}");
  }

  // ---------------------------------------------------------------------------
  // generate_similar_question

  /**
   * The prompt `generate_similar_question` sends: `None` when retrieval found nothing
   * (no model call is made), otherwise the template filled with the context of the
   * retrieved questions and the translated topic.
   */
  function QuestionPrompt(topic: string, translation: Option<string>, retrieved: seq<RetrievedQuestion>): (p: Option<string>)
    ensures p.None? <==> retrieved == []
    ensures p.Some? ==> Contains(p.value, TranslateTopic(topic, translation))
  {
    if retrieved == [] then None
    else Some(BuildPrompt(Join(ContextLines(retrieved), "\n"), TranslateTopic(topic, translation)))
  }

  /** The prompt quotes every retrieved question. */
  lemma PromptQuotesEveryRetrievedQuestion(topic: string, translation: Option<string>,
                                           retrieved: seq<RetrievedQuestion>, k: nat)
    requires k < |retrieved|
    ensures Contains(QuestionPrompt(topic, translation, retrieved).value, retrieved[k].question)
  {
    var context := Join(ContextLines(retrieved), "\n");
    var p := QuestionPrompt(topic, translation, retrieved).value;
    ContextContainsEveryQuestion(retrieved, k);
    assert Contains(p, context);
    ContainsTransitive(p, context, retrieved[k].question);
  }

  /**
   * `generate_similar_question` (control flow): `reply` is the model's answer to
   * `QuestionPrompt(...)`.
   */
  function GenerateSimilarQuestion(retrieved: seq<RetrievedQuestion>, reply: Option<string>,
                                   decode: string -> Option<Json>): (r: Option<map<string, Json>>)
    ensures retrieved == [] ==> r.None?
    ensures !Answered(reply) ==> r.None?
    ensures retrieved != [] && Answered(reply) ==> r == ParseResponse(reply.value, decode)
    ensures r.Some? ==> r.value.Keys == QuestionKeys
  {
    if retrieved == [] then None
    else if !Answered(reply) then None
    else ParseResponse(reply.value, decode)
  }

  // ---------------------------------------------------------------------------
  // get_feedback

  /** The record `get_feedback` returns; `correctAnswer` is absent from the fallback records. */
  datatype Feedback = Feedback(correct: Json, explanation: Json, correctAnswer: Option<Json>)

  /** `question.get('CorrectAnswer', 1)`. */
  function ExpectedAnswer(question: map<string, Json>): Json {
    Get(question, "CorrectAnswer", JNum(1))
  }

  /** The locally computed flag `selected_answer == correct_answer`. */
  predicate LocalCorrect(question: map<string, Json>, selected: int) {
    PyEqualsInt(ExpectedAnswer(question), selected)
  }

  /** `enumerate(question.get('Options', []))` succeeds: the value is iterable. */
  predicate OptionsIterable(question: map<string, Json>) {
    var o := Get(question, "Options", JArr([]));
    o.JArr? || o.JStr? || o.JObj?
  }

  /** `if not question`: `None` or an empty dict. */
  predicate QuestionMissing(question: Option<map<string, Json>>) {
    question.None? || question.value == map[]
  }

  /** The model is consulted: the question is present, its prompt builds and a reply came back. */
  predicate Consulted(question: Option<map<string, Json>>, reply: Option<string>) {
    !QuestionMissing(question) && OptionsIterable(question.value) && Answered(reply)
  }

  /** The reply holds a brace pair whose text decodes to a JSON object. */
  predicate DecodesToObject(reply: string, decode: string -> Option<Json>) {
    JsonSlice(reply).Some? && decode(JsonSlice(reply).value).Some?
    && decode(JsonSlice(reply).value).value.JObj?
  }

  /**
   * `get_feedback`. `reply` is the model's answer to the feedback prompt; `Failure`
   * is the `TypeError` raised while building that prompt from non-iterable `Options`.
   */
  function GetFeedback(question: Option<map<string, Json>>, selected: int, reply: Option<string>,
                       decode: string -> Option<Json>): (r: Result<Feedback, string>)
    ensures QuestionMissing(question) ==>
      r == Success(Feedback(JBool(false), JStr("Question not available"), None))
    ensures r.Failure? <==> !QuestionMissing(question) && !OptionsIterable(question.value)
    ensures r.Success? && !QuestionMissing(question) && r.value.correctAnswer.None? ==>
      r.value.correct == JBool(LocalCorrect(question.value, selected))
    ensures Consulted(question, reply) && JsonSlice(reply.value).None? ==>
      r == Success(Feedback(JBool(LocalCorrect(question.value, selected)),
                            JStr("Unable to parse feedback"), None))
    ensures Consulted(question, reply) && JsonSlice(reply.value).Some?
            && !DecodesToObject(reply.value, decode) ==>
      r == Success(Feedback(JBool(LocalCorrect(question.value, selected)),
                            JStr("Error generating feedback"), None))
    ensures Consulted(question, reply) && DecodesToObject(reply.value, decode) ==>
      var data := decode(JsonSlice(reply.value).value).value.fields;
      r.Success? && r.value.correctAnswer.Some?
      && ("correct" in data ==> r.value.correct == data["correct"])
      && ("correct" !in data ==> r.value.correct == JBool(LocalCorrect(question.value, selected)))
      && ("explanation" in data ==> r.value.explanation == data["explanation"])
      && ("explanation" !in data ==> r.value.explanation == JStr("No explanation provided"))
      && ("correct_answer" in data ==> r.value.correctAnswer.value == data["correct_answer"])
      && ("correct_answer" !in data ==> r.value.correctAnswer.value == ExpectedAnswer(question.value))
  {
    if QuestionMissing(question) then
      Success(Feedback(JBool(false), JStr("Question not available"), None))
    else
      var q := question.value;
      var local := LocalCorrect(q, selected);
      if !OptionsIterable(q) then Failure("TypeError")
      else if !Answered(reply) then
        Success(Feedback(JBool(local), JStr("Unable to generate detailed feedback"), None))
      else match JsonSlice(reply.value)
        case None => Success(Feedback(JBool(local), JStr("Unable to parse feedback"), None))
        case Some(text) =>
          match decode(text)
          case Some(JObj(data)) =>
            Success(Feedback(
              Get(data, "correct", JBool(local)),
              Get(data, "explanation", JStr("No explanation provided")),
              Some(Get(data, "correct_answer", ExpectedAnswer(q)))))
          case _ => Success(Feedback(JBool(local), JStr("Error generating feedback"), None))
  }

  /** The model's `correct` overrides the local flag, even when the two disagree. */
  lemma ModelVerdictOverridesLocal(question: map<string, Json>, selected: int, reply: string,
                                   decode: string -> Option<Json>, data: map<string, Json>)
    requires question != map[] && OptionsIterable(question) && reply != ""
    requires JsonSlice(reply).Some? && decode(JsonSlice(reply).value) == Some(JObj(data))
    requires "correct" in data
    ensures GetFeedback(Some(question), selected, Some(reply), decode).value.correct == data["correct"]
  {
  }

  /** A concrete disagreement: the learner picked the expected option but the model says false. */
  lemma DisagreementResolvedForModel()
    ensures var q := map["CorrectAnswer" := JNum(2)];
      var decode := (t: string) => Some(JObj(map["correct" := JBool(false)]));
      LocalCorrect(q, 2)
      && GetFeedback(Some(q), 2, Some("{\"correct\": false}"), decode).value.correct == JBool(false)
  {
    var reply := "{\"correct\": false}";
    assert OccursAt(reply, "{", 0);
    ContainsWitness(reply, "{", 0);
    assert JsonSlice(reply).Some?;
  }

  /** Without a usable reply the local flag decides, with a fixed explanation. */
  lemma NoReplyFallsBackToLocal(question: map<string, Json>, selected: int, decode: string -> Option<Json>)
    requires question != map[] && OptionsIterable(question)
    ensures GetFeedback(Some(question), selected, None, decode)
         == Success(Feedback(JBool(LocalCorrect(question, selected)),
                             JStr("Unable to generate detailed feedback"), None))
  {
    assert !QuestionMissing(Some(question));
    assert !Answered(None);
  }

  /**
   * A question produced by `_parse_response` is never reported as unavailable: feedback
   * on it succeeds exactly when its `Options` is iterable.
   */
  lemma ParsedQuestionIsAvailable(response: string, decode: string -> Option<Json>, selected: int,
                                  reply: Option<string>)
    requires ParseResponse(response, decode).Some?
    ensures var q := ParseResponse(response, decode);
      !QuestionMissing(q)
      && (GetFeedback(q, selected, reply, decode).Success? <==> OptionsIterable(q.value))
  {
    var q := ParseResponse(response, decode).value;
    assert "Question" in q;
  }

  /** A generated question whose `Options` is a number makes `get_feedback` raise. */
  lemma NumericOptionsRaise(decode: string -> Option<Json>, selected: int, reply: Option<string>)
    ensures GetFeedback(Some(map["Options" := JNum(3)]), selected, reply, decode).Failure?
  {
    var q := map["Options" := JNum(3)];
    assert "Options" in q;
    assert !OptionsIterable(q);
  }
}
