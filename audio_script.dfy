/**
 * The listening exercise's audio script: the validator of (speaker, text, gender)
 * parts, the line parser that reads them out of the model's `Speaker:`/`Text:`/`---`
 * text, the voice chosen per gender, the normalized file name, and the sequence of
 * audio and pause files the exercise is assembled from.
 *
 * The script model's reply, speech synthesis and ffmpeg are not modelled: the reply is
 * a `Result` input and synthesis is a function parameter returning the temporary file.
 */
module AudioScript {
  import opened Wrappers
  import opened Strings

  /** One part of the conversation: `(speaker, text, gender)`. */
  datatype Part = Part(speaker: string, text: string, gender: string)

  // ---------------------------------------------------------------------------
  // validate_conversation_parts

  /** The per-part checks: a non-empty speaker and text, and gender exactly `male` or `female`. */
  predicate ValidPart(p: Part) {
    p.speaker != "" && p.text != "" && (p.gender == "male" || p.gender == "female")
  }

  /** What `validate_conversation_parts` accepts. */
  predicate ValidConversation(parts: seq<Part>) {
    parts != [] && Lower(parts[0].speaker) == "announcer"
    && forall i :: 0 <= i < |parts| ==> ValidPart(parts[i])
  }

  /** `validate_conversation_parts`, check by check. */
  method ValidateConversationParts(parts: seq<Part>) returns (ok: bool)
    ensures ok <==> ValidConversation(parts)
    ensures parts == [] ==> !ok
  {
    if parts == [] {
      return false;
    }
    if Lower(parts[0].speaker) != "announcer" {
      return false;
    }
    var i := 0;
    while i < |parts|
      invariant 0 <= i <= |parts|
      invariant forall j :: 0 <= j < i ==> ValidPart(parts[j])
    {
      var p := parts[i];
      if p.speaker == "" {
        return false;
      }
      if p.text == "" {
        return false;
      }
      if p.gender != "male" && p.gender != "female" {
        return false;
      }
      i := i + 1;
    }
    return true;
  }

  // ---------------------------------------------------------------------------
  // Gender of a `Speaker:` line

  /** `'male' if 'male' in gender_part else 'female'`, as written. */
  function GenderAsWritten(genderPart: string): (g: string)
    ensures g == "male" || g == "female"
  {
    if Contains(genderPart, "male") then "male" else "female"
  }

  /** As written, a speaker declared female is parsed as male, since "male" occurs in "female". */
  lemma FemaleParsedAsMale()
    ensures GenderAsWritten("female") == "male"
  {
    assert OccursAt("female", "male", 2);
    ContainsWitness("female", "male", 2);
  }

  /**
   * The intended reading: `female` when the declared gender says female, `male` when it
   * says male and not female, and the source's default `female` otherwise.
   */
  function Gender(genderPart: string): (g: string)
    ensures g == "male" || g == "female"
    ensures g == "male" <==> Contains(genderPart, "male") && !Contains(genderPart, "female")
  {
    if Contains(genderPart, "female") then "female"
    else if Contains(genderPart, "male") then "male"
    else "female"
  }

  /** The intended reading gives each declared gender back. */
  lemma GenderReadsDeclaration()
    ensures Gender("female") == "female"
    ensures Gender("male") == "male"
  {
    assert OccursAt("female", "female", 0);
    ContainsWitness("female", "female", 0);
    assert OccursAt("male", "male", 0);
    ContainsWitness("male", "male", 0);
    assert !Contains("male", "female");
  }

  // ---------------------------------------------------------------------------
  // The line parser inside parse_conversation

  /** The fields of the part being read; `None` before they are seen. */
  datatype Pending = Pending(speaker: Option<string>, text: Option<string>, gender: Option<string>)

  const NoPending := Pending(None, None, None)

  /** A field that is set and truthy. */
  predicate Filled(f: Option<string>) {
    f.Some? && f.value != ""
  }

  /** `if current_speaker and current_text and current_gender:` */
  predicate Complete(p: Pending) {
    Filled(p.speaker) && Filled(p.text) && Filled(p.gender)
  }

  function PartOf(p: Pending): Part
    requires Complete(p)
  {
    Part(p.speaker.value, p.text.value, p.gender.value)
  }

  /** The parser's state between lines: the parts emitted so far and the pending part. */
  datatype Scan = Scan(parts: seq<Part>, pending: Pending)

  /** A separator: a blank line or `---` after stripping. */
  predicate IsSeparator(line: string) {
    line == "" || line == "---"
  }

  /**
   * A stripped `Speaker:` line: the speaker before the first `(` and the gender after
   * `Gender:`; `Failure` for the `IndexError` raised when `Gender:` is missing.
   */
  function SpeakerLine(line: string): (r: Result<(string, string), string>)
    requires StartsWith(line, "Speaker:")
    ensures r.Success? <==> Declaration(line).Some?
    ensures r.Success? ==> r.value.1 == "male" || r.value.1 == "female"
  {
    StartsWithContains(line, "Speaker:");
    var info := Strip(SecondPiece(line, "Speaker:").value);
    var speaker := Strip(Before(info, "("));
    match Declaration(line)
    case None => Failure("list index out of range")
    case Some(d) => Success((speaker, GenderAsWritten(d)))
  }

  /**
   * The declared gender of a stripped `Speaker:` line: the lowercased, stripped text
   * between `Gender:` and `)`; `None` when the line has no `Gender:`.
   */
  function Declaration(line: string): Option<string>
    requires StartsWith(line, "Speaker:")
  {
    StartsWithContains(line, "Speaker:");
    var info := Strip(SecondPiece(line, "Speaker:").value);
    match SecondPiece(info, "Gender:")
    case None => None
    case Some(g) => Some(Lower(Strip(Before(g, ")"))))
  }

  /** As written, a declaration that mentions `female` also mentions `male`, so it reads as male. */
  lemma FemaleDeclarationReadsMale(d: string)
    requires Contains(d, "female")
    ensures GenderAsWritten(d) == "male"
  {
    FemaleParsedAsMale();
    assert Contains("female", "male");
    ContainsTransitive(d, "female", "male");
  }

  /** As written, the step that reads a speaker declared female sets the pending gender to male. */
  lemma FemaleSpeakerStepSetsMale(scan: Scan, raw: string)
    requires StartsWith(Strip(raw), "Speaker:")
    requires Declaration(Strip(raw)).Some? && Contains(Declaration(Strip(raw)).value, "female")
    ensures StepLine(scan, raw).Success?
    ensures StepLine(scan, raw).value.pending.gender == Some("male")
    ensures StepLine(scan, raw).value.pending.speaker == Some(SpeakerLine(Strip(raw)).value.0)
    ensures scan.pending == NoPending ==> StepLine(scan, raw).value.parts == scan.parts
  {
    var line := Strip(raw);
    assert !IsSeparator(line) by {
      assert |line| >= 8;
    }
    FemaleDeclarationReadsMale(Declaration(line).value);
  }

  /**
   * As written, a script whose speaker is declared female and whose text follows yields a
   * single part with gender `male`.
   */
  lemma FemaleSpeakerScriptGivesMalePart(speakerRaw: string, textRaw: string)
    requires StartsWith(Strip(speakerRaw), "Speaker:")
    requires Declaration(Strip(speakerRaw)).Some? && Contains(Declaration(Strip(speakerRaw)).value, "female")
    requires StartsWith(Strip(textRaw), "Text:")
    requires SpeakerLine(Strip(speakerRaw)).value.0 != "" && TextLine(Strip(textRaw)) != ""
    ensures ScanLines([speakerRaw, textRaw]).Success?
    ensures Flush(ScanLines([speakerRaw, textRaw]).value)
         == [Part(SpeakerLine(Strip(speakerRaw)).value.0, TextLine(Strip(textRaw)), "male")]
  {
    var speaker, text := SpeakerLine(Strip(speakerRaw)).value.0, TextLine(Strip(textRaw));
    FemaleSpeakerStepSetsMale(Scan([], NoPending), speakerRaw);
    var s1 := StepLine(Scan([], NoPending), speakerRaw).value;
    LaterTextOverwrites(s1, textRaw);
    TwoLines(speakerRaw, textRaw);
    var s2 := StepLine(s1, textRaw).value;
    assert s2 == Scan([], Pending(Some(speaker), Some(text), Some("male")));
    FlushOfOnePart(speaker, text, "male");
  }

  /** Flushing a complete pending part with nothing emitted before it gives that one part. */
  lemma FlushOfOnePart(speaker: string, text: string, gender: string)
    requires speaker != "" && text != "" && gender != ""
    ensures Flush(Scan([], Pending(Some(speaker), Some(text), Some(gender)))) == [Part(speaker, text, gender)]
  {
  }

  /** The scan of two lines is the second step after the first, when the first does not raise. */
  lemma TwoLines(a: string, b: string)
    requires StepLine(Scan([], NoPending), a).Success?
    ensures ScanLines([a, b]) == StepLine(StepLine(Scan([], NoPending), a).value, b)
  {
    var lines := [a, b];
    assert lines[..0] == [] && lines[..2] == lines;
    ScanLinesNext(lines, 0);
    ScanLinesNext(lines, 1);
  }

  /** A stripped `Text:` line: the text after the marker. */
  function TextLine(line: string): string
    requires StartsWith(line, "Text:")
  {
    StartsWithContains(line, "Text:");
    Strip(SecondPiece(line, "Text:").value)
  }

  /** One pass of the loop over the reply's lines. */
  function StepLine(scan: Scan, raw: string): Result<Scan, string> {
    var line := Strip(raw);
    if IsSeparator(line) then
      if Complete(scan.pending) then Success(Scan(scan.parts + [PartOf(scan.pending)], NoPending))
      else Success(scan)
    else if StartsWith(line, "Speaker:") then
      match SpeakerLine(line)
      case Failure(e) => Failure(e)
      case Success(sg) => Success(Scan(scan.parts, scan.pending.(speaker := Some(sg.0), gender := Some(sg.1))))
    else if StartsWith(line, "Text:") then
      Success(Scan(scan.parts, scan.pending.(text := Some(TextLine(line)))))
    else
      Success(scan)
  }

  /** The loop over the first lines, from the empty state; the first raise ends it. */
  function ScanLines(lines: seq<string>): Result<Scan, string>
    decreases |lines|
  {
    if lines == [] then Success(Scan([], NoPending))
    else match ScanLines(lines[..|lines| - 1])
      case Failure(e) => Failure(e)
      case Success(scan) => StepLine(scan, lines[|lines| - 1])
  }

  /** After the loop: the final part is added if it is complete. */
  function Flush(scan: Scan): seq<Part> {
    if Complete(scan.pending) then scan.parts + [PartOf(scan.pending)] else scan.parts
  }

  /** The parts the line parser produces from a reply, or the error it raises. */
  function ScriptParts(reply: string): Result<seq<Part>, string> {
    match ScanLines(SplitOn(reply, '\n'))
    case Failure(e) => Failure(e)
    case Success(scan) => Success(Flush(scan))
  }

  /** Once a line has raised, the lines after it change nothing. */
  lemma {:induction false} FailureSticks(lines: seq<string>, k: nat)
    requires k <= |lines| && ScanLines(lines[..k]).Failure?
    ensures ScanLines(lines) == ScanLines(lines[..k])
    decreases |lines| - k
  {
    if k < |lines| {
      assert lines[..k + 1][..k] == lines[..k];
      FailureSticks(lines, k + 1);
    } else {
      assert lines[..k] == lines;
    }
  }

  /** The scan of one more line is one more step of the scan so far. */
  lemma ScanLinesNext(lines: seq<string>, i: nat)
    requires i < |lines|
    ensures ScanLines(lines[..i]).Success? ==>
      ScanLines(lines[..i + 1]) == StepLine(ScanLines(lines[..i]).value, lines[i])
  {
    assert lines[..i + 1][..i] == lines[..i];
  }

  /** One pass of the parser's loop over the locals `parts`, `speaker`, `text`, `gender`. */
  method ReadLine(parts: seq<Part>, speaker: Option<string>, text: Option<string>, gender: Option<string>,
                  raw: string)
    returns (raised: Option<string>, parts': seq<Part>, speaker': Option<string>, text': Option<string>,
             gender': Option<string>)
    ensures var step := StepLine(Scan(parts, Pending(speaker, text, gender)), raw);
      (raised.Some? <==> step.Failure?)
      && (step.Failure? ==> raised.value == step.error)
      && (step.Success? ==> step.value == Scan(parts', Pending(speaker', text', gender')))
  {
    ghost var before := Scan(parts, Pending(speaker, text, gender));
    raised, parts', speaker', text', gender' := None, parts, speaker, text, gender;
    var line := Strip(raw);
    if IsSeparator(line) {
      if Filled(speaker) && Filled(text) && Filled(gender) {
        SeparatorEmitsCompletePart(before, raw);
        parts' := parts + [Part(speaker.value, text.value, gender.value)];
        speaker', gender', text' := None, None, None;
      } else {
        IncompletePartCarriesOver(before, raw);
      }
    } else if StartsWith(line, "Speaker:") {
      SpeakerLineStep(before, raw);
      var sg := SpeakerLine(line);
      if sg.Failure? {
        raised := Some(sg.error);
      } else {
        speaker' := Some(sg.value.0);
        gender' := Some(sg.value.1);
      }
    } else if StartsWith(line, "Text:") {
      LaterTextOverwrites(before, raw);
      text' := Some(TextLine(line));
    } else {
      OtherLineIgnored(before, raw);
    }
  }

  /** The line parser, one line at a time. */
  method ParseScript(reply: string) returns (r: Result<seq<Part>, string>)
    ensures r == ScriptParts(reply)
  {
    var lines := SplitOn(reply, '\n');
    var parts: seq<Part> := [];
    var speaker: Option<string> := None;
    var gender: Option<string> := None;
    var text: Option<string> := None;
    for i := 0 to |lines|
      invariant ScanLines(lines[..i]) == Success(Scan(parts, Pending(speaker, text, gender)))
    {
      ScanLinesNext(lines, i);
      var raised;
      raised, parts, speaker, text, gender := ReadLine(parts, speaker, text, gender, lines[i]);
      if raised.Some? {
        FailureSticks(lines, i + 1);
        return Failure(raised.value);
      }
    }
    assert lines[..|lines|] == lines;
    if Filled(speaker) && Filled(text) && Filled(gender) {
      parts := parts + [Part(speaker.value, text.value, gender.value)];
    }
    r := Success(parts);
  }

  /** Every part the parser has emitted passes the per-part checks, and so does a complete pending part. */
  predicate ScanValid(scan: Scan) {
    (forall i :: 0 <= i < |scan.parts| ==> ValidPart(scan.parts[i]))
    && (scan.pending.gender.Some? ==> scan.pending.gender.value == "male" || scan.pending.gender.value == "female")
  }

  lemma StepLineKeepsValid(scan: Scan, raw: string)
    requires ScanValid(scan)
    ensures StepLine(scan, raw).Success? ==> ScanValid(StepLine(scan, raw).value)
  {
    var line := Strip(raw);
    if IsSeparator(line) && Complete(scan.pending) {
      var parts := scan.parts + [PartOf(scan.pending)];
      assert forall i :: 0 <= i < |scan.parts| ==> parts[i] == scan.parts[i];
      assert ValidPart(parts[|scan.parts|]);
      assert StepLine(scan, raw) == Success(Scan(parts, NoPending));
    }
  }

  lemma {:induction false} ScanLinesValid(lines: seq<string>)
    ensures ScanLines(lines).Success? ==> ScanValid(ScanLines(lines).value)
    decreases |lines|
  {
    if lines != [] {
      ScanLinesValid(lines[..|lines| - 1]);
      var prev := ScanLines(lines[..|lines| - 1]);
      if prev.Success? {
        StepLineKeepsValid(prev.value, lines[|lines| - 1]);
      }
    }
  }

  /**
   * Parsed parts always pass the per-part checks, so validation rejects a parsed script
   * only when it is empty or does not open with the announcer.
   */
  lemma ParsedScriptValidIffAnnouncerFirst(reply: string)
    requires ScriptParts(reply).Success?
    ensures var parts := ScriptParts(reply).value;
      forall i :: 0 <= i < |parts| ==> ValidPart(parts[i])
    ensures var parts := ScriptParts(reply).value;
      ValidConversation(parts) <==> parts != [] && Lower(parts[0].speaker) == "announcer"
  {
    ScanLinesValid(SplitOn(reply, '\n'));
  }

  /** A separator emits the pending part when it is complete and resets the fields. */
  lemma SeparatorEmitsCompletePart(scan: Scan, raw: string)
    requires IsSeparator(Strip(raw)) && Complete(scan.pending)
    ensures StepLine(scan, raw) == Success(Scan(scan.parts + [PartOf(scan.pending)], NoPending))
  {
  }

  /** An incomplete part is carried over a separator, fields and all. */
  lemma IncompletePartCarriesOver(scan: Scan, raw: string)
    requires IsSeparator(Strip(raw)) && !Complete(scan.pending)
    ensures StepLine(scan, raw) == Success(scan)
  {
  }

  /** A `Speaker:` line sets the speaker and the gender, or raises. */
  lemma SpeakerLineStep(scan: Scan, raw: string)
    requires !IsSeparator(Strip(raw)) && StartsWith(Strip(raw), "Speaker:")
    ensures var sl := SpeakerLine(Strip(raw));
      StepLine(scan, raw) == if sl.Failure? then Failure(sl.error)
        else Success(Scan(scan.parts, scan.pending.(speaker := Some(sl.value.0), gender := Some(sl.value.1))))
  {
  }

  /** A `Speaker:` line whose fields cannot be read makes the step raise. */
  lemma SpeakerLineRaises(scan: Scan, raw: string)
    requires !IsSeparator(Strip(raw)) && StartsWith(Strip(raw), "Speaker:")
    requires SpeakerLine(Strip(raw)).Failure?
    ensures StepLine(scan, raw).Failure?
  {
  }

  /** Any other line leaves the state as it is. */
  lemma OtherLineIgnored(scan: Scan, raw: string)
    requires !IsSeparator(Strip(raw)) && !StartsWith(Strip(raw), "Speaker:") && !StartsWith(Strip(raw), "Text:")
    ensures StepLine(scan, raw) == Success(scan)
  {
  }

  /** A later `Text:` line overwrites the pending text and keeps speaker and gender. */
  lemma LaterTextOverwrites(scan: Scan, raw: string)
    requires StartsWith(Strip(raw), "Text:")
    ensures StepLine(scan, raw).Success?
    ensures var p := StepLine(scan, raw).value.pending;
      p.text == Some(TextLine(Strip(raw))) && p.speaker == scan.pending.speaker
      && p.gender == scan.pending.gender && StepLine(scan, raw).value.parts == scan.parts
  {
    TextLineIsNoOtherKind(Strip(raw));
  }

  /** A `Text:` line is neither a separator nor a `Speaker:` line. */
  lemma TextLineIsNoOtherKind(line: string)
    requires StartsWith(line, "Text:")
    ensures !IsSeparator(line) && !StartsWith(line, "Speaker:")
  {
    assert |line| >= 5 && line[0] == 'T';
    assert "Speaker:"[0] == 'S';
  }

  /** A `Speaker:` line without `Gender:` raises. */
  lemma SpeakerLineWithoutGender(line: string)
    requires StartsWith(line, "Speaker:") && !Contains(line, "Gender:")
    ensures SpeakerLine(line).Failure?
  {
    StartsWithContains(line, "Speaker:");
    var piece := SecondPiece(line, "Speaker:").value;
    var info := Strip(piece);
    SecondPieceIsSlice(line, "Speaker:");
    StripSetIsSlice(piece, Whitespace);
    IsSliceTransitive(info, piece, line);
    var lo: nat, hi: nat :| lo <= hi <= |line| && info == line[lo..hi];
    if Contains(info, "Gender:") {
      ContainsSlice(line, lo, hi, "Gender:");
    }
  }

  /** ... the step that reads it raises ... */
  lemma StepRaisesWithoutGender(scan: Scan, raw: string)
    requires StartsWith(Strip(raw), "Speaker:") && !Contains(Strip(raw), "Gender:")
    ensures StepLine(scan, raw).Failure?
  {
    var line := Strip(raw);
    SpeakerLineWithoutGender(line);
    assert !IsSeparator(line) by {
      assert |line| >= 8;
    }
    SpeakerLineRaises(scan, raw);
  }

  /** ... and the whole parse raises with it. */
  lemma SpeakerWithoutGenderRaises(reply: string, k: nat)
    requires k < |SplitOn(reply, '\n')|
    requires var line := Strip(SplitOn(reply, '\n')[k]);
      StartsWith(line, "Speaker:") && !Contains(line, "Gender:")
    ensures ScriptParts(reply).Failure?
  {
    ScanRaisesAtSpeakerWithoutGender(SplitOn(reply, '\n'), k);
  }

  lemma ScanRaisesAtSpeakerWithoutGender(lines: seq<string>, k: nat)
    requires k < |lines|
    requires StartsWith(Strip(lines[k]), "Speaker:") && !Contains(Strip(lines[k]), "Gender:")
    ensures ScanLines(lines).Failure?
  {
    var prev := ScanLines(lines[..k]);
    if prev.Success? {
      StepRaisesWithoutGender(prev.value, lines[k]);
    }
    RaisingStepFailsScan(lines, k);
    FailureSticks(lines, k + 1);
  }

  /** A step that raises makes the scan up to and including its line raise. */
  lemma RaisingStepFailsScan(lines: seq<string>, k: nat)
    requires k < |lines|
    requires ScanLines(lines[..k]).Success? ==> StepLine(ScanLines(lines[..k]).value, lines[k]).Failure?
    ensures ScanLines(lines[..k + 1]).Failure?
  {
    assert lines[..k + 1][..k] == lines[..k];
  }

  /** `parse_conversation` after the model call: parse, then validate or raise. */
  method ParseConversation(reply: Result<string, string>) returns (r: Result<seq<Part>, string>)
    ensures reply.Failure? ==> r == Failure(reply.error)
    ensures reply.Success? && ScriptParts(reply.value).Failure? ==> r == ScriptParts(reply.value)
    ensures r.Success? ==> reply.Success? && ScriptParts(reply.value) == r && ValidConversation(r.value)
    ensures reply.Success? && ScriptParts(reply.value).Success? && !ValidConversation(ScriptParts(reply.value).value)
            ==> r == Failure("Invalid conversation format generated")
  {
    if reply.Failure? {
      return Failure(reply.error);
    }
    var parsed := ParseScript(reply.value);
    if parsed.Failure? {
      return parsed;
    }
    var ok := ValidateConversationParts(parsed.value);
    if ok {
      r := parsed;
    } else {
      r := Failure("Invalid conversation format generated");
    }
  }

  // ---------------------------------------------------------------------------
  // Voices, file names and the playlist

  /** `get_voice_for_gender`: `Miguel` for `male`, `Lupe` for anything else. */
  function VoiceForGender(gender: string): (v: string)
    ensures v == "Miguel" <==> gender == "male"
    ensures v == "Miguel" || v == "Lupe"
  {
    if gender == "male" then "Miguel" else "Lupe"
  }

  /** With the intended gender reading, a speaker declared female is voiced by Lupe. */
  lemma DeclaredFemaleGetsLupe()
    ensures VoiceForGender(Gender("female")) == "Lupe"
    ensures VoiceForGender(GenderAsWritten("female")) == "Miguel"
  {
    GenderReadsDeclaration();
    FemaleParsedAsMale();
  }

  /** `input_file.replace('.mp3', '_normalized.mp3')`. */
  function NormalizedName(file: string): string {
    ReplaceAll(file, ".mp3", "_normalized.mp3")
  }

  /** A temporary file whose only dot is that of its extension gets `_normalized` before it. */
  lemma NormalizedNameOfTempFile(stem: string)
    requires '.' !in stem
    ensures NormalizedName(stem + ".mp3") == stem + "_normalized.mp3"
  {
    forall i: nat | i < |stem| ensures !OccursAt(stem + ".mp3", ".mp3", i) {
      assert (stem + ".mp3")[i] == stem[i];
    }
    ReplaceAllSkipsPrefix(stem, ".mp3", ".mp3", "_normalized.mp3");
    assert StartsWith(".mp3", ".mp3");
    assert ".mp3"[4..] == "";
  }

  /**
   * Python's `os.path.join(dir, name)` on POSIX for a relative `name`:
   * a separator is inserted only when `dir` is non-empty and does not end in one.
   */
  function PathJoin(dir: string, name: string): string {
    if dir == [] || dir[|dir| - 1] == '/' then dir + name else dir + "/" + name
  }

  /** `generate_silence(ms)`'s file in the audio directory. */
  function SilenceFile(audioDir: string, ms: nat): string {
    PathJoin(audioDir, "silence_" + NatToString(ms) + "ms.mp3")
  }

  /** The two pauses are distinct files. */
  lemma PauseFilesDiffer(audioDir: string)
    ensures SilenceFile(audioDir, 2000) != SilenceFile(audioDir, 500)
  {
    NatToStringLength(500);
    assert |NatToString(2000)| == |NatToString(200)| + 1 == |NatToString(20)| + 2 == 4;
    assert |NatToString(500)| == |NatToString(50)| + 1 == 3;
    assert |SilenceFile(audioDir, 2000)| != |SilenceFile(audioDir, 500)|;
  }

  /** The pause after a part: 2000 ms after the announcer, 500 ms after anyone else. */
  function PauseAfter(speaker: string): nat {
    if Lower(speaker) == "announcer" then 2000 else 500
  }

  /** `generate_audio_part(text, voice)` for a part, with the voice its gender selects. */
  function PartAudio(p: Part, synth: (string, string) -> Option<string>): Option<string> {
    synth(p.text, VoiceForGender(p.gender))
  }

  /** `if not audio_file`: synthesis failed, or returned an empty name. */
  predicate Synthesized(audio: Option<string>) {
    audio.Some? && audio.value != ""
  }

  /** Every part before index `n` was synthesized. */
  predicate SynthesizedBefore(parts: seq<Part>, synth: (string, string) -> Option<string>, n: nat)
    requires n <= |parts|
  {
    forall i :: 0 <= i < n ==> Synthesized(PartAudio(parts[i], synth))
  }

  /**
   * The loop of `generate_audio`: each part's audio file followed by its pause.
   * `synth(text, voice)` is the temporary file speech synthesis wrote, `None` on failure.
   * The first part that fails stops the loop with an error naming its speaker.
   */
  method AudioPlaylist(parts: seq<Part>, synth: (string, string) -> Option<string>, audioDir: string)
    returns (r: Result<seq<string>, string>)
    ensures r.Success? <==> SynthesizedBefore(parts, synth, |parts|)
    ensures r.Success? ==> |r.value| == 2 * |parts|
    ensures r.Success? ==> forall i :: 0 <= i < |parts| ==>
      r.value[2 * i] == PartAudio(parts[i], synth).value
      && r.value[2 * i + 1] == SilenceFile(audioDir, PauseAfter(parts[i].speaker))
    ensures r.Failure? ==>
      exists i :: 0 <= i < |parts| && SynthesizedBefore(parts, synth, i) && !Synthesized(PartAudio(parts[i], synth))
                  && r.error == "Failed to generate audio for " + parts[i].speaker
  {
    var longPause := SilenceFile(audioDir, 2000);
    var shortPause := SilenceFile(audioDir, 500);
    var files: seq<string> := [];
    for i := 0 to |parts|
      invariant |files| == 2 * i
      invariant SynthesizedBefore(parts, synth, i)
      invariant forall j :: 0 <= j < i ==>
        files[2 * j] == PartAudio(parts[j], synth).value
        && files[2 * j + 1] == SilenceFile(audioDir, PauseAfter(parts[j].speaker))
    {
      var p := parts[i];
      var voice := VoiceForGender(p.gender);
      var audio := synth(p.text, voice);
      if audio.None? || audio.value == "" {
        assert !Synthesized(PartAudio(parts[i], synth));
        return Failure("Failed to generate audio for " + p.speaker);
      }
      var pause := if Lower(p.speaker) == "announcer" then longPause else shortPause;
      files := files + [audio.value, pause];
    }
    r := Success(files);
  }

  /** The announcer's part is always followed by the long pause, every other part by the short one. */
  lemma AnnouncerGetsLongPause(speaker: string)
    ensures Lower(speaker) == "announcer" <==> PauseAfter(speaker) == 2000
  {
  }
}
