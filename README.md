# Spanish-learning tools: a verified model of their deterministic core

This project models, in Dafny, the deterministic logic of a set of Spanish-learning tools:

- **Listening-comprehension backend.**
  - The quiz-question pipeline: topic translation, retrieval context, generation prompt, JSON extraction and answer feedback.
  - The audio-script parser, its validator and the sequence of audio and pause files.
  - The record assembly around the question vector store.
- **Writing-practice app.**
  - How the vision model's verdict on a handwritten translation is read.
  - The generated practice sentence and its fence stripping.
  - The constant sentence bank.
  - The page's session state machine.
- **Language portal API.**
  - Pagination arithmetic.
  - Per-word review counts under SQL's three-valued logic.
  - The 404 of the single-word endpoint.
  - The stub endpoints.
- **Vocabulary importer.**
  - The route's guards and its "at least five words per category" check.
  - The form's category parsing and the state a submission leaves behind.

Every call to a language model, an embedding service, speech synthesis, a database or a JSON parser is an input:

- a reply is an `Option<string>` or a `Result`;
- `json.loads` / `JSON.parse` is a parameter `string -> Option<Json>`;
- randomness is a parameter (`coin`, `pick`).

The model states what the code does with those inputs.

One module per source file: `QuestionGenerator`, `HandwritingEvaluation`, `WritingSession`, `SentenceBank`, `AudioScript`, `VectorStore`, `LangPortalApi`, `VocabularyRoute` and `VocabularyImporter`. They share:

- `Strings`: Python/JavaScript string operations, with their own lemmas;
- `JsonValues`: decoded values, truthiness, `dict.get`;
- `Wrappers`: `Option` and `Result`.

Where the code works step by step, so does the model:

- the writing-practice session is a class whose methods update its fields;
- the importer component is a class;
- the vector store's class-level flag and the database client are objects;
- the loops of `_build_context`, the line parser, `generate_audio`, `add_questions`, `search_similar_questions` and the embedding function are `while`/`for` loops proved against specification functions.

The model follows the code as written, including three defects listed under "Findings": the case-insensitive branch for the handwritten text (`gemini_utils.py:77-81`) cannot fire, the fallback translation is reported in lowercase (`gemini_utils.py:87-91`), and a speaker declared female is parsed as male (`audio_generator.py:141`). Each has a corrected twin with its intended property proved beside it.

## Model

| member | source | states |
|---|---|---|
| QuestionGenerator.TranslationPrompt | listening-comp/backend/question_generator.py:77 | the translation request quotes the topic |
| QuestionGenerator.CleanReply | listening-comp/backend/question_generator.py:81 | after `.strip().strip('"\'')` a non-empty result neither starts nor ends with a quote |
| QuestionGenerator.TranslateTopic | listening-comp/backend/question_generator.py:58-87 | a table topic maps to its fixed Spanish name; otherwise an empty or failed reply gives the topic back, and a reply gives its cleaned text |
| QuestionGenerator.CleanReplyIsSlice | listening-comp/backend/question_generator.py:81 | the cleaned reply is a contiguous piece of the reply |
| QuestionGenerator.TranslationIsPieceOfReply | listening-comp/backend/question_generator.py:76-83 | for a custom topic the translation returned is a piece of the model's reply |
| QuestionGenerator.TableTopicIgnoresModel | listening-comp/backend/question_generator.py:61-73 | a table topic's translation does not depend on the model's reply and differs from the topic |
| QuestionGenerator.CleanReplyIsReturnedVerbatim | listening-comp/backend/question_generator.py:79-83 | a reply with no blank or quote at either end is returned unchanged |
| QuestionGenerator.QuotesOnlyReplyGivesEmptyTopic | listening-comp/backend/question_generator.py:79-83 | a reply made only of quotes and blanks is truthy, so the empty string becomes the topic |
| QuestionGenerator.OptionLines | listening-comp/backend/question_generator.py:130-131 | one `OPTION` line per option |
| QuestionGenerator.OptionLinesAt | listening-comp/backend/question_generator.py:130-131 | option i is rendered as `OPTION i+1: …` (numbered from 1) |
| QuestionGenerator.MultipleChoiceBlockShape | listening-comp/backend/question_generator.py:128-140 | a multiple-choice block is `QUESTION:`, the numbered options, `CORRECT OPTION:`, an optional explanation and `---` |
| QuestionGenerator.PlainBlockShape | listening-comp/backend/question_generator.py:135-140 | any other block is `Q:`, an optional `A:` and `---` |
| QuestionGenerator.QuestionBlock | listening-comp/backend/question_generator.py:123-140 | the lines emitted for one retrieved question: the multiple-choice block when options and correct option are truthy, else the `Q:`/`A:`/`---` block; its shape is stated by the two lemmas above |
| QuestionGenerator.ContextBlockPosition | listening-comp/backend/question_generator.py:122-140 | item k's block sits between the blocks of the items before and after it |
| QuestionGenerator.ContextLines | listening-comp/backend/question_generator.py:119-142 | every retrieved question's block, in retrieval order; `BuildContext` is proved to join exactly these lines |
| QuestionGenerator.AppendQuestionBlock | listening-comp/backend/question_generator.py:123-140 | one loop pass appends exactly the item's block |
| QuestionGenerator.AppendOptionLines | listening-comp/backend/question_generator.py:130-131 | the inner loop appends exactly the numbered option lines |
| QuestionGenerator.BuildContext | listening-comp/backend/question_generator.py:119-142 | the context is the blocks of all items, in order, joined by newlines |
| QuestionGenerator.EmptyContext | listening-comp/backend/question_generator.py:142 | no retrieved question gives the empty context |
| QuestionGenerator.ContextContainsEveryQuestion | listening-comp/backend/question_generator.py:119-142 | every retrieved question's text occurs in the context |
| QuestionGenerator.BuildPrompt | listening-comp/backend/question_generator.py:144-170 | the prompt contains the topic and the context verbatim, at their places in the template |
| QuestionGenerator.JsonSlice | listening-comp/backend/question_generator.py:176-180 | a slice is taken exactly when both a `{` and a `}` occur |
| QuestionGenerator.JsonSliceBounds | listening-comp/backend/question_generator.py:176-180 | a non-empty slice starts at the first `{` and ends at the last `}` |
| QuestionGenerator.FirstBraceOpensBody | listening-comp/backend/question_generator.py:176 | `find("{")` lands on the body's opening brace when the prose before it has none |
| QuestionGenerator.LastBraceClosesBody | listening-comp/backend/question_generator.py:177 | `rfind("}")` lands on the body's closing brace when the prose after it has none |
| QuestionGenerator.SurroundingProseIgnored | listening-comp/backend/question_generator.py:176-188 | brace-free prose around a JSON object changes neither the slice nor the parse |
| QuestionGenerator.QuestionFromObject | listening-comp/backend/question_generator.py:183-188 | exactly the four keys; each is the decoded value when present and `""`, `[]`, `1` or `""` otherwise |
| QuestionGenerator.ParseResponse | listening-comp/backend/question_generator.py:172-196 | `None`, never an exception, when a brace is missing or decoding fails or gives no object; otherwise the question built from the decoded object |
| QuestionGenerator.EmptyObjectGivesDefaults | listening-comp/backend/question_generator.py:183-188 | `{}` gives the defaults `""`, `[]`, `1`, `""` |
| QuestionGenerator.CorrectAnswerNotBoundsChecked | listening-comp/backend/question_generator.py:186 | a CorrectAnswer of 7 with no options is passed through |
| QuestionGenerator.QuestionPrompt | listening-comp/backend/question_generator.py:93-108 | no prompt when retrieval is empty; otherwise the prompt names the translated topic |
| QuestionGenerator.PromptQuotesEveryRetrievedQuestion | listening-comp/backend/question_generator.py:106-108 | the generation prompt quotes every retrieved question |
| QuestionGenerator.GenerateSimilarQuestion | listening-comp/backend/question_generator.py:89-117 | `None` for empty retrieval or no reply, otherwise the parse of the reply |
| QuestionGenerator.ExpectedAnswer | listening-comp/backend/question_generator.py:204 | `CorrectAnswer` of the question, defaulting to 1 |
| QuestionGenerator.LocalCorrect | listening-comp/backend/question_generator.py:204-205 | the local verdict: the selected number equals the expected answer under Python `==` |
| QuestionGenerator.OptionsIterable | listening-comp/backend/question_generator.py:212 | the prompt can be built: `Options` (default `[]`) is a list, a string or a dict, the values `enumerate` accepts |
| QuestionGenerator.QuestionMissing | listening-comp/backend/question_generator.py:200 | `not question`: no question or an empty dict |
| QuestionGenerator.Consulted | listening-comp/backend/question_generator.py:200-243 | the model's reply is examined: a question is present, its prompt builds and the reply is non-empty |
| QuestionGenerator.DecodesToObject | listening-comp/backend/question_generator.py:250-257 | the text between the first `{` and the last `}` decodes to a JSON object |
| QuestionGenerator.GetFeedback | listening-comp/backend/question_generator.py:198-267 | "Question not available" for a missing question; raises exactly when `Options` is not iterable; otherwise the local verdict with "Unable to generate detailed feedback" for no reply, "Unable to parse feedback" without a brace pair, and "Error generating feedback" when the decode fails or is not an object; for a decoded object each of `correct`, `explanation` and `correct_answer` is the object's value when present and the local verdict, "No explanation provided" or `CorrectAnswer` otherwise |
| QuestionGenerator.ModelVerdictOverridesLocal | listening-comp/backend/question_generator.py:253-261 | a parsed `correct` field is the verdict returned |
| QuestionGenerator.DisagreementResolvedForModel | listening-comp/backend/question_generator.py:204-261 | when the local comparison says correct and the model says false, false is returned |
| QuestionGenerator.NoReplyFallsBackToLocal | listening-comp/backend/question_generator.py:242-244 | no reply gives the local verdict with the fixed explanation |
| QuestionGenerator.ParsedQuestionIsAvailable | listening-comp/backend/question_generator.py:200-212 | a question from `_parse_response` is never "not available"; feedback on it succeeds iff its Options is iterable |
| QuestionGenerator.NumericOptionsRaise | listening-comp/backend/question_generator.py:212 | a numeric Options makes building the feedback prompt raise |
| HandwritingEvaluation.FieldIsOneLineOfReply | writing-practice/utils/gemini_utils.py:76 | an extracted field is a piece of the reply with no newline |
| HandwritingEvaluation.Field | writing-practice/utils/gemini_utils.py:76 | the text after the first occurrence of a heading up to the end of its line, stripped; defined only when the heading occurs |
| HandwritingEvaluation.ExtractedText | writing-practice/utils/gemini_utils.py:74-81 | as written: the field after `1. Handwritten Spanish Text:`, else the (dead) search of the mixed-case pattern in the lowercased reply, else none |
| HandwritingEvaluation.CorrectTranslation | writing-practice/utils/gemini_utils.py:84-91 | as written: the field after `4. Correct Translation:`, else the field after `correct translation:` in the lowercased reply, else none |
| HandwritingEvaluation.CaseInsensitiveTextBranchIsDead | writing-practice/utils/gemini_utils.py:74-81 | as written, text is extracted iff the exact numbered heading occurs |
| HandwritingEvaluation.FallbackTranslationIsLowercase | writing-practice/utils/gemini_utils.py:87-91 | as written, a translation found by the fallback heading has no uppercase letter |
| HandwritingEvaluation.CaseInsensitiveField | writing-practice/utils/gemini_utils.py:77-91 | the intended case-insensitive search finds a field iff the lowercased reply holds the heading |
| HandwritingEvaluation.CaseInsensitiveFieldIsOneLineOfReply | writing-practice/utils/gemini_utils.py:87-91 | the intended field is a piece of the reply itself, in its own case, on one line |
| HandwritingEvaluation.ExtractedTextIntended | writing-practice/utils/gemini_utils.py:74-81 | text is extracted iff the numbered heading or, in any case, the bare heading occurs |
| HandwritingEvaluation.CorrectTranslationIntended | writing-practice/utils/gemini_utils.py:84-91 | a translation is extracted iff the numbered heading or, in any case, the bare heading occurs |
| HandwritingEvaluation.LowercaseHeadingIsMissedAsWritten | writing-practice/utils/gemini_utils.py:77-81 | a reply with only the bare heading gets no text as written and gets one as intended |
| HandwritingEvaluation.IntendedFallbackKeepsCase | writing-practice/utils/gemini_utils.py:87-91 | the intended fallback translation is a piece of the reply |
| HandwritingEvaluation.Evaluate | writing-practice/utils/gemini_utils.py:41-114 | with both extractions as written: the error record exactly when the call raised (not correct, no fields); otherwise feedback is the reply, the verdict is the marker or the phrase fallback, and both fields are non-empty |
| HandwritingEvaluation.EvaluateIntended | writing-practice/utils/gemini_utils.py:74-101 | the corrected record: the same error record and verdict as `Evaluate`, with the corrected extractions, both fields non-empty |
| HandwritingEvaluation.Report | writing-practice/utils/gemini_utils.py:96-102 | the success record: each extraction or its placeholder when absent or empty, the verdict, the reply as feedback, no error |
| HandwritingEvaluation.ErrorRecord | writing-practice/utils/gemini_utils.py:106-114 | the error record: no extractions, not correct, `Error analyzing the image: ` plus the message, and the message as error |
| HandwritingEvaluation.VerdictMarkerIsDecisive | writing-practice/utils/gemini_utils.py:53-67 | `VERDICT: CORRECT` always makes the result correct, and the fallback never undoes it |
| HandwritingEvaluation.LowercaseVerdictIsNotAVerdict | writing-practice/utils/gemini_utils.py:53 | the marker search is case-sensitive |
| HandwritingEvaluation.IncorrectVerdictBlocksFallback | writing-practice/utils/gemini_utils.py:57-67 | `VERDICT: INCORRECT` without the positive marker gives not correct, whatever phrases occur |
| HandwritingEvaluation.PhrasesAloneMakeItCorrect | writing-practice/utils/gemini_utils.py:57-67 | the three phrases and no `VERDICT: INCORRECT` make the result correct |
| HandwritingEvaluation.PhrasesMakeAlternative | writing-practice/utils/gemini_utils.py:57-60 | the three phrases survive lowercasing, so the alternative indicator holds |
| HandwritingEvaluation.AlternativeCorrect | writing-practice/utils/gemini_utils.py:57-60 | the fallback heuristic: the three phrases occur in the lowercased reply and `VERDICT: INCORRECT` does not occur in it |
| HandwritingEvaluation.IsCorrect | writing-practice/utils/gemini_utils.py:53-67 | the reported verdict: the exact `VERDICT: CORRECT` marker or the fallback heuristic |
| HandwritingEvaluation.ExtractedTextComesFromTheReply | writing-practice/utils/gemini_utils.py:74-98 | with the numbered heading, the extracted text is one line of the reply |
| HandwritingEvaluation.MissingHeadingGivesPlaceholder | writing-practice/utils/gemini_utils.py:74-98 | as written, the placeholder whenever the numbered heading is missing or its line is empty, whatever other form of the heading occurs |
| HandwritingEvaluation.MissingTranslationGivesPlaceholder | writing-practice/utils/gemini_utils.py:101 | no translation heading gives the fixed Spanish placeholder |
| HandwritingEvaluation.FallbackTranslationKeepsCase | writing-practice/utils/gemini_utils.py:87-91 | corrected half of a finding: in the corrected record a translation found by the lowercase heading is one line of the reply in its own case |
| HandwritingEvaluation.FallbackTranslationReportedLowercase | writing-practice/utils/gemini_utils.py:87-101 | as written, a translation found only by the lowercase heading is reported in the record with no uppercase letter |
| HandwritingEvaluation.BareHeadingReadWhenIntended | writing-practice/utils/gemini_utils.py:74-98 | a heading without its number gives the placeholder as written, and a line of the reply in the corrected record |
| HandwritingEvaluation.StripFences | writing-practice/utils/gemini_utils.py:152 | fence removal never lengthens the text |
| HandwritingEvaluation.Unfenced | writing-practice/utils/gemini_utils.py:152 | the regular-expression substitution never lengthens the text |
| HandwritingEvaluation.FencesRemoved | writing-practice/utils/gemini_utils.py:152 | "```json" + body + "```" loses both fences and nothing else |
| HandwritingEvaluation.FencedReplyIsUnwrapped | writing-practice/utils/gemini_utils.py:145-152 | a fenced, trimmed body reaches the decoder unchanged |
| HandwritingEvaluation.GenerateSentence | writing-practice/utils/gemini_utils.py:143-164 | a result is returned only if it is the decoded reply and has both keys |
| HandwritingEvaluation.SentenceObjectAcceptedIffBothKeys | writing-practice/utils/gemini_utils.py:157-160 | a decoded object is returned iff it has both `english` and `spanish` |
| HandwritingEvaluation.HasSentenceKeys | writing-practice/utils/gemini_utils.py:157 | `'english' in result and 'spanish' in result` holds without raising |
| HandwritingEvaluation.ScalarResultIsRejected | writing-practice/utils/gemini_utils.py:157-164 | a decoded number makes the key check raise, which yields `None` |
| SentenceBank.LookupFindsEntry | writing-practice/data/sentences.py:50-54 | a lookup gives the named group's list, and `[]` for an unknown name |
| SentenceBank.SentencesFromGroup | writing-practice/data/sentences.py:50-54 | `get_sentences_from_group`: the named group's list, or `[]`; both directions stated by `SentencesFromGroupSpec` |
| SentenceBank.GroupNames | writing-practice/data/sentences.py:46-48 | the five group names in definition order |
| SentenceBank.GroupsAreWellFormed | writing-practice/data/sentences.py:4-44 | group names are distinct and every group holds five sentences |
| SentenceBank.SentencesFromGroupSpec | writing-practice/data/sentences.py:50-54 | a known group gives its five sentences and an unknown one gives `[]` |
| SentenceBank.NonEmptyIffKnownGroup | writing-practice/data/sentences.py:46-54 | the sentence list is non-empty iff the name is a group |
| WritingSession.NewSentence | writing-practice/main.py:130-170 | always both keys; the AI tag only when the model was asked; an untagged answer for a group is one of its bank sentences (also when the model was asked and failed), and for a custom topic the fallback pair |
| WritingSession.AsksModel | writing-practice/main.py:141-145 | the model is asked iff AI is on and the topic is custom or the 70% draw comes up |
| WritingSession.SentenceRecord | writing-practice/main.py:160-163 | a bank sentence as the dictionary with its `english` and `spanish` texts |
| WritingSession.FallbackRecord | writing-practice/main.py:165-170 | the generic `I am learning about …` / `Estoy aprendiendo sobre …` pair marked `fallback` |
| WritingSession.ModelSentenceIsTagged | writing-practice/main.py:145-154 | a model sentence decoded to a dictionary is used, tagged `generated_by_ai` |
| WritingSession.NoAiServesTheBank | writing-practice/main.py:159-163 | without AI a predefined group serves one of its own sentences, untagged |
| WritingSession.CustomTopicFallback | writing-practice/main.py:165-170 | a custom topic whose model call fails gets the "I am learning about …" pair, with `fallback` set and naming the topic |
| WritingSession.FeedbackFor | writing-practice/main.py:436-478 | the error box, carrying the error, iff the result has an error; the plain correct box iff correct; the by-context box iff not correct and the three phrases occur; "needs improvement" otherwise |
| WritingSession.PositiveIndicators | writing-practice/main.py:453-458 | the three phrases occur in the lowercased feedback |
| WritingSession.CorrectByContextOnlyWithExplicitIncorrect | writing-practice/main.py:452-469 | the by-context box appears only for a reply saying `VERDICT: INCORRECT`, and never changes the verdict |
| WritingSession.Session.constructor | writing-practice/main.py:109-122 | the initial state: nothing selected, zero counters |
| WritingSession.Session.Valid | writing-practice/main.py:113-116 | the score never exceeds the number of attempts; every method that touches the counters keeps it |
| WritingSession.Session.SetUseAi | writing-practice/main.py:241-245 | the AI switch takes the checkbox's value; nothing else changes |
| WritingSession.Session.ClearUploadKeys | writing-practice/main.py:219-221 | the loop deletes exactly the four upload keys and nothing else |
| WritingSession.Session.ResetCurrentSentence | writing-practice/main.py:173-199 | clears the question state and upload keys; draws a sentence and returns true iff a group is set |
| WritingSession.Session.ChangeGroup | writing-practice/main.py:202-221 | a no-op for the same group; otherwise sets the group and clears the sentence, feedback, image result and upload keys |
| WritingSession.Session.SubmitCustomTopic | writing-practice/main.py:301-315 | a non-empty topic becomes the group and gets a fresh sentence, with feedback, image result and upload keys cleared; an empty one changes no field; counters and the AI switch are kept |
| WritingSession.Session.SyncPredefinedSelection | writing-practice/main.py:320-325 | adopting a different selector group clears the sentence |
| WritingSession.Session.RecordEvaluation | writing-practice/main.py:412-491 | attempts +1, score +1 iff correct, so score ≤ attempts is kept; the feedback box is that of the result |
| WritingSession.Session.ResetStatistics | writing-practice/main.py:268-270 | both counters become 0 and nothing else changes |
| WritingSession.Session.Continue | writing-practice/main.py:498-516 | the group is kept; sentence, feedback, image result and upload keys are cleared; counters unchanged |
| AudioScript.ValidateConversationParts | listening-comp/backend/audio_generator.py:40-63 | true iff the list is non-empty, the first speaker lowercases to `announcer`, and every part has a speaker, a text and a gender `male`/`female` |
| AudioScript.ValidConversation | listening-comp/backend/audio_generator.py:40-63 | what validation accepts: a non-empty list whose first speaker is `announcer` in any case, every part with speaker, text and a gender `male` or `female` |
| AudioScript.GenderAsWritten | listening-comp/backend/audio_generator.py:141 | the gender test as written, always `male` or `female` (see Findings) |
| AudioScript.FemaleParsedAsMale | listening-comp/backend/audio_generator.py:140-141 | as written, a declared `female` is read as `male` |
| AudioScript.Gender | listening-comp/backend/audio_generator.py:141 | the intended test: `male` iff the declaration says male and not female |
| AudioScript.GenderReadsDeclaration | listening-comp/backend/audio_generator.py:141 | the intended test gives each declared gender back |
| AudioScript.SpeakerLine | listening-comp/backend/audio_generator.py:137-141 | raises iff the line has no `Gender:`; otherwise a speaker and the gender by the test as written, `male` or `female` |
| AudioScript.Declaration | listening-comp/backend/audio_generator.py:139-140 | the lowercased, stripped text between `Gender:` and `)`, or none when the line has no `Gender:` |
| AudioScript.TextLine | listening-comp/backend/audio_generator.py:143-144 | the stripped text after `Text:` |
| AudioScript.StepLine | listening-comp/backend/audio_generator.py:127-144 | one pass over a stripped line: a separator flushes a complete part, a `Speaker:` line sets speaker and gender or raises, a `Text:` line sets the text, any other line changes nothing; its cases are stated by the step lemmas below |
| AudioScript.ScanLines | listening-comp/backend/audio_generator.py:127-144 | the loop from the empty state over the lines in order; the first raise ends it (`FailureSticks`) |
| AudioScript.Flush | listening-comp/backend/audio_generator.py:146-148 | after the loop a complete pending part is appended |
| AudioScript.ScriptParts | listening-comp/backend/audio_generator.py:122-148 | the parts of a reply split on newlines, or the error raised; `ParseScript` is proved to compute it |
| AudioScript.FemaleDeclarationReadsMale | listening-comp/backend/audio_generator.py:141 | as written, any declaration mentioning `female` reads as `male` |
| AudioScript.FemaleSpeakerStepSetsMale | listening-comp/backend/audio_generator.py:137-141 | as written, the loop pass over a `Speaker:` line declared female sets the speaker and the gender `male` |
| AudioScript.FemaleSpeakerScriptGivesMalePart | listening-comp/backend/audio_generator.py:122-148 | as written, a speaker line declared female followed by its text parses to one part of gender `male` |
| AudioScript.FailureSticks | listening-comp/backend/audio_generator.py:127-163 | once a line raises, the later lines change nothing |
| AudioScript.ReadLine | listening-comp/backend/audio_generator.py:127-144 | one loop pass over the locals is one step of the line-by-line specification (with the gender test as written) |
| AudioScript.ParseScript | listening-comp/backend/audio_generator.py:122-148 | the loop's parts, or its raise, are those of the line-by-line specification as written, including the final flush |
| AudioScript.StepLineKeepsValid | listening-comp/backend/audio_generator.py:127-144 | every step keeps emitted parts valid |
| AudioScript.ScanLinesValid | listening-comp/backend/audio_generator.py:122-148 | the parts of any prefix of lines pass the per-part checks |
| AudioScript.ParsedScriptValidIffAnnouncerFirst | listening-comp/backend/audio_generator.py:122-159 | parsed parts always pass the per-part checks, so validation fails only for an empty script or one not opened by the announcer |
| AudioScript.SeparatorEmitsCompletePart | listening-comp/backend/audio_generator.py:129-135 | a blank or `---` line emits a complete pending part and resets the fields |
| AudioScript.IncompletePartCarriesOver | listening-comp/backend/audio_generator.py:129-135 | an incomplete part is carried over a separator |
| AudioScript.SpeakerLineStep | listening-comp/backend/audio_generator.py:137-141 | a `Speaker:` line sets speaker and gender, or raises |
| AudioScript.SpeakerLineRaises | listening-comp/backend/audio_generator.py:140 | an unreadable `Speaker:` line makes the step raise |
| AudioScript.OtherLineIgnored | listening-comp/backend/audio_generator.py:127-144 | any other line changes nothing |
| AudioScript.LaterTextOverwrites | listening-comp/backend/audio_generator.py:143-144 | a `Text:` line overwrites the pending text and keeps speaker and gender |
| AudioScript.SpeakerLineWithoutGender | listening-comp/backend/audio_generator.py:140 | a `Speaker:` line without `Gender:` raises |
| AudioScript.StepRaisesWithoutGender | listening-comp/backend/audio_generator.py:137-140 | the step reading such a line raises |
| AudioScript.SpeakerWithoutGenderRaises | listening-comp/backend/audio_generator.py:127-163 | a script with such a line fails to parse as a whole |
| AudioScript.ParseConversation | listening-comp/backend/audio_generator.py:109-163 | a model error or parse error is re-raised; success only for a valid parse of the code as written; a parse that fails validation gives "Invalid conversation format generated" |
| AudioScript.VoiceForGender | listening-comp/backend/audio_generator.py:165-170 | `Miguel` iff the gender is `male`, else `Lupe` |
| AudioScript.DeclaredFemaleGetsLupe | listening-comp/backend/audio_generator.py:165-170 | a declared female is voiced by Lupe under the intended reading and by Miguel as written |
| AudioScript.NormalizedNameOfTempFile | listening-comp/backend/audio_generator.py:199 | a temporary `stem.mp3` normalizes to `stem_normalized.mp3` |
| AudioScript.NormalizedName | listening-comp/backend/audio_generator.py:199 | every `.mp3` in the name replaced by `_normalized.mp3` |
| AudioScript.PathJoin | listening-comp/backend/audio_generator.py:340 | POSIX `os.path.join` with a relative name: a `/` is inserted only after a non-empty directory not ending in `/` |
| AudioScript.SilenceFile | listening-comp/backend/audio_generator.py:340 | `silence_<ms>ms.mp3` joined to the audio directory |
| AudioScript.PauseFilesDiffer | listening-comp/backend/audio_generator.py:302-303 | the long and short silence files are distinct |
| AudioScript.AudioPlaylist | listening-comp/backend/audio_generator.py:299-323 | success iff every part is synthesized; then exactly two entries per part, its audio then its pause; otherwise the error names the first failing speaker |
| AudioScript.AnnouncerGetsLongPause | listening-comp/backend/audio_generator.py:320-323 | the 2000 ms pause iff the speaker lowercases to `announcer` |
| AudioScript.PauseAfter | listening-comp/backend/audio_generator.py:320-323 | 2000 ms after a speaker whose lowercased name is `announcer`, 500 ms otherwise |
| VectorStore.ZeroVector | listening-comp/backend/vector_store.py:40 | 768 zeros |
| VectorStore.Prepared | listening-comp/backend/vector_store.py:26 | a blank text is replaced by "Empty text", any other is kept |
| VectorStore.PreparedIsNeverBlank | listening-comp/backend/vector_store.py:26 | no prepared text is blank |
| VectorStore.VectorOf | listening-comp/backend/vector_store.py:36-40 | the `embedding` entry, or the zero vector for an unexpected response |
| VectorStore.PreparedTexts | listening-comp/backend/vector_store.py:26 | one prepared text per input |
| VectorStore.PreparedTextsAt | listening-comp/backend/vector_store.py:26 | each request is the prepared text at the same position, never blank |
| VectorStore.Embed | listening-comp/backend/vector_store.py:19-47 | one vector per text; all zero vectors if any request raises, else each request's vector in order |
| VectorStore.ZeroVectors | listening-comp/backend/vector_store.py:47 | one zero vector per text |
| VectorStore.StoreClass.constructor | listening-comp/backend/vector_store.py:53 | the recreation flag starts false |
| VectorStore.OpenStep | listening-comp/backend/vector_store.py:70-109 | the flag is cleared only by a successful delete; it raises iff a forced open cannot delete an existing collection; an unforced open reuses or creates |
| VectorStore.OpenStore | listening-comp/backend/vector_store.py:70-109 | the constructor's updates to the flag and the client are those of the specification |
| VectorStore.ForcedOpenIsOneShot | listening-comp/backend/vector_store.py:73-97 | a successful forced open creates the collection; the flag is cleared exactly when an existing collection was deleted, and the next open then reuses |
| VectorStore.FlagSurvivesMissingCollection | listening-comp/backend/vector_store.py:73-88 | with nothing to delete the flag stays set, and a later forced open can fail |
| VectorStore.QuestionId | listening-comp/backend/vector_store.py:119 | an id starts with the source id and `_` |
| VectorStore.QuestionIdInjective | listening-comp/backend/vector_store.py:117-120 | distinct indexes give distinct ids |
| VectorStore.Document | listening-comp/backend/vector_store.py:130 | the `question` field, or `""` |
| VectorStore.DocumentsSliceable | listening-comp/backend/vector_store.py:130-132 | every question's document can be sliced for the progress line |
| VectorStore.QuestionBatch | listening-comp/backend/vector_store.py:113-131 | ids, documents and metadatas all have one entry per question |
| VectorStore.BatchIdsAreDistinct | listening-comp/backend/vector_store.py:117-120 | ids within one call are pairwise distinct and carry their index |
| VectorStore.BatchMetadataDescribesQuestion | listening-comp/backend/vector_store.py:122-131 | each metadata entry names the source, the index and the serialized question |
| VectorStore.AddQuestions | listening-comp/backend/vector_store.py:111-140 | the loop builds exactly the batch, and raises iff some document cannot be sliced |
| VectorStore.SearchRecord | listening-comp/backend/vector_store.py:153-157 | a record is the decoded question with `similarity_score` = `distances[idx]` |
| VectorStore.SearchSimilar | listening-comp/backend/vector_store.py:143-159 | one record per returned metadata, in order, or the first record's error |
| VectorStore.SearchReturnsStoredQuestions | listening-comp/backend/vector_store.py:123-157 | searching a stored batch gives back each stored question with only its score added |
| VectorStore.MissingDistanceRaises | listening-comp/backend/vector_store.py:155 | a missing distance makes the search raise |
| VectorStore.Basename | listening-comp/backend/vector_store.py:191 | the base name has no `/` |
| VectorStore.DropExtension | listening-comp/backend/vector_store.py:191 | the name without its extension is a prefix of the name |
| VectorStore.SourceId | listening-comp/backend/vector_store.py:191 | the source id has no `/` |
| VectorStore.SourceIdOfQuestionsFile | listening-comp/backend/vector_store.py:190-191 | `dir/name.ext` is indexed under `name` |
| VectorStore.HiddenFileHasNoExtension | listening-comp/backend/vector_store.py:191 | a leading-dot name keeps its whole text |
| VectorStore.ParseQuestionsFile | listening-comp/backend/vector_store.py:176-186 | a read or parse error gives `[]`; a value with a length is returned |
| VectorStore.IndexQuestionsFile | listening-comp/backend/vector_store.py:188-202 | nothing is added for a falsy parse; a truthy list of question objects with sliceable documents is added as their batch under the file's source id; it raises exactly for any other truthy value |
| VectorStore.QuestionObjects | listening-comp/backend/vector_store.py:117-130 | the items as question dictionaries exactly when every item is an object (`.get` raises on anything else), in order |
| VectorStore.NothingToIndex | listening-comp/backend/vector_store.py:195-202 | an error, an empty list or a number indexes nothing |
| LangPortalApi.FloorDiv | lang-portal/backend/app/routers/api.py:305 | Python's `//` rounds toward negative infinity |
| LangPortalApi.Offset | lang-portal/backend/app/routers/api.py:266 | page 1 starts at 0, and each page starts one page size after the previous one |
| LangPortalApi.TotalPages | lang-portal/backend/app/routers/api.py:305 | raises iff `items_per_page` is 0 |
| LangPortalApi.TotalPagesIsCeiling | lang-portal/backend/app/routers/api.py:305 | for a positive page size: the ceiling of items over page size, and 0 iff there are no items |
| LangPortalApi.EveryItemIsOnOnePage | lang-portal/backend/app/routers/api.py:264-305 | every item lies on a valid page, between that page's offset and the next |
| LangPortalApi.CountWhen | lang-portal/backend/app/routers/api.py:274 | a count never exceeds the joined rows |
| LangPortalApi.SqlNot | lang-portal/backend/app/routers/api.py:275 | `NOT NULL` is NULL, otherwise negation |
| LangPortalApi.JoinedColumn | lang-portal/backend/app/routers/api.py:276-277 | an unreviewed word yields one NULL row from the left join |
| LangPortalApi.Negated | lang-portal/backend/app/routers/api.py:275 | the negated condition of every row |
| LangPortalApi.CountWhenIsMultiplicity | lang-portal/backend/app/routers/api.py:274 | counting TRUE conditions counts the TRUE rows |
| LangPortalApi.CountNegated | lang-portal/backend/app/routers/api.py:275 | counting `NOT c` counts the FALSE rows |
| LangPortalApi.ReviewCounts | lang-portal/backend/app/routers/api.py:274-277 | correct_count counts TRUE and wrong_count FALSE reviews; NULL counts in neither |
| LangPortalApi.CorrectCount | lang-portal/backend/app/routers/api.py:274-277 | `correct_count` over the LEFT JOIN: the rows whose `correct` is TRUE |
| LangPortalApi.WrongCount | lang-portal/backend/app/routers/api.py:275-277 | `wrong_count` over the LEFT JOIN: the rows whose `NOT correct` is TRUE |
| LangPortalApi.UnreviewedWordHasZeroCounts | lang-portal/backend/app/routers/api.py:274-296 | an unreviewed word reports 0 and 0 |
| LangPortalApi.OrZero | lang-portal/backend/app/routers/api.py:295-296 | a NULL aggregate becomes 0 |
| LangPortalApi.WordOf | lang-portal/backend/app/routers/api.py:290-298 | a word carries its row's fields and the counts or 0 |
| LangPortalApi.WordsPage | lang-portal/backend/app/routers/api.py:290-313 | one word per row; the requested page and size echoed with the computed totals; raises iff the size is 0 |
| LangPortalApi.ListWords | lang-portal/backend/app/routers/api.py:263-319 | the list answer paginated over the whole word count |
| LangPortalApi.GetWordsByGroup | lang-portal/backend/app/routers/api.py:371-423 | the list answer paginated over the group's membership count |
| LangPortalApi.GetWord | lang-portal/backend/app/routers/api.py:322-348 | 404 "Word not found" iff no row matches, otherwise the row's word |
| LangPortalApi.StubPagination | lang-portal/backend/app/routers/api.py:207-212 | stub lists report 10 pages and 100 items and echo the request |
| LangPortalApi.StubTotalsIgnoreRequest | lang-portal/backend/app/routers/api.py:239-244 | any two requests get the same stub totals |
| LangPortalApi.CreateStudyActivity | lang-portal/backend/app/routers/api.py:248-259 | echoes group and activity ids; session 789 and its launch URL |
| LangPortalApi.LaunchUrlNamesSession | lang-portal/backend/app/routers/api.py:250-252 | the launch URL names the session id reported |
| VocabularyRoute.CategoriesField | language-importer/app/api/generate/route.ts:10 | `categories` is defined iff the body is an object holding it |
| VocabularyRoute.Guard | language-importer/app/api/generate/route.ts:4-14 | 500 without a key; 400 exactly for a missing, falsy or zero-length list; the model is asked iff the list is a non-empty array |
| VocabularyRoute.Prompt | language-importer/app/api/generate/route.ts:16-26 | the prompt opens with the category list and ends with the fixed instructions |
| VocabularyRoute.PromptListsCategories | language-importer/app/api/generate/route.ts:16 | the prompt lists the categories joined by ", " in request order and names each |
| VocabularyRoute.LengthOf | language-importer/app/api/generate/route.ts:41 | `.length` raises only on `null`, and is the item count of an array |
| VocabularyRoute.Post | language-importer/app/api/generate/route.ts:4-55 | guard answers pass through; a model error gives 500 with its message; 200 iff the answer parses and passes the length loop, and then the parsed value is returned unchanged; otherwise 500 "Failed to generate valid vocabulary response" |
| VocabularyRoute.ShortCategoryRejected | language-importer/app/api/generate/route.ts:40-49 | one category with fewer than 5 words makes the answer a 500 |
| VocabularyRoute.FullVocabularyReturnedUnchanged | language-importer/app/api/generate/route.ts:37-46 | an object whose categories all have ≥ 5 words is returned as is |
| VocabularyRoute.NumericCategoryPasses | language-importer/app/api/generate/route.ts:40-44 | a numeric category has no length and passes the check |
| VocabularyRoute.MissingOrEmptyCategoriesIs400 | language-importer/app/api/generate/route.ts:12-14 | a missing or empty `categories` gets 400 "At least one category is required" |
| VocabularyRoute.NoCategoriesGiven | language-importer/app/api/generate/route.ts:12 | `!categories || categories.length === 0`: absent, falsy or of length zero |
| VocabularyRoute.BelowFive | language-importer/app/api/generate/route.ts:41 | JavaScript `length < 5`: `null` and booleans compare as 0 and 1, numbers directly, `undefined` and `NaN` never |
| VocabularyRoute.EveryCategoryLongEnough | language-importer/app/api/generate/route.ts:40-44 | the `for … in` loop passes: every value it visits (an object's values, an array's items, a string's one-character pieces) has a length that reads without throwing and is not below 5 |
| VocabularyImporter.TrimmedNonEmpty | language-importer/components/language-importer.tsx:29-30 | empty iff every piece is blank; every entry is trimmed and non-empty |
| VocabularyImporter.ParseCategories | language-importer/components/language-importer.tsx:27-30 | no category iff every comma piece is blank; every category is trimmed and non-empty |
| VocabularyImporter.ParsedCategoriesLackCommas | language-importer/components/language-importer.tsx:27-30 | no parsed category holds a comma |
| VocabularyImporter.ParseJoinedCategories | language-importer/components/language-importer.tsx:27-30 | typing clean categories separated by ", " gives them back in order |
| VocabularyImporter.BlankInputGivesNoCategory | language-importer/components/language-importer.tsx:27-34 | commas with blanks between them give no category |
| VocabularyImporter.RequestBody | language-importer/components/language-importer.tsx:41 | the route reads back exactly the parsed list |
| VocabularyImporter.ServerMessage | language-importer/components/language-importer.tsx:47 | the server's non-empty `error` string, or the default message |
| VocabularyImporter.Submission | language-importer/components/language-importer.tsx:20-61 | no request iff the list is empty (then the empty-input error); the body is the parsed list; a result only for an ok answer, otherwise an error and an empty result |
| VocabularyImporter.SubmitCategories | language-importer/components/language-importer.tsx:26-58 | the same outcome, stated for a parsed list |
| VocabularyImporter.RouteErrorsReachTheUser | language-importer/components/language-importer.tsx:44-48 | every error answer of the route reaches the user with the route's own message |
| VocabularyImporter.FormRequestReachesModel | language-importer/components/language-importer.tsx:36-42 | the form's request passes the route's guard, and the prompt lists the parsed categories in order |
| VocabularyImporter.Importer.constructor | language-importer/components/language-importer.tsx:15-18 | everything empty, nothing loading |
| VocabularyImporter.Importer.SetCategories | language-importer/components/language-importer.tsx:90 | the input field's text is stored and nothing else changes |
| VocabularyImporter.Importer.OnSubmit | language-importer/components/language-importer.tsx:20-62 | result, toast and request are those of `Submission`; not loading and not copied afterwards |

## Left out

- Model calls (`_invoke_gemini`, `generate_content`, `generateText`), the embedding service, Polly speech synthesis, ffmpeg, temporary files, ChromaDB and SQL execution are foreign calls or I/O. Their results are inputs.
- Similarity ranking is not modelled; neither are file deletion and the combination of audio files.
- `json.loads`, `json.dumps`, `JSON.parse` and `JSON.stringify` are library code and are parameters.
- Case mapping is ASCII only; Python's `lower` also maps non-ASCII letters.
- Whitespace: `strip`/`trim` remove space, tab, newline, carriage return, vertical tab and form feed. Python's `strip()` also removes `\x1c`-`\x1f` and Unicode spaces, and JavaScript's `trim()` removes Unicode spaces; both are left out.
- Floating point: JSON floats are opaque reals, rendered by a parameter `showReal`.
- The accuracy percentage and the rendered HTML of the writing page are UI code.
- JavaScript strings: a string's length is its number of characters, not UTF-16 code units.
- `VocabularyRoute.BelowFive`: JavaScript's `ToNumber` on strings, arrays and objects is a parameter.
- Error texts: the wording of runtime errors (TypeError, IndexError) is modelled only where the user sees it; elsewhere it is a fixed text.
- `VocabularyImporter.Importer.OnSubmit`: `isLoading` is true during the request. That intermediate state is not observable in a sequential model; only the final state is stated.
- `copyToClipboard` and the 2-second timer resetting `isCopied` are UI code.
- `QuestionGenerator.GetFeedback`: the feedback prompt's text is not built; only its failure on a non-iterable `Options` is modelled. The reply is an input independent of that prompt.
- `QuestionGenerator.GenerateSimilarQuestion`: retrieval is an input (the questions found), not a search.
- `QuestionGenerator.RetrievedQuestion`: a retrieved question's `question` and `answer` are strings and its `options` a list of strings. The stored metadata can hold any JSON value: a string `options` would be listed character by character (`question_generator.py:123-131`), and a `question` that cannot be sliced makes the progress line at `question_generator.py:103` raise. Those shapes are not modelled.
- `WritingSession.NewSentence`: states only that a predefined sentence comes from the chosen group, not which one. The choice is `random.choice`, modelled by a parameter.
- `LangPortalApi.Offset`: a page below 1 gives a negative offset; what the database does with it is not modelled.
- `get_question_by_id`, `clear_collection`, the chat and structured-data clients, the Streamlit pages other than the writing page, `image_utils.py`, the lang-portal models, database setup and seeding, and every React page are outside this model.
- The `st.rerun()` calls are not modelled: each button's handler is a separate method.
- The keys `debug_mode` and `setup_complete` of the writing page's session are not modelled.

## Findings

| source | as written | input that shows it | evidently intended | confidence | as-written member | corrected member |
|---|---|---|---|---|---|---|
| writing-practice/utils/gemini_utils.py:77-81 | the fallback searches the pattern `handwritten Spanish text:` (uppercase `S`) in the lowercased reply, so the branch can never be taken | a reply containing `Handwritten Spanish Text: hola` without the `1. ` prefix gets no extracted text | search a lowercase pattern, so any casing of the heading is found | high (proved; not executed) | HandwritingEvaluation.CaseInsensitiveTextBranchIsDead | HandwritingEvaluation.ExtractedTextIntended |
| writing-practice/utils/gemini_utils.py:87-91 | the fallback translation is cut from the lowercased reply, so it is reported in lowercase | a reply `Correct translation: Me llamo John.` gives `me llamo john.` | find the heading case-insensitively but report the reply's own text | high (proved; not executed) | HandwritingEvaluation.FallbackTranslationIsLowercase | HandwritingEvaluation.CorrectTranslationIntended |
| listening-comp/backend/audio_generator.py:141 | `'male' in gender_part` is also true for `female`, so every gender text containing `male`, `female` included, is read as `male` | `Speaker: Student (Gender: female)` gives gender `male` and the voice Miguel | test for `female` first (or compare for equality) | high (proved; not executed) | AudioScript.FemaleParsedAsMale | AudioScript.Gender |

The evaluation (`HandwritingEvaluation.Evaluate`) and the line parser (`AudioScript.SpeakerLine`, and through it `ParseScript` and `ParseConversation`) follow the code as written. The corrected twins are `HandwritingEvaluation.EvaluateIntended`, built on `ExtractedTextIntended` and `CorrectTranslationIntended`, and `AudioScript.Gender`, with `DeclaredFemaleGetsLupe` stating the voice each reading gives.
