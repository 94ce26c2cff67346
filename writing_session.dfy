/**
 * The session state of the writing-practice page: which group is selected, the
 * sentence on screen, the last evaluation and its feedback, the score counters and
 * the upload widgets' keys, and the transitions the page's buttons and callbacks make.
 *
 * Randomness is a parameter: `coin` is `random.random() > 0.3` and `pick` chooses the
 * predefined sentence (`random.choice`, taken modulo the list's length). The sentence
 * model's reply is a parameter handed to `GenerateSentence`.
 */
module WritingSession {
  import opened Wrappers
  import opened Strings
  import opened JsonValues
  import opened SentenceBank
  import opened HandwritingEvaluation

  // ---------------------------------------------------------------------------
  // get_new_sentence

  /** A predefined sentence as the dictionary the page keeps. */
  function SentenceRecord(s: Sentence): map<string, Json> {
    map["english" := JStr(s.english), "spanish" := JStr(s.spanish)]
  }

  /** The generic pair used for a custom topic when no model sentence is available. */
  function FallbackRecord(topic: string): map<string, Json> {
    map[
      "english" := JStr("I am learning about " + topic + "."),
      "spanish" := JStr("Estoy aprendiendo sobre " + topic + "."),
      "fallback" := JBool(true)]
  }

  /** Whether `get_new_sentence` asks the model at all. */
  predicate AsksModel(group: string, useAi: bool, coin: bool) {
    useAi && (group !in GroupNames() || coin)
  }

  /**
   * `get_new_sentence`. `reply` and `decode` are handed to `generate_sentence_with_gemini`
   * when the model is asked. Tagging a decoded value that is not a dictionary raises,
   * and the exception sends the call to the fallbacks.
   */
  function NewSentence(group: string, useAi: bool, coin: bool, reply: Option<string>,
                       decode: string -> Option<Json>, pick: nat): (r: map<string, Json>)
    ensures "english" in r && "spanish" in r
    ensures "generated_by_ai" in r ==> AsksModel(group, useAi, coin)
    ensures group in GroupNames() && "generated_by_ai" !in r ==>
      exists s :: s in SentencesFromGroup(group) && r == SentenceRecord(s)
    ensures !AsksModel(group, useAi, coin) ==> "generated_by_ai" !in r
    ensures group !in GroupNames() && "generated_by_ai" !in r ==> r == FallbackRecord(group)
  {
    NonEmptyIffKnownGroup(group);
    var generated := if AsksModel(group, useAi, coin) then GenerateSentence(reply, decode) else None;
    if generated.Some? && generated.value.JObj? then
      generated.value.fields["generated_by_ai" := JBool(true)]
    else if group in GroupNames() then
      var sentences := SentencesFromGroup(group);
      var s := sentences[pick % |sentences|];
      assert s in sentences;
      SentenceRecord(s)
    else
      FallbackRecord(group)
  }

  /** A model sentence that decodes to a dictionary with both keys is used, tagged. */
  lemma ModelSentenceIsTagged(group: string, coin: bool, reply: Option<string>,
                              decode: string -> Option<Json>, pick: nat, fields: map<string, Json>)
    requires AsksModel(group, true, coin)
    requires GenerateSentence(reply, decode) == Some(JObj(fields))
    ensures NewSentence(group, true, coin, reply, decode, pick) == fields["generated_by_ai" := JBool(true)]
  {
  }

  /** With the model switched off a predefined group always serves one of its own sentences. */
  lemma NoAiServesTheBank(group: string, coin: bool, reply: Option<string>,
                          decode: string -> Option<Json>, pick: nat)
    requires group in GroupNames()
    ensures var r := NewSentence(group, false, coin, reply, decode, pick);
      "generated_by_ai" !in r && "fallback" !in r
      && exists s :: s in SentencesFromGroup(group) && r == SentenceRecord(s)
  {
  }

  /** A custom topic whose model call fails gets the generic pair naming the topic. */
  lemma CustomTopicFallback(topic: string, decode: string -> Option<Json>, pick: nat)
    requires topic !in GroupNames()
    ensures var r := NewSentence(topic, true, false, None, decode, pick);
      r == FallbackRecord(topic) && r["fallback"] == JBool(true)
      && Contains(r["english"].s, topic) && Contains(r["spanish"].s, topic)
  {
    ContainsInfix("I am learning about ", topic, ".");
    ContainsInfix("Estoy aprendiendo sobre ", topic, ".");
  }

  // ---------------------------------------------------------------------------
  // Feedback of an evaluation

  /** Which feedback box the evaluation renders; `byContext` marks the secondary check's box. */
  datatype FeedbackKind =
    | AnalysisError(message: string)
    | Correct(byContext: bool)
    | NeedsImprovement

  /** The three positive phrases of the secondary check, in the lowercased feedback. */
  predicate PositiveIndicators(feedback: string) {
    var low := Lower(feedback);
    Contains(low, "grammatically correct") && Contains(low, "perfectly") && Contains(low, "no errors")
  }

  /** The feedback box chosen for an evaluation result (lines 437-478). */
  function FeedbackFor(result: Evaluation): (k: FeedbackKind)
    ensures k.AnalysisError? <==> result.error.Some?
    ensures k == Correct(false) <==> result.error.None? && result.isCorrect
    ensures k == Correct(true) <==>
      result.error.None? && !result.isCorrect && PositiveIndicators(result.feedback)
    ensures k == NeedsImprovement <==>
      result.error.None? && !result.isCorrect && !PositiveIndicators(result.feedback)
    ensures result.error.Some? ==> k == AnalysisError(result.error.value)
  {
    if result.error.Some? then AnalysisError(result.error.value)
    else if result.isCorrect then Correct(false)
    else if PositiveIndicators(result.feedback) then Correct(true)
    else NeedsImprovement
  }

  /**
   * The "correct by context" box appears only for a reply that says `VERDICT: INCORRECT`:
   * otherwise the evaluation's own fallback would already have marked it correct.
   */
  lemma CorrectByContextOnlyWithExplicitIncorrect(text: string)
    requires FeedbackFor(Evaluate(Success(text))) == Correct(true)
    ensures Contains(text, IncorrectVerdict)
    ensures !Evaluate(Success(text)).isCorrect
  {
  }

  // ---------------------------------------------------------------------------
  // The session

  /** The upload widgets' keys that the page clears between sentences. */
  const UploadKeys: seq<string> := ["uploaded_file", "webcam_image", "file_uploader", "webcam_input"]

  /** `st.session_state` as far as the page's transitions touch it. */
  class Session {
    var currentGroup: Option<string>
    var currentSentence: Option<map<string, Json>>
    var feedback: Option<FeedbackKind>
    var imageResult: Option<Evaluation>
    var score: nat
    var totalAttempts: nat
    /** The upload keys currently present in the session. */
    var widgetKeys: set<string>
    var useAi: bool

    /** Never more correct answers than attempts. */
    predicate Valid()
      reads this
    {
      score <= totalAttempts
    }

    /** `if st.session_state.current_group:` */
    predicate GroupSelected()
      reads this
    {
      currentGroup.Some? && currentGroup.value != ""
    }

    /** The initial state the page sets up for a new visitor. */
    constructor ()
      ensures currentGroup.None? && currentSentence.None? && feedback.None? && imageResult.None?
      ensures score == 0 && totalAttempts == 0 && widgetKeys == {} && useAi
      ensures Valid()
    {
      currentGroup := None;
      currentSentence := None;
      feedback := None;
      imageResult := None;
      score := 0;
      totalAttempts := 0;
      widgetKeys := {};
      useAi := true;
    }

    /** The sidebar checkbox "Generate sentences with AI", written back on every run. */
    method SetUseAi(checked: bool)
      modifies this
      ensures useAi == checked
      ensures currentGroup == old(currentGroup) && currentSentence == old(currentSentence)
      ensures feedback == old(feedback) && imageResult == old(imageResult)
      ensures widgetKeys == old(widgetKeys)
      ensures score == old(score) && totalAttempts == old(totalAttempts)
    {
      useAi := checked;
    }

    /** Remove every upload key, one at a time. */
    method ClearUploadKeys()
      modifies this
      ensures widgetKeys == old(widgetKeys) - set k | k in UploadKeys
      ensures currentGroup == old(currentGroup) && currentSentence == old(currentSentence)
      ensures feedback == old(feedback) && imageResult == old(imageResult)
      ensures score == old(score) && totalAttempts == old(totalAttempts) && useAi == old(useAi)
    {
      for i := 0 to |UploadKeys|
        invariant widgetKeys == old(widgetKeys) - set k | k in UploadKeys[..i]
        invariant currentGroup == old(currentGroup) && currentSentence == old(currentSentence)
        invariant feedback == old(feedback) && imageResult == old(imageResult)
        invariant score == old(score) && totalAttempts == old(totalAttempts) && useAi == old(useAi)
      {
        assert UploadKeys[..i + 1] == UploadKeys[..i] + [UploadKeys[i]];
        if UploadKeys[i] in widgetKeys {
          widgetKeys := widgetKeys - {UploadKeys[i]};
        }
      }
      assert UploadKeys[..|UploadKeys|] == UploadKeys;
    }

    /** `reset_current_sentence`: clear the question state and draw a sentence if a group is set. */
    method ResetCurrentSentence(coin: bool, reply: Option<string>, decode: string -> Option<Json>,
                                pick: nat) returns (drawn: bool)
      modifies this
      ensures drawn <==> old(GroupSelected())
      ensures drawn ==>
        (currentGroup.Some?
         && currentSentence == Some(NewSentence(currentGroup.value, useAi, coin, reply, decode, pick)))
      ensures !drawn ==> currentSentence.None?
      ensures feedback.None? && imageResult.None?
      ensures widgetKeys == old(widgetKeys) - set k | k in UploadKeys
      ensures currentGroup == old(currentGroup) && useAi == old(useAi)
      ensures score == old(score) && totalAttempts == old(totalAttempts)
    {
      currentSentence := None;
      feedback := None;
      imageResult := None;
      ClearUploadKeys();
      if GroupSelected() {
        currentSentence := Some(NewSentence(currentGroup.value, useAi, coin, reply, decode, pick));
        drawn := true;
      } else {
        drawn := false;
      }
    }

    /** `change_group`, the group selector's callback. */
    method ChangeGroup(selector: string)
      modifies this
      ensures old(currentGroup) == Some(selector) ==>
        currentGroup == old(currentGroup) && currentSentence == old(currentSentence)
        && feedback == old(feedback) && imageResult == old(imageResult) && widgetKeys == old(widgetKeys)
      ensures old(currentGroup) != Some(selector) ==>
        currentGroup == Some(selector) && currentSentence.None? && feedback.None? && imageResult.None?
        && widgetKeys == old(widgetKeys) - set k | k in UploadKeys
      ensures score == old(score) && totalAttempts == old(totalAttempts) && useAi == old(useAi)
    {
      if currentGroup != Some(selector) {
        currentGroup := Some(selector);
        currentSentence := None;
        feedback := None;
        imageResult := None;
        ClearUploadKeys();
      }
    }

    /** The "Create sentence with this topic" button; `false` when the topic field is empty. */
    method SubmitCustomTopic(topic: string, coin: bool, reply: Option<string>,
                             decode: string -> Option<Json>, pick: nat) returns (accepted: bool)
      modifies this
      ensures accepted <==> topic != ""
      ensures accepted ==>
        (currentGroup == Some(topic)
         && currentSentence == Some(NewSentence(topic, useAi, coin, reply, decode, pick))
         && feedback.None? && imageResult.None?
         && widgetKeys == old(widgetKeys) - set k | k in UploadKeys)
      ensures !accepted ==>
        currentGroup == old(currentGroup) && currentSentence == old(currentSentence)
        && feedback == old(feedback) && imageResult == old(imageResult) && widgetKeys == old(widgetKeys)
      ensures score == old(score) && totalAttempts == old(totalAttempts) && useAi == old(useAi)
    {
      if topic != "" {
        currentGroup := Some(topic);
        accepted := ResetCurrentSentence(coin, reply, decode, pick);
      } else {
        accepted := false;
      }
    }

    /** Lines 320-325: adopting the selector's group clears the sentence. */
    method SyncPredefinedSelection(selected: string)
      modifies this
      ensures currentGroup == Some(selected)
      ensures old(currentGroup) != Some(selected) ==> currentSentence.None?
      ensures old(currentGroup) == Some(selected) ==> currentSentence == old(currentSentence)
      ensures feedback == old(feedback) && imageResult == old(imageResult) && widgetKeys == old(widgetKeys)
      ensures score == old(score) && totalAttempts == old(totalAttempts) && useAi == old(useAi)
    {
      if currentGroup != Some(selected) {
        currentGroup := Some(selected);
        currentSentence := None;
      }
    }

    /** Lines 412-491: record one evaluation and the feedback box it renders. */
    method RecordEvaluation(result: Evaluation)
      requires Valid()
      modifies this
      ensures Valid()
      ensures totalAttempts == old(totalAttempts) + 1
      ensures score == old(score) + (if result.isCorrect then 1 else 0)
      ensures imageResult == Some(result) && feedback == Some(FeedbackFor(result))
      ensures currentGroup == old(currentGroup) && currentSentence == old(currentSentence)
      ensures widgetKeys == old(widgetKeys) && useAi == old(useAi)
    {
      imageResult := Some(result);
      totalAttempts := totalAttempts + 1;
      if result.isCorrect {
        score := score + 1;
      }
      feedback := Some(FeedbackFor(result));
    }

    /** The "Reset Statistics" button. */
    method ResetStatistics()
      modifies this
      ensures score == 0 && totalAttempts == 0 && Valid()
      ensures currentGroup == old(currentGroup) && currentSentence == old(currentSentence)
      ensures feedback == old(feedback) && imageResult == old(imageResult) && widgetKeys == old(widgetKeys)
      ensures useAi == old(useAi)
    {
      score := 0;
      totalAttempts := 0;
    }

    /** The "Continue with another sentence" button: back to step 1 in the same group. */
    method Continue()
      modifies this
      ensures currentGroup == old(currentGroup)
      ensures currentSentence.None? && feedback.None? && imageResult.None?
      ensures widgetKeys == old(widgetKeys) - set k | k in UploadKeys
      ensures score == old(score) && totalAttempts == old(totalAttempts) && useAi == old(useAi)
    {
      var group := currentGroup;
      currentSentence := None;
      feedback := None;
      imageResult := None;
      ClearUploadKeys();
      currentGroup := group;
    }
  }
}
