/** The states that are valid, on their fields. */
module RuntimeStates {
  import opened Text
  import opened Ordering
  import opened Runtime
  import Delivery
  import C = Clarification

  predicate TextInForm(value: string, limit: nat) {
    value != "" && !IsSpace(value[0]) && !IsSpace(value[|value| - 1]) && Utf8Len(value) <= limit
  }

  /** A text is something but white space. */
  predicate SaysSomething(value: string) {
    exists i :: 0 <= i < |value| && !IsSpace(value[i])
  }

  predicate CountsInForm(s: RuntimeState) {
    && s.stateVersion >= 1 && 0 <= s.stepNumber <= s.maxSteps && 1 <= s.maxSteps <= 24
    && (s.limits.Some? ==>
         var l := s.limits.value;
         && 1 <= l.maxToolCalls <= 64 && 0 <= l.toolCallsUsed <= l.maxToolCalls
         && l.startedAt != 0 && l.deadlineAt != 0 && l.startedAt < l.deadlineAt)
  }

  predicate SteersInForm(steers: seq<Steer>) {
    && (forall i :: 0 <= i < |steers| ==> TextInForm(steers[i].clientRequestId, 120) && TextInForm(steers[i].message, 65536))
    && forall i, j :: 0 <= i < j < |steers| ==> steers[i].clientRequestId != steers[j].clientRequestId
  }

  /** At most eight skills, their directories in form and strictly ascending throughout. */
  predicate SkillsInForm(c: Configuration) {
    && |c.skills| <= 8 && c.otherFactsValid
    && (forall i :: 0 <= i < |c.skills| ==> TextInForm(c.skills[i].dir, 120))
    && forall i, j :: 0 <= i < j < |c.skills| ==> Less(c.skills[i].dir, c.skills[j].dir)
  }

  /** Loaded directories are those of selected skills, strictly ascending. */
  predicate LoadedInForm(skills: seq<Skill>, loaded: seq<string>) {
    && (forall i :: 0 <= i < |loaded| ==> exists k :: 0 <= k < |skills| && skills[k].dir == loaded[i])
    && forall i, j :: 0 <= i < j < |loaded| ==> Less(loaded[i], loaded[j])
  }

  /** Completed requests under the contract of the state, each identity once, and none of it pending. */
  predicate QuestionsInForm(s: RuntimeState) {
    var history := s.clarificationHistory;
    && (forall i :: 0 <= i < |history| ==>
         C.ValidCompleted(history[i]) && s.expectedDelivery == Some(history[i].request.expectedDelivery))
    && (forall i, j :: 0 <= i < j < |history| ==> history[i].request.requestId != history[j].request.requestId)
    && (s.pendingClarification.Some? ==>
         var p := s.pendingClarification.value;
         && s.pendingToolCall.None? && !s.pendingToolStarted
         && C.ValidRecord(p.request, p.answers, false) && s.expectedDelivery == Some(p.request.expectedDelivery)
         && forall i :: 0 <= i < |history| ==> history[i].request.requestId != p.request.requestId)
  }

  lemma {:induction false} SpacesOnly(value: string)
    ensures Trim(value) != "" <==> SaysSomething(value)
  {
    hide IsSpace;
    var left, right := TrimTakesSpaces(value);
    var middle := Trim(value);
    assert Trimmed(middle);
    hide Trim;
    if middle != "" {
      assert value[|left|] == middle[0];
    }
    if middle == "" {
      assert value == left + right;
      forall i | 0 <= i < |value| ensures IsSpace(value[i]) {
        assert value[i] == if i < |left| then left[i] else right[i - |left|];
      }
    }
  }

  lemma SteersExactly(steers: seq<Steer>)
    ensures ValidPendingSteers(steers) <==> SteersInForm(steers)
  {
    hide IsSpace, Utf8Len;
    forall p: Steer ensures ValidSteer(p) <==> TextInForm(p.clientRequestId, 120) && TextInForm(p.message, 65536) {
    }
    hide ValidSteer, TextInForm;
  }

  lemma {:induction false} DirsAscend(skills: seq<Skill>, i: nat, j: nat)
    requires i < j < |skills| && forall k :: 0 <= k < |skills| - 1 ==> Less(skills[k].dir, skills[k + 1].dir)
    ensures Less(skills[i].dir, skills[j].dir)
  {
    hide Less;
    assert Less(skills[j - 1].dir, skills[j - 1 + 1].dir);
    if i < j - 1 {
      DirsAscend(skills, i, j - 1);
      LessTransitive(skills[i].dir, skills[j - 1].dir, skills[j].dir);
    }
  }

  lemma SkillsExactly(c: Configuration)
    ensures ValidConfiguration(c) <==> SkillsInForm(c)
  {
    hide IsSpace, Utf8Len, Less;
    forall dir ensures Trimmed(dir) && dir != "" && Utf8Len(dir) <= 120 <==> TextInForm(dir, 120) {
    }
    hide Trimmed, TextInForm;
    if ValidConfiguration(c) {
      forall i, j | 0 <= i < j < |c.skills| ensures Less(c.skills[i].dir, c.skills[j].dir) {
        DirsAscend(c.skills, i, j);
      }
    }
  }

  lemma SelectedExactly(skills: seq<Skill>, dir: string)
    ensures Selected(skills, dir) <==> exists k :: 0 <= k < |skills| && skills[k].dir == dir
  {
    if Selected(skills, dir) {
      var s :| s in skills && s.dir == dir;
      var k :| 0 <= k < |skills| && skills[k] == s;
    }
  }

  lemma LoadedExactly(c: Configuration, loaded: seq<string>)
    requires ValidConfiguration(c)
    ensures ValidLoadedSkillDirs(c.skills, loaded) <==> LoadedInForm(c.skills, loaded)
  {
    hide Less, Trimmed, Utf8Len;
    forall dir ensures Selected(c.skills, dir) <==> exists k :: 0 <= k < |c.skills| && c.skills[k].dir == dir {
      SelectedExactly(c.skills, dir);
    }
    forall dir | Selected(c.skills, dir) ensures Trimmed(dir) && dir != "" {
    }
    hide ValidConfiguration, Selected;
    assert ValidLoadedSkillDirs(c.skills, loaded) <==>
      (forall i :: 0 <= i < |loaded| ==> Selected(c.skills, loaded[i])) && Ascending(Less, loaded);
    assert Ascending(Less, loaded) <==> forall i, j :: 0 <= i < j < |loaded| ==> Less(loaded[i], loaded[j]);
  }

  lemma QuestionsExactly(s: RuntimeState)
    ensures ValidClarificationState(s) <==> (s.status == WaitingInput <==> s.pendingClarification.Some?) && QuestionsInForm(s)
  {
    hide C.ValidCompleted, C.ValidRecord;
    var history := s.clarificationHistory;
    forall id ensures CompletedRequest(history, id) <==> exists i :: 0 <= i < |history| && history[i].request.requestId == id {
      if CompletedRequest(history, id) {
        var c :| c in history && c.request.requestId == id;
        var i :| 0 <= i < |history| && history[i] == c;
      }
    }
    hide CompletedRequest;
  }

  /** A state is valid if and only if its counts, steers, skills and questions are in form, a started call is
      there and waited for or cancelled, it waits for an answer exactly while a question pends, the message
      says something, and feedback and contract are in form if there are any. */
  lemma ValidExactly(s: RuntimeState)
    ensures Valid(s) <==>
            && CountsInForm(s) && SteersInForm(s.pendingSteers) && SkillsInForm(s.configuration)
            && LoadedInForm(s.configuration.skills, s.loadedSkillDirs) && QuestionsInForm(s)
            && (s.pendingToolStarted ==> s.status in {WaitingTool, Cancelled} && s.pendingToolCall.Some?)
            && (s.status == WaitingInput <==> s.pendingClarification.Some?)
            && SaysSomething(s.userMessage) && Utf8Len(s.userMessage) <= 65536
            && (s.decisionFeedback.Some? ==>
                 var f := s.decisionFeedback.value;
                 f.code != UnknownFeedback && SaysSomething(f.reason) && Utf8Len(Trim(f.reason)) <= 240)
            && (s.expectedDelivery.Some? ==> Delivery.ValidDelivery(s.expectedDelivery.value))
  {
    hide ValidPendingSteers, ValidClarificationState, ValidConfiguration, ValidLoadedSkillDirs, SteersInForm, SkillsInForm, LoadedInForm,
      QuestionsInForm, SaysSomething, Trim, Utf8Len, Delivery.ValidDelivery;
    SteersExactly(s.pendingSteers);
    SkillsExactly(s.configuration);
    if ValidConfiguration(s.configuration) {
      LoadedExactly(s.configuration, s.loadedSkillDirs);
    }
    QuestionsExactly(s);
    SpacesOnly(s.userMessage);
    if s.decisionFeedback.Some? {
      SpacesOnly(s.decisionFeedback.value.reason);
    }
  }
}
