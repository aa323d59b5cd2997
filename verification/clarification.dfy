/** Questions the agent asks the user, and the canonical form of the answers. */
module Clarification {
  import opened Text
  import opened Delivery

  datatype QuestionType = SingleChoice | MultiChoice | FreeText | UnknownQuestionType
  datatype ChoiceOption = ChoiceOption(id: string, caption: string)
  datatype Question = Question(
    id: string, prompt: string, kind: QuestionType, options: seq<ChoiceOption>, allowCustomAnswer: bool)
  datatype Request = Request(requestId: string, questions: seq<Question>, expectedDelivery: ExpectedDelivery)

  datatype AnswerInput = AnswerInput(selectedOptionIds: seq<string>, customText: string, skipped: bool)
  datatype Answer = Answer(questionId: string, selectedOptionIds: seq<string>, customText: string, skipped: bool)

  datatype Pending = Pending(request: Request, answers: seq<Answer>)
  datatype Completed = Completed(
    request: Request, answers: seq<Answer>, completionQuestionId: string, completionExpectedStateVersion: int)

  const CUSTOM_TEXT_LIMIT := 1000

  predicate BoundedText(value: string, limit: nat) {
    value != "" && |value| <= limit
  }

  predicate DistinctOptions(options: seq<ChoiceOption>) {
    forall i, j :: 0 <= i < j < |options| ==> options[i].id != options[j].id
  }

  predicate DistinctQuestions(questions: seq<Question>) {
    forall i, j :: 0 <= i < j < |questions| ==> questions[i].id != questions[j].id
  }

  predicate TrimmedText(value: string, limit: nat) {
    Trimmed(value) && BoundedText(value, limit)
  }

  predicate ValidOptions(q: Question) {
    match q.kind
    case FreeText => q.options == [] && !q.allowCustomAnswer
    case UnknownQuestionType => false
    case _ =>
      && 2 <= |q.options| <= 6
      && (forall i :: 0 <= i < |q.options| ==> TrimmedText(q.options[i].id, 120) && TrimmedText(q.options[i].caption, 80))
      && DistinctOptions(q.options)
  }

  predicate ValidQuestion(q: Question) {
    TrimmedText(q.id, 120) && TrimmedText(q.prompt, 240) && ValidOptions(q)
  }

  /** A request as validation leaves it. */
  predicate ValidRequest(r: Request) {
    && TrimmedText(r.requestId, 120)
    && 1 <= |r.questions| <= 3
    && ValidDelivery(r.expectedDelivery)
    && (forall i :: 0 <= i < |r.questions| ==> ValidQuestion(r.questions[i]))
    && DistinctQuestions(r.questions)
  }

  predicate TextInForm(value: string, limit: nat) {
    1 <= |value| <= limit && !IsSpace(value[0]) && !IsSpace(value[|value| - 1])
  }

  /** A choice offers two to six distinct options, a free text none. */
  predicate OffersInForm(q: Question) {
    if q.kind == FreeText then |q.options| == 0 && !q.allowCustomAnswer
    else
      && q.kind in {SingleChoice, MultiChoice} && 2 <= |q.options| <= 6
      && (forall i :: 0 <= i < |q.options| ==> TextInForm(q.options[i].id, 120) && TextInForm(q.options[i].caption, 80))
      && forall i, j :: 0 <= i < j < |q.options| ==> q.options[i].id != q.options[j].id
  }

  /** The requests that are valid: one to three distinct questions in form under a valid contract. */
  lemma RequestExactly(r: Request)
    ensures ValidRequest(r) <==>
            && TextInForm(r.requestId, 120) && |r.questions| in {1, 2, 3} && ValidDelivery(r.expectedDelivery)
            && (forall i :: 0 <= i < |r.questions| ==>
                 TextInForm(r.questions[i].id, 120) && TextInForm(r.questions[i].prompt, 240) && OffersInForm(r.questions[i]))
            && forall i, j :: 0 <= i < j < |r.questions| ==> r.questions[i].id != r.questions[j].id
  {
    hide ValidDelivery, IsSpace;
    forall value, limit: nat ensures TrimmedText(value, limit) <==> TextInForm(value, limit) {
    }
    hide TrimmedText, TextInForm;
    forall q: Question ensures ValidOptions(q) <==> OffersInForm(q) {
    }
    hide ValidOptions, OffersInForm;
  }

  function TrimOptions(options: seq<ChoiceOption>): (r: seq<ChoiceOption>)
    ensures |r| == |options|
    ensures forall i :: 0 <= i < |r| ==> r[i] == ChoiceOption(Trim(options[i].id), Trim(options[i].caption))
  {
    seq(|options|, i requires 0 <= i < |options| => ChoiceOption(Trim(options[i].id), Trim(options[i].caption)))
  }

  function TrimQuestion(q: Question): Question {
    q.(id := Trim(q.id), prompt := Trim(q.prompt), options := TrimOptions(q.options))
  }

  function TrimQuestions(questions: seq<Question>): (r: seq<Question>)
    ensures |r| == |questions| && forall i :: 0 <= i < |r| ==> r[i] == TrimQuestion(questions[i])
  {
    seq(|questions|, i requires 0 <= i < |questions| => TrimQuestion(questions[i]))
  }

  /** Validation trims the texts of a request in place. */
  function TrimRequest(r: Request): Request {
    r.(requestId := Trim(r.requestId), questions := TrimQuestions(r.questions))
  }

  /** Trimming a request trims each of its texts and nothing else. */
  lemma TrimExactly(r: Request, t: Request)
    ensures t == TrimRequest(r) <==>
            && t.requestId == Trim(r.requestId) && t.expectedDelivery == r.expectedDelivery && |t.questions| == |r.questions|
            && forall i :: 0 <= i < |r.questions| ==>
                 var q, p := r.questions[i], t.questions[i];
                 && p.id == Trim(q.id) && p.prompt == Trim(q.prompt) && p.kind == q.kind && p.allowCustomAnswer == q.allowCustomAnswer
                 && |p.options| == |q.options|
                 && forall j :: 0 <= j < |q.options| ==>
                      p.options[j].id == Trim(q.options[j].id) && p.options[j].caption == Trim(q.options[j].caption)
  {
    hide Trim;
    var u := TrimRequest(r);
    if && t.requestId == u.requestId && t.expectedDelivery == u.expectedDelivery && |t.questions| == |u.questions|
       && forall i :: 0 <= i < |u.questions| ==>
            var p, q := t.questions[i], u.questions[i];
            && p.id == q.id && p.prompt == q.prompt && p.kind == q.kind && p.allowCustomAnswer == q.allowCustomAnswer
            && |p.options| == |q.options| && forall j :: 0 <= j < |q.options| ==>
                 p.options[j].id == q.options[j].id && p.options[j].caption == q.options[j].caption
    {
      forall i | 0 <= i < |u.questions| ensures t.questions[i] == u.questions[i] {
        assert t.questions[i].options == u.questions[i].options;
      }
      assert t.questions == u.questions;
    }
  }

  /** A valid request has nothing left to trim. */
  lemma ValidIsTrimmed(r: Request)
    requires ValidRequest(r)
    ensures TrimRequest(r) == r
  {
    hide Trimmed, Trim, BoundedText, ValidDelivery;
    forall i | 0 <= i < |r.questions| ensures TrimQuestion(r.questions[i]) == r.questions[i] {
      assert ValidQuestion(r.questions[i]);
      OptionsAreTrimmed(r.questions[i]);
    }
    assert TrimQuestions(r.questions) == r.questions;
  }

  lemma OptionsAreTrimmed(q: Question)
    requires ValidOptions(q)
    ensures TrimOptions(q.options) == q.options
  {
    hide Trimmed, Trim, BoundedText;
  }

  /** Trims and checks the options of one question. */
  method CheckOptions(q: Question) returns (ok: bool, options: seq<ChoiceOption>)
    ensures ok <==> ValidOptions(q.(options := TrimOptions(q.options)))
    ensures ok ==> options == TrimOptions(q.options)
  {
    hide BoundedText, Trim, Trimmed;
    options := q.options;
    if q.kind == FreeText {
      return q.options == [] && !q.allowCustomAnswer, options;
    }
    if q.kind == UnknownQuestionType || |q.options| < 2 || |q.options| > 6 {
      return false, options;
    }
    var ids: set<string> := {};
    ghost var trimmed := TrimOptions(q.options);
    for i := 0 to |q.options|
      invariant |options| == |q.options|
      invariant forall k :: 0 <= k < i ==> options[k] == trimmed[k]
      invariant forall k :: i <= k < |options| ==> options[k] == q.options[k]
      invariant forall k :: 0 <= k < i ==> TrimmedText(trimmed[k].id, 120) && TrimmedText(trimmed[k].caption, 80)
      invariant forall j, k :: 0 <= j < k < i ==> trimmed[j].id != trimmed[k].id
      invariant forall id :: id in ids <==> exists k :: 0 <= k < i && trimmed[k].id == id
    {
      options := options[i := ChoiceOption(Trim(options[i].id), Trim(options[i].caption))];
      var option := options[i];
      assert option == trimmed[i];
      if !BoundedText(option.id, 120) || !BoundedText(option.caption, 80) || option.id in ids {
        return false, options;
      }
      ids := ids + {option.id};
    }
    return true, options;
  }

  /** Trims and checks one question; `ids` are those of the questions before it. */
  method CheckQuestion(q: Question, ids: set<string>) returns (ok: bool, trimmed: Question)
    ensures ok <==> ValidQuestion(TrimQuestion(q)) && Trim(q.id) !in ids
    ensures ok ==> trimmed == TrimQuestion(q)
  {
    hide BoundedText, Trim, Trimmed;
    trimmed := q.(id := Trim(q.id), prompt := Trim(q.prompt));
    if !BoundedText(trimmed.id, 120) || !BoundedText(trimmed.prompt, 240) || trimmed.id in ids {
      return false, trimmed;
    }
    var options;
    ok, options := CheckOptions(q);
    SameOptions(TrimQuestion(q), q.(options := TrimOptions(q.options)));
    trimmed := trimmed.(options := options);
  }

  lemma SameOptions(a: Question, b: Question)
    requires a.kind == b.kind && a.options == b.options && a.allowCustomAnswer == b.allowCustomAnswer
    ensures ValidOptions(a) <==> ValidOptions(b)
  {
  }

  /** Trims and checks a request. */
  method ValidateRequest(r: Request) returns (ok: bool, trimmed: Request)
    ensures ok <==> ValidRequest(TrimRequest(r))
    ensures ok ==> trimmed == TrimRequest(r)
  {
    hide ValidDelivery, ValidQuestion, BoundedText, Trim, Trimmed;
    trimmed := r.(requestId := Trim(r.requestId));
    if !BoundedText(trimmed.requestId, 120) || |r.questions| < 1 || |r.questions| > 3 {
      return false, trimmed;
    }
    ok := Validate(r.expectedDelivery);
    if !ok {
      return false, trimmed;
    }
    var ids: set<string>, questions := {}, r.questions;
    ghost var goal := TrimQuestions(r.questions);
    for i := 0 to |r.questions|
      invariant |questions| == |r.questions|
      invariant forall k :: 0 <= k < i ==> questions[k] == goal[k]
      invariant forall k :: i <= k < |questions| ==> questions[k] == r.questions[k]
      invariant forall k :: 0 <= k < i ==> ValidQuestion(goal[k])
      invariant forall j, k :: 0 <= j < k < i ==> goal[j].id != goal[k].id
      invariant forall id :: id in ids <==> exists k :: 0 <= k < i && goal[k].id == id
    {
      var question;
      ok, question := CheckQuestion(questions[i], ids);
      if !ok {
        return false, trimmed;
      }
      questions := questions[i := question];
      ids := ids + {question.id};
    }
    trimmed := trimmed.(questions := questions);
    assert questions == goal;
    return true, trimmed;
  }

  // ---------------------------------------------------------------- canonical answers

  function TrimAll(ids: seq<string>): (r: seq<string>)
    ensures |r| == |ids| && forall i :: 0 <= i < |ids| ==> r[i] == Trim(ids[i])
  {
    if ids == [] then [] else [Trim(ids[0])] + TrimAll(ids[1..])
  }

  /** The ids of the offered options that are selected, in the order they are offered. */
  function Pick(options: seq<ChoiceOption>, selected: set<string>): (r: seq<string>)
    ensures forall id :: id in r ==> id in selected
    ensures Distinct(r)
    ensures forall id :: id in r <==> id in selected && exists o :: o in options && o.id == id
  {
    if options == [] then []
    else
      var id := options[0].id;
      if id in selected then
        var rest := Pick(options[1..], selected - {id});
        assert options == [options[0]] + options[1..];
        [id] + rest
      else
        assert options == [options[0]] + options[1..];
        Pick(options[1..], selected)
  }

  /** The canonical selection, unless an id is blank, repeated or not offered. */
  function CanonicalOptions(q: Question, selectedIds: seq<string>): Option<seq<string>> {
    var ids := TrimAll(selectedIds);
    var selected := set id | id in ids;
    if "" in ids || !Distinct(ids) then None
    else if exists id :: id in selected && id !in Pick(q.options, selected) then None
    else Some(Pick(q.options, selected))
  }

  lemma DistinctPrefix(ids: seq<string>, i: nat)
    requires i <= |ids|
    ensures Distinct(ids) ==> Distinct(ids[..i])
  {
  }

  method CollectSelected(selectedIds: seq<string>) returns (ok: bool, selected: set<string>)
    ensures ok <==> "" !in TrimAll(selectedIds) && Distinct(TrimAll(selectedIds))
    ensures ok ==> forall id :: id in selected <==> id in TrimAll(selectedIds)
  {
    hide Trim, Trimmed;
    ghost var ids := TrimAll(selectedIds);
    ghost var seen: seq<string> := [];
    selected := {};
    for i := 0 to |selectedIds|
      invariant seen == ids[..i]
      invariant forall id :: id in selected <==> id in seen
      invariant "" !in seen && Distinct(seen)
    {
      var id := Trim(selectedIds[i]);
      assert ids[i] == id && ids[..i + 1] == seen + [id];
      DistinctAppend(seen, id);
      if id == "" {
        return false, selected;
      }
      if id in selected {
        DistinctPrefix(ids, i + 1);
        return false, selected;
      }
      seen := seen + [id];
      selected := selected + {id};
    }
    assert ids[..|ids|] == ids;
    return true, selected;
  }

  lemma PickAt(options: seq<ChoiceOption>, i: nat, chosen: set<string>)
    requires i < |options|
    ensures Pick(options[i..], chosen)
            == if options[i].id in chosen then [options[i].id] + Pick(options[i + 1..], chosen - {options[i].id}) else Pick(options[i + 1..], chosen)
  {
    assert options[i..][1..] == options[i + 1..];
  }

  /** What is left of the chosen ids when some have been taken. */
  ghost predicate Left(chosen: set<string>, taken: seq<string>, left: set<string>) {
    forall id :: id in left <==> id in chosen && id !in taken
  }

  lemma TakeOne(chosen: set<string>, taken: seq<string>, left: set<string>, id: string)
    requires Left(chosen, taken, left)
    ensures Left(chosen, taken + [id], left - {id})
  {
  }

  /** Takes the selected options in the order they are offered; what is left was not offered. */
  method TakeOffered(options: seq<ChoiceOption>, chosen: set<string>) returns (ordered: seq<string>, left: set<string>)
    ensures ordered == Pick(options, chosen)
    ensures forall id :: id in left <==> id in chosen && id !in ordered
  {
    hide Pick, Left;
    ordered, left := [], chosen;
    assert Left(chosen, [], chosen) by { NothingTaken(chosen); }
    assert options[0..] == options;
    for i := 0 to |options|
      invariant Pick(options, chosen) == ordered + Pick(options[i..], left)
      invariant Left(chosen, ordered, left)
    {
      var id := options[i].id;
      PickAt(options, i, left);
      if id in left {
        TakeOne(chosen, ordered, left, id);
        assert ordered + ([id] + Pick(options[i + 1..], left - {id})) == (ordered + [id]) + Pick(options[i + 1..], left - {id});
        ordered := ordered + [id];
        left := left - {id};
      }
    }
    PickNothing(options[|options|..], left);
    TakenOf(chosen, ordered, left);
  }

  lemma NothingTaken(chosen: set<string>)
    ensures Left(chosen, [], chosen)
  {
  }

  lemma TakenOf(chosen: set<string>, taken: seq<string>, left: set<string>)
    requires Left(chosen, taken, left)
    ensures forall id :: id in left <==> id in chosen && id !in taken
  {
  }

  lemma PickNothing(options: seq<ChoiceOption>, chosen: set<string>)
    requires options == []
    ensures Pick(options, chosen) == []
  {
  }

  method CanonicalSelectedOptions(q: Question, selectedIds: seq<string>) returns (r: Option<seq<string>>)
    ensures r == CanonicalOptions(q, selectedIds)
  {
    hide Trim, TrimAll, Distinct, Pick;
    var ok, selected := CollectSelected(selectedIds);
    if !ok {
      return None;
    }
    assert selected == set id | id in TrimAll(selectedIds);
    var ordered, left := TakeOffered(q.options, selected);
    if left != {} {
      return None;
    }
    return Some(ordered);
  }

  datatype AnswerError = AnswerInvalid

  function QuestionById(questions: seq<Question>, id: string): (r: Option<Question>)
    ensures r.Some? ==> r.value in questions && r.value.id == id
    ensures r.None? ==> forall q :: q in questions ==> q.id != id
  {
    if questions == [] then None
    else if questions[0].id == id then Some(questions[0])
    else QuestionById(questions[1..], id)
  }

  function CanonicalAnswer(request: Request, questionId: string, input: AnswerInput): (r: Result<Answer, AnswerError>)
    ensures r.Success? ==> r.value.questionId == questionId
    ensures r.Success? ==> exists q :: q in request.questions && q.id == questionId
  {
    match QuestionById(request.questions, questionId)
    case None => Failure(AnswerInvalid)
    case Some(question) =>
      var customText := Trim(input.customText);
      if |customText| > CUSTOM_TEXT_LIMIT then Failure(AnswerInvalid)
      else if input.skipped then
        if input.selectedOptionIds != [] || customText != "" then Failure(AnswerInvalid)
        else Success(Answer.Answer(question.id, [], "", true))
      else if question.kind == FreeText then
        if input.selectedOptionIds != [] || customText == "" then Failure(AnswerInvalid)
        else Success(Answer.Answer(question.id, [], customText, false))
      else if question.kind == UnknownQuestionType then Failure(AnswerInvalid)
      else
        match CanonicalOptions(question, input.selectedOptionIds)
        case None => Failure(AnswerInvalid)
        case Some(selected) =>
          if question.kind == SingleChoice && |selected| > 1 then Failure(AnswerInvalid)
          else if customText != "" && !question.allowCustomAnswer then Failure(AnswerInvalid)
          else if selected == [] && customText == "" then Failure(AnswerInvalid)
          else Success(Answer.Answer(question.id, selected, customText, false))
  }

  function AsInput(a: Answer): AnswerInput {
    AnswerInput(a.selectedOptionIds, a.customText, a.skipped)
  }

  /** Canonicalising a selection again changes nothing. */
  lemma CanonicalOptionsIdempotent(q: Question, ids: seq<string>)
    requires CanonicalOptions(q, ids).Some?
    ensures CanonicalOptions(q, CanonicalOptions(q, ids).value) == CanonicalOptions(q, ids)
  {
    var trimmed := TrimAll(ids);
    var selected := set id | id in trimmed;
    var picked := Pick(q.options, selected);
    forall i | 0 <= i < |picked| ensures Trim(picked[i]) == picked[i] {
      assert picked[i] in selected;
    }
    assert TrimAll(picked) == picked;
    assert (set id | id in picked) == selected;
  }

  lemma CanonicalAnswerIdempotent(request: Request, questionId: string, input: AnswerInput)
    requires CanonicalAnswer(request, questionId, input).Success?
    ensures var a := CanonicalAnswer(request, questionId, input).value;
            CanonicalAnswer(request, questionId, AsInput(a)) == Success(a)
  {
    var question := QuestionById(request.questions, questionId).value;
    if !input.skipped && question.kind != FreeText {
      CanonicalOptionsIdempotent(question, input.selectedOptionIds);
    }
  }

  predicate Offered(q: Question, id: string) {
    exists o :: o in q.options && o.id == id
  }

  /** What an answer may select: trimmed ids that are not blank, not repeated and offered. */
  predicate MaySelect(q: Question, selectedIds: seq<string>) {
    && (forall i :: 0 <= i < |selectedIds| ==> Trim(selectedIds[i]) != "" && Offered(q, Trim(selectedIds[i])))
    && forall i, j :: 0 <= i < j < |selectedIds| ==> Trim(selectedIds[i]) != Trim(selectedIds[j])
  }

  /** What a question takes as an answer: nothing when it is skipped; a text of its own for free text; for a
      choice what is offered, at most one for a single choice, with a text of its own only where allowed, and
      at least one of the two. */
  predicate Takes(q: Question, input: AnswerInput) {
    var text, picked := Trim(input.customText), input.selectedOptionIds;
    && |text| <= 1000
    && if input.skipped then picked == [] && text == ""
       else
         match q.kind
         case FreeText => picked == [] && text != ""
         case SingleChoice => MaySelect(q, picked) && |picked| <= 1 && (text != "" ==> q.allowCustomAnswer) && (|picked| > 0 || text != "")
         case MultiChoice => MaySelect(q, picked) && (text != "" ==> q.allowCustomAnswer) && (|picked| > 0 || text != "")
         case UnknownQuestionType => false
  }

  predicate OfferedBefore(options: seq<ChoiceOption>, first: string, second: string) {
    exists x, y :: 0 <= x < y < |options| && options[x].id == first && options[y].id == second
  }

  /** The ids stand in the order in which the options are offered. */
  predicate InOrderOf(options: seq<ChoiceOption>, ids: seq<string>) {
    forall a, b :: 0 <= a < b < |ids| ==> OfferedBefore(options, ids[a], ids[b])
  }

  lemma OrderLater(options: seq<ChoiceOption>, ids: seq<string>)
    requires options != [] && InOrderOf(options[1..], ids)
    ensures InOrderOf(options, ids)
  {
    var rest := options[1..];
    forall a, b | 0 <= a < b < |ids| ensures OfferedBefore(options, ids[a], ids[b]) {
      assert OfferedBefore(rest, ids[a], ids[b]);
      var x, y :| 0 <= x < y < |rest| && rest[x].id == ids[a] && rest[y].id == ids[b];
      assert options[x + 1] == rest[x] && options[y + 1] == rest[y];
    }
  }

  lemma OrderWithHead(options: seq<ChoiceOption>, ids: seq<string>)
    requires options != [] && InOrderOf(options, ids)
    requires forall id :: id in ids ==> exists o :: o in options[1..] && o.id == id
    ensures InOrderOf(options, [options[0].id] + ids)
  {
    var all := [options[0].id] + ids;
    forall a, b | 0 <= a < b < |all| ensures OfferedBefore(options, all[a], all[b]) {
      assert all[b] == ids[b - 1];
      if a == 0 {
        assert ids[b - 1] in ids;
        var o :| o in options[1..] && o.id == ids[b - 1];
        var y :| 0 <= y < |options[1..]| && options[1..][y] == o;
        assert options[y + 1] == o;
      } else {
        assert all[a] == ids[a - 1];
      }
    }
  }

  lemma {:induction false} PickKeepsOrder(options: seq<ChoiceOption>, selected: set<string>)
    ensures InOrderOf(options, Pick(options, selected))
  {
    if options == [] {
      assert Pick(options, selected) == [];
    } else {
      hide InOrderOf;
      var id := options[0].id;
      var more := if id in selected then selected - {id} else selected;
      PickKeepsOrder(options[1..], more);
      var rest := Pick(options[1..], more);
      OrderLater(options, rest);
      if id in selected {
        OrderWithHead(options, rest);
      }
    }
  }

  lemma TrimmedIds(ids: seq<string>, id: string)
    ensures id in TrimAll(ids) <==> exists i :: 0 <= i < |ids| && Trim(ids[i]) == id
  {
    hide Trim;
  }

  /** Trimming leaves distinct ids that are not blank exactly when no two trim alike and none is blank. */
  lemma TrimmedSelection(q: Question, ids: seq<string>)
    ensures "" !in TrimAll(ids) && Distinct(TrimAll(ids)) && (forall id :: id in TrimAll(ids) ==> Offered(q, id)) <==> MaySelect(q, ids)
  {
    hide Trim, Offered;
    var trimmed := TrimAll(ids);
    forall i | 0 <= i < |ids| ensures trimmed[i] in trimmed && trimmed[i] == Trim(ids[i]) {
    }
  }

  /** A selection is canonical exactly when it may be made; then it holds the same ids, trimmed, in the
      order of the offer. */
  lemma SelectionExactly(q: Question, selectedIds: seq<string>)
    ensures var r := CanonicalOptions(q, selectedIds);
            && (r.Some? <==> MaySelect(q, selectedIds))
            && (r.Some? ==>
                 && (forall id :: id in r.value <==> exists i :: 0 <= i < |selectedIds| && Trim(selectedIds[i]) == id)
                 && Distinct(r.value) && InOrderOf(q.options, r.value)
                 && (|r.value| > 1 <==> |selectedIds| > 1) && (r.value == [] <==> selectedIds == []))
  {
    hide Trim, InOrderOf, MaySelect;
    var ids := TrimAll(selectedIds);
    var selected := set id | id in ids;
    var picked := Pick(q.options, selected);
    PickKeepsOrder(q.options, selected);
    TrimmedSelection(q, selectedIds);
    assert forall id :: id in picked <==> id in selected && Offered(q, id);
    hide Pick, Offered;
    if CanonicalOptions(q, selectedIds).Some? {
      assert forall id :: id in ids <==> id in picked;
      SameSize(ids, picked);
      forall id ensures id in picked <==> exists i :: 0 <= i < |selectedIds| && Trim(selectedIds[i]) == id {
        TrimmedIds(selectedIds, id);
      }
    }
  }

  lemma SameSize(ids: seq<string>, picked: seq<string>)
    requires Distinct(ids) && Distinct(picked) && forall id :: id in ids <==> id in picked
    ensures (|picked| > 1 <==> |ids| > 1) && (picked == [] <==> ids == [])
  {
    if |ids| > 1 {
      assert ids[0] in picked && ids[1] in picked && ids[0] != ids[1];
    }
    if |picked| > 1 {
      assert picked[0] in ids && picked[1] in ids && picked[0] != picked[1];
    }
    if ids != [] {
      assert ids[0] in picked;
    }
    if picked != [] {
      assert picked[0] in ids;
    }
  }

  /** The first question of a request with its id. */
  predicate AsksFirst(questions: seq<Question>, q: Question) {
    exists i :: 0 <= i < |questions| && questions[i] == q && forall k :: 0 <= k < i ==> questions[k].id != q.id
  }

  lemma {:induction false} FirstIsFound(questions: seq<Question>, q: Question)
    requires AsksFirst(questions, q)
    ensures QuestionById(questions, q.id) == Some(q)
  {
    var i :| 0 <= i < |questions| && questions[i] == q && forall k :: 0 <= k < i ==> questions[k].id != q.id;
    if i > 0 {
      assert questions[0].id != q.id;
      assert questions[1..][i - 1] == q && forall k :: 0 <= k < i - 1 ==> questions[1..][k] == questions[k + 1];
      FirstIsFound(questions[1..], q);
    }
  }

  /** An answer to a question is canonical exactly when the question takes it; then it names the question,
      keeps whether it was skipped, the trimmed text and the selected ids, in the order of the offer. */
  lemma CanonicalAnswerExactly(request: Request, q: Question, input: AnswerInput)
    requires AsksFirst(request.questions, q)
    ensures var r := CanonicalAnswer(request, q.id, input);
            && (r.Success? <==> Takes(q, input))
            && (r.Success? ==>
                 var a := r.value;
                 && a.questionId == q.id && a.skipped == input.skipped && a.customText == Trim(input.customText)
                 && (forall id :: id in a.selectedOptionIds <==>
                      exists i :: 0 <= i < |input.selectedOptionIds| && Trim(input.selectedOptionIds[i]) == id)
                 && Distinct(a.selectedOptionIds) && InOrderOf(q.options, a.selectedOptionIds))
  {
    FirstIsFound(request.questions, q);
    SelectionExactly(q, input.selectedOptionIds);
    hide Trim, CanonicalOptions, MaySelect, InOrderOf, QuestionById;
  }

  /** There is no answer to a question that is not asked. */
  lemma UnaskedIsRefused(request: Request, questionId: string, input: AnswerInput)
    requires forall q :: q in request.questions ==> q.id != questionId
    ensures CanonicalAnswer(request, questionId, input) == Failure(AnswerInvalid)
  {
  }

  // ---------------------------------------------------------------- records of answers

  function AnswerFor(answers: seq<Answer>, questionId: string): (r: Option<Answer>)
    ensures r.Some? ==> r.value in answers && r.value.questionId == questionId
    ensures r.None? ==> forall a :: a in answers ==> a.questionId != questionId
  {
    if answers == [] then None
    else if answers[0].questionId == questionId then Some(answers[0])
    else AnswerFor(answers[1..], questionId)
  }

  predicate Complete(request: Request, answers: seq<Answer>) {
    && |answers| == |request.questions|
    && forall q :: q in request.questions ==> AnswerFor(answers, q.id).Some?
  }

  predicate DistinctAnswers(answers: seq<Answer>) {
    forall i, j :: 0 <= i < j < |answers| ==> answers[i].questionId != answers[j].questionId
  }

  predicate CanonicalFor(request: Request, a: Answer) {
    CanonicalAnswer(request, a.questionId, AsInput(a)) == Success(a)
  }

  predicate ValidRecord(request: Request, answers: seq<Answer>, requireComplete: bool) {
    && ValidRequest(request)
    && DistinctAnswers(answers)
    && (forall a :: a in answers ==> CanonicalFor(request, a))
    && (requireComplete ==> Complete(request, answers))
  }

  method AnswersComplete(request: Request, answers: seq<Answer>) returns (complete: bool)
    ensures complete <==> Complete(request, answers)
  {
    if |answers| != |request.questions| {
      return false;
    }
    for i := 0 to |request.questions|
      invariant forall k :: 0 <= k < i ==> AnswerFor(answers, request.questions[k].id).Some?
    {
      assert request.questions[i] in request.questions;
      if AnswerFor(answers, request.questions[i].id).None? {
        return false;
      }
    }
    return true;
  }

  /** Checks a record against a trimmed copy of its request. */
  method ValidateRecord(original: Request, answers: seq<Answer>, requireComplete: bool) returns (ok: bool)
    ensures ok <==> ValidRecord(TrimRequest(original), answers, requireComplete)
  {
    hide ValidRequest, CanonicalAnswer, Complete, TrimRequest;
    var request;
    ok, request := ValidateRequest(original);
    if !ok {
      return false;
    }
    var seen: set<string> := {};
    for i := 0 to |answers|
      invariant forall j, k :: 0 <= j < k < i ==> answers[j].questionId != answers[k].questionId
      invariant forall k :: 0 <= k < i ==> CanonicalFor(request, answers[k])
      invariant forall id :: id in seen <==> exists k :: 0 <= k < i && answers[k].questionId == id
    {
      var stored := answers[i];
      assert stored in answers;
      if stored.questionId in seen {
        return false;
      }
      seen := seen + {stored.questionId};
      if CanonicalAnswer(request, stored.questionId, AsInput(stored)) != Success(stored) {
        return false;
      }
    }
    if requireComplete {
      ok := AnswersComplete(request, answers);
    }
  }

  predicate ValidCompleted(c: Completed) {
    && ValidRecord(c.request, c.answers, true)
    && BoundedText(c.completionQuestionId, 120)
    && c.completionExpectedStateVersion >= 1
    && AnswerFor(c.answers, c.completionQuestionId).Some?
  }

  /** A completed request keeps a record with one answer for each question, completed by one of them. */
  lemma CompletedExactly(c: Completed)
    ensures ValidCompleted(c) <==>
            && ValidRecord(c.request, c.answers, false) && |c.answers| == |c.request.questions|
            && (forall q :: q in c.request.questions ==> AnswerFor(c.answers, q.id).Some?)
            && 1 <= |c.completionQuestionId| <= 120 && c.completionExpectedStateVersion >= 1
            && exists q :: q in c.request.questions && q.id == c.completionQuestionId
  {
    hide ValidRequest, CanonicalAnswer;
    if ValidCompleted(c) {
      var a := AnswerFor(c.answers, c.completionQuestionId).value;
      assert CanonicalFor(c.request, a);
      AnswersAreAsked(c.request, a);
    }
  }

  lemma AnswersAreAsked(request: Request, a: Answer)
    requires CanonicalFor(request, a)
    ensures exists q :: q in request.questions && q.id == a.questionId
  {
    if forall q :: q in request.questions ==> q.id != a.questionId {
      UnaskedIsRefused(request, a.questionId, AsInput(a));
    }
  }

  function ByQuestion(answers: seq<Answer>): map<string, Answer> {
    if answers == [] then map[]
    else
      var last := answers[|answers| - 1];
      ByQuestion(answers[..|answers| - 1])[last.questionId := last]
  }

  /** The recorded answers in the order of the questions. */
  function InQuestionOrder(questions: seq<Question>, byQuestion: map<string, Answer>): seq<Answer> {
    if questions == [] then []
    else
      var id := questions[|questions| - 1].id;
      InQuestionOrder(questions[..|questions| - 1], byQuestion) + (if id in byQuestion then [byQuestion[id]] else [])
  }

  function Upsert(request: Request, answers: seq<Answer>, answer: Answer): seq<Answer> {
    InQuestionOrder(request.questions, ByQuestion(answers)[answer.questionId := answer])
  }

  method UpsertAnswer(request: Request, answers: seq<Answer>, answer: Answer) returns (ordered: seq<Answer>)
    ensures ordered == Upsert(request, answers, answer)
  {
    var byQuestion: map<string, Answer> := map[];
    for i := 0 to |answers|
      invariant byQuestion == ByQuestion(answers[..i])
    {
      assert answers[..i + 1][..i] == answers[..i];
      byQuestion := byQuestion[answers[i].questionId := answers[i]];
    }
    assert answers[..|answers|] == answers;
    byQuestion := byQuestion[answer.questionId := answer];
    ordered := [];
    for i := 0 to |request.questions|
      invariant ordered == InQuestionOrder(request.questions[..i], byQuestion)
    {
      assert request.questions[..i + 1][..i] == request.questions[..i];
      if request.questions[i].id in byQuestion {
        ordered := ordered + [byQuestion[request.questions[i].id]];
      }
    }
    assert request.questions[..|request.questions|] == request.questions;
  }

  lemma {:induction false} ByQuestionFinds(answers: seq<Answer>)
    requires DistinctAnswers(answers)
    ensures forall a :: a in answers ==> a.questionId in ByQuestion(answers) && ByQuestion(answers)[a.questionId] == a
    ensures forall id :: id in ByQuestion(answers) ==> ByQuestion(answers)[id] in answers && ByQuestion(answers)[id].questionId == id
  {
    if answers != [] {
      var front, last := answers[..|answers| - 1], answers[|answers| - 1];
      assert DistinctAnswers(front);
      ByQuestionFinds(front);
      assert answers == front + [last];
      assert forall a :: a in front ==> a.questionId != last.questionId by {
        forall a | a in front ensures a.questionId != last.questionId {
          var i :| 0 <= i < |front| && front[i] == a;
          assert answers[i] == a;
        }
      }
      var m, shorter := ByQuestion(answers), ByQuestion(front);
      assert m == shorter[last.questionId := last];
      forall a | a in answers ensures a.questionId in m && m[a.questionId] == a {
        assert a in front || a == last;
      }
    }
  }

  predicate Asks(questions: seq<Question>, id: string) {
    exists q :: q in questions && q.id == id
  }

  lemma AsksLast(front: seq<Question>, last: Question)
    ensures forall id :: Asks(front + [last], id) <==> Asks(front, id) || id == last.id
  {
    assert forall q :: q in front + [last] <==> q in front || q == last;
  }

  lemma LastInOrder(questions: seq<Question>, m: map<string, Answer>)
    requires questions != []
    ensures var front, id := questions[..|questions| - 1], questions[|questions| - 1].id;
            InQuestionOrder(questions, m) == if id in m then InQuestionOrder(front, m) + [m[id]] else InQuestionOrder(front, m)
  {
  }

  /** An answer recorded in the map to one of the questions. */
  predicate Recorded(questions: seq<Question>, m: map<string, Answer>, a: Answer) {
    a.questionId in m && m[a.questionId] == a && Asks(questions, a.questionId)
  }

  predicate KeyedById(m: map<string, Answer>) {
    forall id :: id in m ==> m[id].questionId == id
  }

  lemma {:induction false} OrderHolds(questions: seq<Question>, m: map<string, Answer>, a: Answer)
    requires KeyedById(m)
    ensures a in InQuestionOrder(questions, m) <==> Recorded(questions, m, a)
  {
    if questions != [] {
      var front, last := questions[..|questions| - 1], questions[|questions| - 1];
      assert questions == front + [last];
      OrderHolds(front, m, a);
      AsksLast(front, last);
      LastInOrder(questions, m);
      hide InQuestionOrder, Asks;
    }
  }

  lemma DistinctAnswersAppend(answers: seq<Answer>, a: Answer)
    requires DistinctAnswers(answers) && forall b :: b in answers ==> b.questionId != a.questionId
    ensures DistinctAnswers(answers + [a])
  {
    var longer := answers + [a];
    forall i, j | 0 <= i < j < |longer| ensures longer[i].questionId != longer[j].questionId {
      assert longer[i] in answers;
    }
  }

  lemma {:induction false} OrderIsDistinct(questions: seq<Question>, m: map<string, Answer>)
    requires DistinctQuestions(questions) && KeyedById(m)
    ensures DistinctAnswers(InQuestionOrder(questions, m))
  {
    if questions != [] {
      var front, last := questions[..|questions| - 1], questions[|questions| - 1];
      LastIsNew(questions);
      OrderIsDistinct(front, m);
      LastInOrder(questions, m);
      hide InQuestionOrder, DistinctQuestions, DistinctAnswers, Asks;
      if last.id in m {
        forall a | a in InQuestionOrder(front, m) ensures a.questionId != last.id {
          OrderHolds(front, m, a);
        }
        DistinctAnswersAppend(InQuestionOrder(front, m), m[last.id]);
      }
    }
  }

  lemma {:induction false} OrderLength(questions: seq<Question>, m: map<string, Answer>)
    ensures |InQuestionOrder(questions, m)| <= |questions|
    ensures |InQuestionOrder(questions, m)| == |questions| <==> forall q :: q in questions ==> q.id in m
  {
    if questions != [] {
      var front, last := questions[..|questions| - 1], questions[|questions| - 1];
      assert questions == front + [last];
      OrderLength(front, m);
      LastInOrder(questions, m);
      hide InQuestionOrder;
    }
  }

  /** One answer per answered question, and nothing else, whatever the questions are. */
  lemma InQuestionOrderHolds(questions: seq<Question>, m: map<string, Answer>)
    requires DistinctQuestions(questions)
    requires forall id :: id in m ==> m[id].questionId == id
    ensures var r := InQuestionOrder(questions, m);
            && (forall a :: a in r <==> a.questionId in m && m[a.questionId] == a && Asks(questions, a.questionId))
            && DistinctAnswers(r)
            && |r| <= |questions|
            && (|r| == |questions| <==> forall q :: q in questions ==> q.id in m)
  {
    hide InQuestionOrder, DistinctQuestions, DistinctAnswers, Asks;
    forall a ensures a in InQuestionOrder(questions, m) <==> Recorded(questions, m, a) {
      OrderHolds(questions, m, a);
    }
    OrderIsDistinct(questions, m);
    OrderLength(questions, m);
  }

  lemma LastIsNew(questions: seq<Question>)
    requires questions != [] && DistinctQuestions(questions)
    ensures var front := questions[..|questions| - 1];
            DistinctQuestions(front) && !Asks(front, questions[|questions| - 1].id)
  {
    var front := questions[..|questions| - 1];
    forall q | q in front ensures q.id != questions[|questions| - 1].id {
      var i :| 0 <= i < |front| && front[i] == q;
      assert questions[i] == q;
    }
  }

  lemma AnswerForUnique(answers: seq<Answer>, a: Answer)
    requires DistinctAnswers(answers) && a in answers
    ensures AnswerFor(answers, a.questionId) == Some(a)
  {
    var b := AnswerFor(answers, a.questionId).value;
    var i :| 0 <= i < |answers| && answers[i] == a;
    var j :| 0 <= j < |answers| && answers[j] == b;
    assert i == j;
  }

  /** The map behind an upsert: the new answer, and the old ones to other questions. */
  lemma UpsertMap(request: Request, answers: seq<Answer>, answer: Answer) returns (m: map<string, Answer>)
    requires DistinctAnswers(answers)
    ensures Upsert(request, answers, answer) == InQuestionOrder(request.questions, m) && KeyedById(m)
    ensures answer.questionId in m && m[answer.questionId] == answer
    ensures forall a :: a in answers && a.questionId != answer.questionId ==> a.questionId in m && m[a.questionId] == a
    ensures forall id :: id in m && id != answer.questionId ==> m[id] in answers
  {
    ByQuestionFinds(answers);
    hide InQuestionOrder, DistinctAnswers, ByQuestion;
    m := ByQuestion(answers)[answer.questionId := answer];
  }

  lemma CanonicalIsAsked(request: Request, a: Answer)
    requires CanonicalFor(request, a)
    ensures Asks(request.questions, a.questionId)
  {
  }

  lemma UpsertedIsFound(request: Request, answers: seq<Answer>, answer: Answer)
    requires DistinctQuestions(request.questions) && DistinctAnswers(answers) && CanonicalFor(request, answer)
    ensures AnswerFor(Upsert(request, answers, answer), answer.questionId) == Some(answer)
    ensures DistinctAnswers(Upsert(request, answers, answer))
  {
    CanonicalIsAsked(request, answer);
    var m := UpsertMap(request, answers, answer);
    OrderHolds(request.questions, m, answer);
    OrderIsDistinct(request.questions, m);
    hide CanonicalFor, DistinctAnswers, DistinctQuestions, ByQuestion, InQuestionOrder, Upsert, Asks, KeyedById, AnswerFor;
    AnswerForUnique(Upsert(request, answers, answer), answer);
  }

  lemma UpsertKeepsOther(request: Request, answers: seq<Answer>, answer: Answer, id: string)
    requires ValidRecord(request, answers, false) && id != answer.questionId
    ensures AnswerFor(Upsert(request, answers, answer), id) == AnswerFor(answers, id)
  {
    RequestAsksOnce(request);
    hide ValidRequest, CanonicalFor, DistinctAnswers, DistinctQuestions, ByQuestion, InQuestionOrder, Upsert, KeyedById, Asks;
    var m := UpsertMap(request, answers, answer);
    var r := Upsert(request, answers, answer);
    if AnswerFor(answers, id).Some? {
      var a := AnswerFor(answers, id).value;
      CanonicalIsAsked(request, a);
      OrderHolds(request.questions, m, a);
      OrderIsDistinct(request.questions, m);
      AnswerForUnique(r, a);
    } else if AnswerFor(r, id).Some? {
      OrderHolds(request.questions, m, AnswerFor(r, id).value);
    }
  }

  lemma RequestAsksOnce(request: Request)
    requires ValidRequest(request)
    ensures DistinctQuestions(request.questions)
  {
  }

  lemma UpsertIsCanonical(request: Request, answers: seq<Answer>, answer: Answer)
    requires ValidRecord(request, answers, false) && CanonicalFor(request, answer)
    ensures ValidRecord(request, Upsert(request, answers, answer), false)
  {
    RequestAsksOnce(request);
    hide ValidRequest, CanonicalFor, DistinctAnswers, DistinctQuestions, ByQuestion, InQuestionOrder, Upsert, KeyedById, Asks;
    var m := UpsertMap(request, answers, answer);
    var r := Upsert(request, answers, answer);
    OrderIsDistinct(request.questions, m);
    forall a | a in r ensures CanonicalFor(request, a) {
      OrderHolds(request.questions, m, a);
    }
  }

  lemma UpsertCompletes(request: Request, answers: seq<Answer>, answer: Answer)
    requires ValidRecord(request, answers, false) && CanonicalFor(request, answer)
    ensures Complete(request, Upsert(request, answers, answer)) <==>
            forall q :: q in request.questions ==> q.id == answer.questionId || AnswerFor(answers, q.id).Some?
  {
    RequestAsksOnce(request);
    hide ValidRequest, CanonicalFor, DistinctAnswers, DistinctQuestions, ByQuestion, InQuestionOrder, Upsert, KeyedById, Asks,
      AnswerFor;
    var m := UpsertMap(request, answers, answer);
    OrderLength(request.questions, m);
    UpsertedIsFound(request, answers, answer);
    forall q | q in request.questions ensures q.id in m <==> AnswerFor(Upsert(request, answers, answer), q.id).Some? {
      OrderAnswers(request.questions, m, q);
    }
    forall q | q in request.questions && q.id != answer.questionId
      ensures AnswerFor(Upsert(request, answers, answer), q.id) == AnswerFor(answers, q.id)
    {
      UpsertKeepsOther(request, answers, answer, q.id);
    }
  }

  /** A question is answered in the record exactly when the map has an answer for it. */
  lemma OrderAnswers(questions: seq<Question>, m: map<string, Answer>, q: Question)
    requires q in questions && KeyedById(m)
    ensures q.id in m <==> AnswerFor(InQuestionOrder(questions, m), q.id).Some?
  {
    hide InQuestionOrder;
    var r := InQuestionOrder(questions, m);
    if q.id in m {
      OrderHolds(questions, m, m[q.id]);
    }
    if AnswerFor(r, q.id).Some? {
      OrderHolds(questions, m, AnswerFor(r, q.id).value);
    }
  }

  /** Recording a canonical answer: it is what a lookup then finds, every other question keeps
      its answer, and the record stays one of canonical answers, at most one per question. */
  lemma UpsertThenLookup(request: Request, answers: seq<Answer>, answer: Answer)
    requires ValidRecord(request, answers, false) && CanonicalFor(request, answer)
    ensures var r := Upsert(request, answers, answer);
            && AnswerFor(r, answer.questionId) == Some(answer)
            && (forall id :: id != answer.questionId ==> AnswerFor(r, id) == AnswerFor(answers, id))
            && ValidRecord(request, r, false)
            && (Complete(request, r) <==>
                 forall q :: q in request.questions ==> q.id == answer.questionId || AnswerFor(answers, q.id).Some?)
  {
    RequestAsksOnce(request);
    UpsertedIsFound(request, answers, answer);
    UpsertIsCanonical(request, answers, answer);
    UpsertCompletes(request, answers, answer);
    hide ValidRecord, CanonicalFor, Complete, AnswerFor, Upsert;
    forall id | id != answer.questionId ensures AnswerFor(Upsert(request, answers, answer), id) == AnswerFor(answers, id) {
      UpsertKeepsOther(request, answers, answer, id);
    }
  }

  function Position(questions: seq<Question>, id: string): nat {
    if questions == [] then 0
    else if questions[|questions| - 1].id == id then |questions| - 1
    else Position(questions[..|questions| - 1], id)
  }

  /** Question positions rise along a record: answers stand in the order of the questions. */
  lemma {:induction false} AnswersFollowQuestions(questions: seq<Question>, m: map<string, Answer>)
    requires DistinctQuestions(questions)
    requires forall id :: id in m ==> m[id].questionId == id
    ensures var r := InQuestionOrder(questions, m);
            && (forall i, j :: 0 <= i < j < |r| ==> Position(questions, r[i].questionId) < Position(questions, r[j].questionId))
            && (forall i :: 0 <= i < |r| ==> Position(questions, r[i].questionId) < |questions|)
  {
    if questions != [] {
      var front, last := questions[..|questions| - 1], questions[|questions| - 1];
      LastIsNew(questions);
      AnswersFollowQuestions(front, m);
      InQuestionOrderHolds(front, m);
      var r, shorter := InQuestionOrder(questions, m), InQuestionOrder(front, m);
      hide InQuestionOrder, DistinctQuestions, DistinctAnswers;
      forall i | 0 <= i < |shorter| ensures Position(questions, shorter[i].questionId) == Position(front, shorter[i].questionId) {
        assert shorter[i] in shorter;
      }
      assert r == shorter || (last.id in m && r == shorter + [m[last.id]]);
    }
  }
}
