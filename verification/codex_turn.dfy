/** How a Codex turn's event stream is folded into normalized events and a final decision. */
module CodexTurn {
  import opened Text

  datatype ItemPhase = ItemStarted | ItemUpdated | ItemCompleted
  datatype CallStatus = InProgress | CallEnded

  // AgentMessage is a completed message item; messages still being written are among the other items.
  datatype Event =
    | ThreadStarted(sdkThreadId: string)
    | TurnStarted
    | McpCall(phase: ItemPhase, id: string, status: CallStatus)
    | AgentMessage(text: string)
    | OtherItem(phase: ItemPhase)
    | TurnCompleted
    | TurnFailed(message: string)
    | StreamError(message: string)

  // How the event source stops when the turn has not ended before.
  datatype Ending = Exhausted | SourceThrows(message: string)

  datatype Note<D> =
    | ThreadStartedNote(sdkThreadId: string)
    | TurnStartedNote
    | ItemNote(event: Event)
    | FinalDecisionNote(decision: D)
    | TurnCompletedNote
    | TurnFailedNote(message: string)
    | TurnCancelledNote
  {
    predicate Terminal() {
      TurnCompletedNote? || TurnFailedNote? || TurnCancelledNote?
    }
  }

  datatype TurnStatus = StatusRunning | StatusCompleted | StatusCancelled | StatusFailed
  datatype TurnRecord<D> = TurnRecord(status: TurnStatus, events: seq<Note<D>>, failure: Option<string>)

  const STREAM_ENDED := "stream ended before a terminal event"
  const CALLS_ACTIVE := "turn completed while tool calls are active"
  const NO_DECISION := "turn completed without a final decision"
  const BAD_DECISION := "final decision does not parse"
  const OTHER_THREAD := "thread id differs from the record"

  // ---------------------------------------------------------------- the fold

  datatype Stop = Going | Ended | Threw(message: string)

  datatype State<D> = State(notes: seq<Note<D>>, pending: Option<D>, active: set<string>, sdkThreadId: Option<string>, stop: Stop)

  /** One event. `parse` is the parser of final decisions; it yields nothing when it fails. */
  function Step<D>(s: State<D>, e: Event, parse: string -> Option<D>): State<D>
    requires s.stop.Going?
  {
    match e
    case McpCall(_, id, InProgress) => s.(active := s.active + {id}, pending := None, notes := s.notes + [ItemNote(e)])
    case McpCall(_, id, CallEnded) => s.(active := s.active - {id}, notes := s.notes + [ItemNote(e)])
    case AgentMessage(text) =>
      if s.active != {} then s.(notes := s.notes + [ItemNote(e)])
      else if parse(text).None? then s.(stop := Threw(BAD_DECISION))
      else s.(pending := parse(text), notes := s.notes + [ItemNote(e)])
    case TurnCompleted =>
      if s.active != {} then s.(stop := Threw(CALLS_ACTIVE))
      else if s.pending.None? then s.(stop := Threw(NO_DECISION))
      else s.(notes := s.notes + [FinalDecisionNote(s.pending.value), TurnCompletedNote], stop := Ended)
    case ThreadStarted(id) =>
      if s.sdkThreadId.Some? && s.sdkThreadId.value != id then s.(stop := Threw(OTHER_THREAD))
      else s.(sdkThreadId := Some(id), notes := s.notes + [ThreadStartedNote(id)])
    case TurnStarted => s.(notes := s.notes + [TurnStartedNote])
    case OtherItem(_) => s.(notes := s.notes + [ItemNote(e)])
    case TurnFailed(message) => s.(notes := s.notes + [TurnFailedNote(message)], stop := Ended)
    case StreamError(message) => s.(notes := s.notes + [TurnFailedNote(message)], stop := Ended)
  }

  function Fold<D>(events: seq<Event>, sdkThreadId: Option<string>, parse: string -> Option<D>): State<D> {
    if events == [] then State([], None, {}, sdkThreadId, Going)
    else
      var before := Fold(events[..|events| - 1], sdkThreadId, parse);
      if before.stop.Going? then Step(before, events[|events| - 1], parse) else before
  }

  /** The closing event of a turn that failed with an exception. */
  function Caught<D>(message: string, aborted: bool): Note<D> {
    if aborted then TurnCancelledNote else TurnFailedNote(message)
  }

  /** All normalized events of a turn. */
  function Notes<D>(s: State<D>, ending: Ending, aborted: bool): seq<Note<D>> {
    match s.stop
    case Ended => s.notes
    case Threw(message) => s.notes + [Caught(message, aborted)]
    case Going =>
      match ending
      case Exhausted => s.notes + [TurnFailedNote(STREAM_ENDED)]
      case SourceThrows(message) => s.notes + [Caught(message, aborted)]
  }

  function RecordOf<D>(notes: seq<Note<D>>): TurnRecord<D> {
    if notes == [] then TurnRecord(StatusFailed, notes, None)
    else
      match notes[|notes| - 1]
      case TurnCompletedNote => TurnRecord(StatusCompleted, notes, None)
      case TurnCancelledNote => TurnRecord(StatusCancelled, notes, None)
      case TurnFailedNote(message) => TurnRecord(StatusFailed, notes, Some(message))
      case _ => TurnRecord(StatusFailed, notes, None)
  }

  // ---------------------------------------------------------------- the service

  class TurnService<D> {
    var activeTurns: map<string, string>
    var turns: map<string, TurnRecord<D>>

    constructor ()
      ensures activeTurns == map[] && turns == map[]
    {
      activeTurns, turns := map[], map[];
    }

    /** Records how a consumed turn ended and forgets that it is active. */
    method FinalizeConsumedTurn(turnId: string, notes: seq<Note<D>>, ephemeral: bool)
      modifies this
      ensures activeTurns == old(activeTurns) - {turnId}
      ensures turns == if !ephemeral && turnId in old(turns) then old(turns)[turnId := RecordOf(notes)] else old(turns)
    {
      activeTurns := activeTurns - {turnId};
      if ephemeral {
        return;
      }
      var status, failure := StatusFailed, None;
      if |notes| > 0 {
        var last := notes[|notes| - 1];
        status := if last.TurnCompletedNote? then StatusCompleted else if last.TurnCancelledNote? then StatusCancelled else StatusFailed;
        failure := if last.TurnFailedNote? then Some(last.message) else None;
      }
      if turnId in turns {
        turns := turns[turnId := TurnRecord(status, notes, failure)];
      }
    }

    method ConsumeEvents(turnId: string, events: seq<Event>, ending: Ending, aborted: bool, ephemeral: bool,
                         known: Option<string>, parse: string -> Option<D>)
      returns (notes: seq<Note<D>>)
      modifies this
      ensures notes == Notes(Fold(events, known, parse), ending, aborted)
      ensures activeTurns == old(activeTurns) - {turnId}
      ensures turns == if !ephemeral && turnId in old(turns) then old(turns)[turnId := RecordOf(notes)] else old(turns)
    {
      hide RecordOf;
      var s := FoldEvents(events, known, parse);
      notes := s.notes;
      if s.stop.Threw? || (s.stop.Going? && ending.SourceThrows?) {
        var message := if s.stop.Threw? then s.stop.message else ending.message;
        notes := notes + [if aborted then TurnCancelledNote else TurnFailedNote(message)];
      } else if s.stop.Going? {
        notes := notes + [TurnFailedNote(STREAM_ENDED)];
      }
      FinalizeConsumedTurn(turnId, notes, ephemeral);
    }
  }

  /** The loop over the event source, up to the terminal event or an exception. */
  method FoldEvents<D>(events: seq<Event>, known: Option<string>, parse: string -> Option<D>) returns (s: State<D>)
    ensures s == Fold(events, known, parse)
  {
    var notes: seq<Note<D>>, pending: Option<D>, active: set<string>, sdkThreadId := [], None, {}, known;
    for i := 0 to |events|
      invariant State(notes, pending, active, sdkThreadId, Going) == Fold(events[..i], known, parse)
    {
      var event := events[i];
      assert events[..i + 1][..i] == events[..i];
      ghost var next := Step(State(notes, pending, active, sdkThreadId, Going), event, parse);
      FoldStops(events, i + 1, known, parse);
      if event.McpCall? {
        if event.status.InProgress? {
          active := active + {event.id};
          pending := None;
        } else {
          active := active - {event.id};
        }
      }
      if event.AgentMessage? {
        if active == {} {
          var decision := parse(event.text);
          if decision.None? {
            return State(notes, pending, active, sdkThreadId, Threw(BAD_DECISION));
          }
          pending := decision;
        }
        notes := notes + [ItemNote(event)];
        continue;
      }
      if event.TurnCompleted? {
        if active != {} {
          return State(notes, pending, active, sdkThreadId, Threw(CALLS_ACTIVE));
        }
        if pending.None? {
          return State(notes, pending, active, sdkThreadId, Threw(NO_DECISION));
        }
        notes := notes + [FinalDecisionNote(pending.value)];
        notes := notes + [TurnCompletedNote];
        return State(notes, pending, active, sdkThreadId, Ended);
      }
      if event.ThreadStarted? {
        if sdkThreadId.Some? && sdkThreadId.value != event.sdkThreadId {
          return State(notes, pending, active, sdkThreadId, Threw(OTHER_THREAD));
        }
        sdkThreadId := Some(event.sdkThreadId);
      }
      var note := Normalize(event);
      notes := notes + [note];
      if note.TurnFailedNote? {
        return State(notes, pending, active, sdkThreadId, Ended);
      }
    }
    assert events[..|events|] == events;
    return State(notes, pending, active, sdkThreadId, Going);
  }

  function Normalize<D>(e: Event): Note<D>
    requires !e.TurnCompleted?
  {
    match e
    case ThreadStarted(id) => ThreadStartedNote(id)
    case TurnStarted => TurnStartedNote
    case TurnFailed(message) => TurnFailedNote(message)
    case StreamError(message) => TurnFailedNote(message)
    case _ => ItemNote(e)
  }

  /** Once the fold has stopped, later events change nothing. */
  lemma {:induction false} FoldStops<D>(events: seq<Event>, n: nat, known: Option<string>, parse: string -> Option<D>)
    requires n <= |events|
    ensures !Fold(events[..n], known, parse).stop.Going? ==> Fold(events, known, parse) == Fold(events[..n], known, parse)
    decreases |events|
  {
    if n == |events| {
      assert events[..n] == events;
    } else {
      assert events[..|events| - 1][..n] == events[..n];
      FoldStops(events[..|events| - 1], n, known, parse);
    }
  }

  // ---------------------------------------------------------------- what the fold means

  /** The last word on a tool call is that it is in progress. */
  predicate CallRuns(events: seq<Event>, id: string) {
    exists k :: 0 <= k < |events| && StartsCall(events[k]) && events[k].id == id && !EndsLater(events, k, id)
  }

  predicate StartsCall(e: Event) {
    e.McpCall? && e.status.InProgress?
  }

  predicate EndsLater(events: seq<Event>, k: nat, id: string) {
    exists j :: k < j < |events| && events[j].McpCall? && events[j].status.CallEnded? && events[j].id == id
  }

  lemma {:induction false} ActiveExactly<D>(events: seq<Event>, known: Option<string>, parse: string -> Option<D>, id: string)
    requires Fold(events, known, parse).stop.Going?
    ensures id in Fold(events, known, parse).active <==> CallRuns(events, id)
  {
    if events != [] {
      var n := |events| - 1;
      var front, e := events[..n], events[n];
      ActiveExactly(front, known, parse, id);
      hide Fold;
      assert id in Fold(events, known, parse).active <==>
             if e.McpCall? && e.id == id then StartsCall(e) else id in Fold(front, known, parse).active by { ActiveStep(events, known, parse, id); }
      if e.McpCall? && e.id == id {
        if StartsCall(e) {
          assert !EndsLater(events, n, id);
        } else {
          forall k | 0 <= k < n ensures EndsLater(events, k, id) {
          }
        }
      } else {
        forall k | 0 <= k < n ensures EndsLater(events, k, id) <==> EndsLater(front, k, id) {
          LaterSame(events, k, id);
        }
        assert forall k :: 0 <= k < n ==> events[k] == front[k];
      }
    }
  }

  lemma LaterSame(events: seq<Event>, k: nat, id: string)
    requires k < |events| - 1 && !(events[|events| - 1].McpCall? && events[|events| - 1].id == id)
    ensures EndsLater(events, k, id) <==> EndsLater(events[..|events| - 1], k, id)
  {
    var front := events[..|events| - 1];
    if j :| k < j < |front| && front[j].McpCall? && front[j].status.CallEnded? && front[j].id == id {
      assert events[j] == front[j];
    }
    if j :| k < j < |events| && events[j].McpCall? && events[j].status.CallEnded? && events[j].id == id {
      assert front[j] == events[j];
    }
  }

  lemma ActiveStep<D>(events: seq<Event>, known: Option<string>, parse: string -> Option<D>, id: string)
    requires events != [] && Fold(events, known, parse).stop.Going?
    ensures Fold(events[..|events| - 1], known, parse).stop.Going?
    ensures var e := events[|events| - 1];
            id in Fold(events, known, parse).active <==>
            if e.McpCall? && e.id == id then StartsCall(e) else id in Fold(events[..|events| - 1], known, parse).active
  {
  }

  ghost predicate Quiet(events: seq<Event>) {
    forall id :: !CallRuns(events, id)
  }

  lemma QuietExactly<D>(events: seq<Event>, known: Option<string>, parse: string -> Option<D>)
    requires Fold(events, known, parse).stop.Going?
    ensures Fold(events, known, parse).active == {} <==> Quiet(events)
  {
    hide Fold, CallRuns;
    forall id ensures id in Fold(events, known, parse).active <==> CallRuns(events, id) {
      ActiveExactly(events, known, parse, id);
    }
  }

  // ---------------------------------------------------------------- when the fold goes on

  predicate EndsTurn(e: Event) {
    e.TurnCompleted? || e.TurnFailed? || e.StreamError?
  }

  /** All thread ids of the stream agree with each other and with the known one. */
  predicate OneThread(events: seq<Event>, known: Option<string>) {
    && (forall i :: 0 <= i < |events| && events[i].ThreadStarted? && known.Some? ==> events[i].sdkThreadId == known.value)
    && forall i, j :: 0 <= i < j < |events| && events[i].ThreadStarted? && events[j].ThreadStarted? ==>
                        events[i].sdkThreadId == events[j].sdkThreadId
  }

  /** A message is said at k while no tool call runs, so that it is parsed. */
  ghost predicate Parsed(events: seq<Event>, k: nat) {
    k < |events| && events[k].AgentMessage? && Quiet(events[..k])
  }

  /** Nothing has ended the turn: no terminal event, one thread, and every parsed message parses. */
  ghost predicate Undisturbed<D>(events: seq<Event>, known: Option<string>, parse: string -> Option<D>) {
    && (forall k :: 0 <= k < |events| ==> !EndsTurn(events[k]))
    && OneThread(events, known)
    && forall k: nat :: Parsed(events, k) ==> parse(events[k].text).Some?
  }

  lemma {:induction false} ThreadOf<D>(events: seq<Event>, known: Option<string>, parse: string -> Option<D>)
    requires Fold(events, known, parse).stop.Going?
    ensures known.Some? ==> Fold(events, known, parse).sdkThreadId == known
    ensures forall i :: 0 <= i < |events| && events[i].ThreadStarted? ==> Fold(events, known, parse).sdkThreadId == Some(events[i].sdkThreadId)
    ensures (forall i :: 0 <= i < |events| ==> !events[i].ThreadStarted?) ==> Fold(events, known, parse).sdkThreadId == known
  {
    if events != [] {
      var front := events[..|events| - 1];
      ThreadOf(front, known, parse);
      assert forall i :: 0 <= i < |front| ==> front[i] == events[i];
    }
  }

  /** The thread id e names, if any, is the one of the events before it. */
  predicate SameThread(front: seq<Event>, known: Option<string>, e: Event) {
    e.ThreadStarted? ==>
      && (known.Some? ==> e.sdkThreadId == known.value)
      && forall i :: 0 <= i < |front| && front[i].ThreadStarted? ==> front[i].sdkThreadId == e.sdkThreadId
  }

  lemma OneThreadFront(front: seq<Event>, e: Event, known: Option<string>)
    requires OneThread(front + [e], known)
    ensures OneThread(front, known) && SameThread(front, known, e)
  {
    var events := front + [e];
    assert events[|front|] == e;
    forall i | 0 <= i < |front| && front[i].ThreadStarted?
      ensures known.Some? ==> front[i].sdkThreadId == known.value
      ensures e.ThreadStarted? ==> front[i].sdkThreadId == e.sdkThreadId
    {
      assert events[i] == front[i];
    }
    forall i, j | 0 <= i < j < |front| && front[i].ThreadStarted? && front[j].ThreadStarted?
      ensures front[i].sdkThreadId == front[j].sdkThreadId
    {
      assert events[i] == front[i] && events[j] == front[j];
    }
  }

  lemma OneThreadLonger(front: seq<Event>, e: Event, known: Option<string>)
    requires OneThread(front, known) && SameThread(front, known, e)
    ensures OneThread(front + [e], known)
  {
    var events := front + [e];
    forall i | 0 <= i < |events| && events[i].ThreadStarted? && known.Some? ensures events[i].sdkThreadId == known.value {
      assert i < |front| ==> events[i] == front[i];
    }
    forall i, j | 0 <= i < j < |events| && events[i].ThreadStarted? && events[j].ThreadStarted?
      ensures events[i].sdkThreadId == events[j].sdkThreadId
    {
      assert events[i] == front[i];
      assert j < |front| ==> events[j] == front[j];
    }
  }

  lemma OneThreadMore(front: seq<Event>, e: Event, known: Option<string>)
    ensures OneThread(front + [e], known) <==> OneThread(front, known) && SameThread(front, known, e)
  {
    hide OneThread, SameThread;
    if OneThread(front + [e], known) {
      OneThreadFront(front, e, known);
    }
    if OneThread(front, known) && SameThread(front, known, e) {
      OneThreadLonger(front, e, known);
    }
  }

  lemma UndisturbedMore<D>(front: seq<Event>, e: Event, known: Option<string>, parse: string -> Option<D>)
    ensures Undisturbed(front + [e], known, parse) <==>
            && Undisturbed(front, known, parse) && !EndsTurn(e) && SameThread(front, known, e)
            && (e.AgentMessage? && Quiet(front) ==> parse(e.text).Some?)
  {
    hide Quiet, OneThread, SameThread;
    var events := front + [e];
    OneThreadMore(front, e, known);
    assert forall k :: 0 <= k < |front| ==> events[k] == front[k];
    assert events[|front|] == e && events[..|front|] == front;
    forall k | 0 <= k < |front| ensures Parsed(events, k) <==> Parsed(front, k) {
      assert events[..k] == front[..k];
    }
    assert Parsed(events, |front|) <==> e.AgentMessage? && Quiet(front);
  }

  lemma StepGoesOn<D>(s: State<D>, e: Event, parse: string -> Option<D>)
    requires s.stop.Going?
    ensures Step(s, e, parse).stop.Going? <==>
            && !EndsTurn(e)
            && (e.ThreadStarted? ==> s.sdkThreadId.None? || s.sdkThreadId.value == e.sdkThreadId)
            && (e.AgentMessage? && s.active == {} ==> parse(e.text).Some?)
  {
  }

  /** The fold is still going exactly when nothing has ended the turn. */
  lemma {:induction false} UndisturbedExactly<D>(events: seq<Event>, known: Option<string>, parse: string -> Option<D>)
    ensures Fold(events, known, parse).stop.Going? <==> Undisturbed(events, known, parse)
  {
    if events != [] {
      var front, e := events[..|events| - 1], events[|events| - 1];
      UndisturbedExactly(front, known, parse);
      assert events == front + [e];
      UndisturbedMore(front, e, known, parse);
      var s := Fold(front, known, parse);
      if s.stop.Going? {
        StepGoesOn(s, e, parse);
        ThreadOf(front, known, parse);
        QuietExactly(front, known, parse);
        hide Step, Quiet, Undisturbed;
        ThreadTells(front, known, e, s.sdkThreadId);
      }
    }
  }

  lemma ThreadTells(front: seq<Event>, known: Option<string>, e: Event, thread: Option<string>)
    requires known.Some? ==> thread == known
    requires forall i :: 0 <= i < |front| && front[i].ThreadStarted? ==> thread == Some(front[i].sdkThreadId)
    requires (forall i :: 0 <= i < |front| ==> !front[i].ThreadStarted?) ==> thread == known
    ensures SameThread(front, known, e) <==> (e.ThreadStarted? ==> thread.None? || thread.value == e.sdkThreadId)
  {
  }

  // ---------------------------------------------------------------- the last word

  /** Message k is the last one of the stream, and no tool call ran then or was started since. */
  ghost predicate LastWord(events: seq<Event>, k: nat) {
    && Parsed(events, k)
    && forall j :: k < j < |events| ==> !events[j].AgentMessage? && !StartsCall(events[j])
  }

  lemma {:induction false} LastWordSettles<D>(events: seq<Event>, known: Option<string>, parse: string -> Option<D>, k: nat)
    requires Fold(events, known, parse).stop.Going? && LastWord(events, k)
    ensures parse(events[k].text).Some? && Fold(events, known, parse).pending == parse(events[k].text)
    ensures Fold(events, known, parse).active == {}
  {
    hide Quiet;
    var n := |events| - 1;
    var front := events[..n];
    if k < n {
      assert front[..k] == events[..k];
      assert forall j :: k <= j < n ==> front[j] == events[j];
      LastWordSettles(front, known, parse, k);
    } else {
      assert events[..k] == front;
      QuietExactly(front, known, parse);
    }
  }

  lemma {:induction false} PendingHasLastWord<D>(events: seq<Event>, known: Option<string>, parse: string -> Option<D>) returns (k: nat)
    requires Fold(events, known, parse).stop.Going? && Fold(events, known, parse).pending.Some?
    ensures LastWord(events, k)
  {
    hide Quiet;
    var n := |events| - 1;
    var front := events[..n];
    if events[n].AgentMessage? && Fold(front, known, parse).active == {} {
      assert events[..n] == front;
      QuietExactly(front, known, parse);
      k := n;
    } else {
      k := PendingHasLastWord(front, known, parse);
      LastWordSettles(front, known, parse, k);
      assert front[..k] == events[..k];
      assert forall j :: k <= j < n ==> front[j] == events[j];
    }
  }

  /** A decision is pending exactly when the stream has a last word; it is the parse of that message,
      and no tool call is active. */
  lemma PendingExactly<D>(events: seq<Event>, known: Option<string>, parse: string -> Option<D>)
    requires Fold(events, known, parse).stop.Going?
    ensures Fold(events, known, parse).pending.Some? <==> exists k: nat :: LastWord(events, k)
    ensures forall k: nat :: LastWord(events, k) ==> Fold(events, known, parse).pending == parse(events[k].text)
    ensures Fold(events, known, parse).pending.Some? ==> Fold(events, known, parse).active == {}
  {
    hide Fold, Quiet;
    if Fold(events, known, parse).pending.Some? {
      var k := PendingHasLastWord(events, known, parse);
      LastWordSettles(events, known, parse, k);
    }
    forall k: nat | LastWord(events, k)
      ensures Fold(events, known, parse).pending.Some? && Fold(events, known, parse).pending == parse(events[k].text)
    {
      LastWordSettles(events, known, parse, k);
    }
  }

  // ---------------------------------------------------------------- how turns end

  predicate NoTerminal<D>(notes: seq<Note<D>>) {
    forall i :: 0 <= i < |notes| ==> !notes[i].Terminal()
  }

  lemma {:induction false} GoingHasNoTerminal<D>(events: seq<Event>, known: Option<string>, parse: string -> Option<D>)
    ensures !Fold(events, known, parse).stop.Ended? ==> NoTerminal(Fold(events, known, parse).notes)
    ensures Fold(events, known, parse).stop.Ended? ==>
              && Fold(events, known, parse).notes != []
              && NoTerminal(Fold(events, known, parse).notes[..|Fold(events, known, parse).notes| - 1])
              && Fold(events, known, parse).notes[|Fold(events, known, parse).notes| - 1].Terminal()
              && !Fold(events, known, parse).notes[|Fold(events, known, parse).notes| - 1].TurnCancelledNote?
  {
    if events != [] {
      GoingHasNoTerminal(events[..|events| - 1], known, parse);
    }
  }

  /** Every turn ends with exactly one terminal event, and it is the last one. */
  lemma OneTerminalNote<D>(events: seq<Event>, ending: Ending, aborted: bool, known: Option<string>, parse: string -> Option<D>)
    ensures var notes := Notes(Fold(events, known, parse), ending, aborted);
            notes != [] && notes[|notes| - 1].Terminal() && NoTerminal(notes[..|notes| - 1])
  {
    GoingHasNoTerminal(events, known, parse);
    hide Fold;
    var s := Fold(events, known, parse);
    if !s.stop.Ended? {
      var notes := Notes(s, ending, aborted);
      assert notes[..|notes| - 1] == s.notes;
    }
  }

  /** The turn is completed at event n: nothing ended it before, and the stream has a last word. */
  ghost predicate CompletesAt<D>(events: seq<Event>, known: Option<string>, parse: string -> Option<D>, n: nat) {
    && n < |events| && events[n].TurnCompleted?
    && Undisturbed(events[..n], known, parse)
    && exists k: nat :: LastWord(events[..n], k)
  }

  lemma {:induction false} StopPoint<D>(events: seq<Event>, known: Option<string>, parse: string -> Option<D>) returns (n: nat)
    requires !Fold(events, known, parse).stop.Going?
    ensures n < |events| && Fold(events[..n], known, parse).stop.Going?
    ensures Fold(events, known, parse) == Step(Fold(events[..n], known, parse), events[n], parse)
  {
    var front := events[..|events| - 1];
    if Fold(front, known, parse).stop.Going? {
      n := |front|;
    } else {
      n := StopPoint(front, known, parse);
      assert front[..n] == events[..n];
    }
  }

  /** The notes of a turn completed at event n whose last word is message k. */
  ghost predicate EndsWithDecision<D>(notes: seq<Note<D>>, before: seq<Note<D>>, decision: Option<D>) {
    decision.Some? && notes == before + [FinalDecisionNote(decision.value), TurnCompletedNote]
  }

  lemma CompletesThere<D>(events: seq<Event>, known: Option<string>, parse: string -> Option<D>, n: nat, k: nat)
    requires CompletesAt(events, known, parse, n) && LastWord(events[..n], k)
    ensures Fold(events, known, parse).stop == Ended
    ensures EndsWithDecision(Fold(events, known, parse).notes, Fold(events[..n], known, parse).notes, parse(events[k].text))
  {
    var front := events[..n];
    UndisturbedExactly(front, known, parse);
    LastWordSettles(front, known, parse, k);
    hide LastWord, Undisturbed;
    assert events[..n + 1][..n] == front;
    FoldStops(events, n + 1, known, parse);
  }

  /** The stored status is completed exactly when the stream reaches a turn.completed that nothing
      forestalled and that has a last word before it; then the parse of that message comes right
      before the completion. */
  lemma CompletedExactly<D>(events: seq<Event>, ending: Ending, aborted: bool, known: Option<string>, parse: string -> Option<D>)
    ensures RecordOf(Notes(Fold(events, known, parse), ending, aborted)).status == StatusCompleted <==>
            exists n: nat :: CompletesAt(events, known, parse, n)
    ensures forall n: nat, k: nat :: CompletesAt(events, known, parse, n) && LastWord(events[..n], k) ==>
              EndsWithDecision(Notes(Fold(events, known, parse), ending, aborted), Fold(events[..n], known, parse).notes, parse(events[k].text))
  {
    forall n: nat, k: nat | CompletesAt(events, known, parse, n) && LastWord(events[..n], k)
      ensures EndsWithDecision(Notes(Fold(events, known, parse), ending, aborted), Fold(events[..n], known, parse).notes, parse(events[k].text))
    {
      CompletesThere(events, known, parse, n, k);
      hide Fold;
    }
    if n: nat :| CompletesAt(events, known, parse, n) {
      var k: nat :| LastWord(events[..n], k);
      CompletesThere(events, known, parse, n, k);
    } else {
      NeverCompletes(events, ending, aborted, known, parse);
    }
  }

  lemma NeverCompletes<D>(events: seq<Event>, ending: Ending, aborted: bool, known: Option<string>, parse: string -> Option<D>)
    requires forall n: nat :: !CompletesAt(events, known, parse, n)
    ensures RecordOf(Notes(Fold(events, known, parse), ending, aborted)).status != StatusCompleted
  {
    var s := Fold(events, known, parse);
    GoingHasNoTerminal(events, known, parse);
    if s.stop.Ended? {
      var n := StopPoint(events, known, parse);
      GoingHasNoTerminal(events[..n], known, parse);
      UndisturbedExactly(events[..n], known, parse);
      PendingExactly(events[..n], known, parse);
      hide Fold, Undisturbed, LastWord;
      assert !CompletesAt(events, known, parse, n);
    }
  }

  /** A completed turn hands over the parse of the last message before its end, with no tool call
      running when it was said, none started since, and every started one ended. */
  lemma CompletedTurnIsSettled<D>(events: seq<Event>, known: Option<string>, parse: string -> Option<D>, n: nat) returns (k: nat)
    requires CompletesAt(events, known, parse, n)
    ensures k < n && events[k].AgentMessage? && Fold(events[..n], known, parse).pending == parse(events[k].text)
    ensures forall id :: !CallRuns(events[..k], id)
    ensures forall j :: k < j < n ==> !events[j].AgentMessage? && !StartsCall(events[j])
    ensures forall id :: !CallRuns(events[..n], id)
  {
    hide Fold, CallRuns, Undisturbed;
    var front := events[..n];
    UndisturbedExactly(front, known, parse);
    k :| LastWord(front, k);
    LastWordSettles(front, known, parse, k);
    QuietExactly(front, known, parse);
    assert front[..k] == events[..k];
    assert forall j :: 0 <= j < n ==> front[j] == events[j];
  }
}
