/** How a turn ends, and what is noted and stored of it, said on its events alone. */
module CodexEndings {
  import opened Text
  import opened CodexTurn

  // ---------------------------------------------------------------- what is forwarded

  /** What is noted of an event that does not end the turn. */
  function NoteOf<D>(e: Event): Note<D>
    requires !EndsTurn(e)
  {
    match e
    case ThreadStarted(id) => ThreadStartedNote(id)
    case TurnStarted => TurnStartedNote
    case McpCall(_, _, _) => ItemNote(e)
    case AgentMessage(_) => ItemNote(e)
    case OtherItem(_) => ItemNote(e)
  }

  function Forwarded<D>(events: seq<Event>): (notes: seq<Note<D>>)
    requires forall i :: 0 <= i < |events| ==> !EndsTurn(events[i])
    ensures |notes| == |events| && forall i :: 0 <= i < |notes| ==> notes[i] == NoteOf(events[i])
  {
    seq(|events|, i requires 0 <= i < |events| => NoteOf(events[i]))
  }

  lemma StepForwards<D>(s: State<D>, e: Event, parse: string -> Option<D>)
    requires s.stop.Going? && Step(s, e, parse).stop.Going?
    ensures !EndsTurn(e) && Step(s, e, parse).notes == s.notes + [NoteOf(e)]
  {
  }

  /** While nothing has ended the turn, one note stands for each event. */
  lemma {:induction false} UndisturbedForwards<D>(events: seq<Event>, known: Option<string>, parse: string -> Option<D>)
    requires Undisturbed(events, known, parse)
    ensures (forall i :: 0 <= i < |events| ==> !EndsTurn(events[i])) && Fold(events, known, parse).notes == Forwarded(events)
  {
    UndisturbedExactly(events, known, parse);
    if events == [] {
      assert Fold(events, known, parse).notes == [];
    } else {
      var front, e := events[..|events| - 1], events[|events| - 1];
      assert Fold(front, known, parse).stop.Going?;
      UndisturbedExactly(front, known, parse);
      UndisturbedForwards(front, known, parse);
      StepForwards(Fold(front, known, parse), e, parse);
      hide Step, NoteOf;
      assert Forwarded<D>(events) == Forwarded(front) + [NoteOf(e)];
    }
  }

  // ---------------------------------------------------------------- the four ways a turn ends

  // At event n with a decision, at event n that says so, at event n that is turned down, or not at all.
  datatype TurnEnd<D> = CompletedWith(n: nat, decision: D) | FailedBy(n: nat, message: string) | ThrewAt(n: nat, message: string) | RanOut

  /** The fold turns event n down: a message that is parsed and does not parse, another thread, or a
      completion while calls run or without a last word. */
  ghost predicate ThrowsAt<D>(events: seq<Event>, known: Option<string>, parse: string -> Option<D>, n: nat, message: string) {
    && n < |events| && Undisturbed(events[..n], known, parse)
    && var front, e := events[..n], events[n];
       || (e.AgentMessage? && Quiet(front) && parse(e.text).None? && message == BAD_DECISION)
       || (e.ThreadStarted? && !SameThread(front, known, e) && message == OTHER_THREAD)
       || (e.TurnCompleted? && !Quiet(front) && message == CALLS_ACTIVE)
       || (e.TurnCompleted? && Quiet(front) && (forall k: nat :: !LastWord(front, k)) && message == NO_DECISION)
  }

  ghost predicate FailsAt<D>(events: seq<Event>, known: Option<string>, parse: string -> Option<D>, n: nat, message: string) {
    && n < |events| && Undisturbed(events[..n], known, parse)
    && (events[n] == TurnFailed(message) || events[n] == StreamError(message))
  }

  ghost predicate DecidesAt<D>(events: seq<Event>, known: Option<string>, parse: string -> Option<D>, n: nat, decision: D) {
    && CompletesAt(events, known, parse, n)
    && exists k: nat :: LastWord(events[..n], k) && parse(events[k].text) == Some(decision)
  }

  ghost predicate EndsAs<D>(events: seq<Event>, known: Option<string>, parse: string -> Option<D>, end: TurnEnd<D>) {
    match end
    case CompletedWith(n, decision) => DecidesAt(events, known, parse, n, decision)
    case FailedBy(n, message) => FailsAt(events, known, parse, n, message)
    case ThrewAt(n, message) => ThrowsAt(events, known, parse, n, message)
    case RanOut => Undisturbed(events, known, parse)
  }

  function Length<D>(events: seq<Event>, end: TurnEnd<D>): nat {
    if end.RanOut? then |events| else end.n
  }

  /** What is noted last. */
  function Closing<D>(end: TurnEnd<D>, ending: Ending, aborted: bool): seq<Note<D>> {
    match end
    case CompletedWith(_, decision) => [FinalDecisionNote(decision), TurnCompletedNote]
    case FailedBy(_, message) => [TurnFailedNote(message)]
    case ThrewAt(_, message) => if aborted then [TurnCancelledNote] else [TurnFailedNote(message)]
    case RanOut =>
      if ending.Exhausted? then [TurnFailedNote("stream ended before a terminal event")]
      else if aborted then [TurnCancelledNote]
      else [TurnFailedNote(ending.message)]
  }

  /** What stands of the state before event n. */
  lemma StateBefore<D>(events: seq<Event>, known: Option<string>, parse: string -> Option<D>, n: nat)
    requires n < |events| && Undisturbed(events[..n], known, parse)
    ensures var front := events[..n]; var s := Fold(front, known, parse);
            && s.stop.Going? && s.notes == Fold(front, known, parse).notes
            && (s.active == {} <==> Quiet(front))
            && (s.pending.Some? <==> exists k: nat :: LastWord(front, k))
            && (forall k: nat :: LastWord(front, k) ==> s.pending == parse(front[k].text))
            && (SameThread(front, known, events[n]) <==>
                 (events[n].ThreadStarted? ==> s.sdkThreadId.None? || s.sdkThreadId.value == events[n].sdkThreadId))
  {
    var front := events[..n];
    UndisturbedExactly(front, known, parse);
    QuietExactly(front, known, parse);
    PendingExactly(front, known, parse);
    ThreadOf(front, known, parse);
    hide Fold, Quiet, LastWord, Undisturbed, SameThread;
    ThreadTells(front, known, events[n], Fold(front, known, parse).sdkThreadId);
  }

  lemma FoldAt<D>(events: seq<Event>, known: Option<string>, parse: string -> Option<D>, n: nat)
    requires n < |events| && Fold(events[..n], known, parse).stop.Going?
    ensures var s := Step(Fold(events[..n], known, parse), events[n], parse);
            !s.stop.Going? ==> Fold(events, known, parse) == s
  {
    assert events[..n + 1][..n] == events[..n];
    FoldStops(events, n + 1, known, parse);
  }

  /** Every turn ends in one of the four ways. */
  lemma EveryTurnEnds<D>(events: seq<Event>, known: Option<string>, parse: string -> Option<D>) returns (end: TurnEnd<D>)
    ensures EndsAs(events, known, parse, end)
  {
    UndisturbedExactly(events, known, parse);
    if Undisturbed(events, known, parse) {
      end := RanOut;
    } else {
      var n := StopPoint(events, known, parse);
      UndisturbedExactly(events[..n], known, parse);
      end := EndAt(events, known, parse, n);
    }
  }

  lemma EndAt<D>(events: seq<Event>, known: Option<string>, parse: string -> Option<D>, n: nat) returns (end: TurnEnd<D>)
    requires n < |events| && Undisturbed(events[..n], known, parse) && Fold(events[..n], known, parse).stop.Going?
    requires !Step(Fold(events[..n], known, parse), events[n], parse).stop.Going?
    ensures EndsAs(events, known, parse, end)
  {
    StateBefore(events, known, parse, n);
    var front, e := events[..n], events[n];
    StepGoesOn(Fold(front, known, parse), e, parse);
    hide Fold, Quiet, LastWord, Undisturbed, SameThread, Step;
    if e.TurnFailed? || e.StreamError? {
      end := FailedBy(n, e.message);
    } else if e.AgentMessage? {
      end := ThrewAt(n, BAD_DECISION);
    } else if e.ThreadStarted? {
      end := ThrewAt(n, OTHER_THREAD);
    } else if !Quiet(front) {
      end := ThrewAt(n, CALLS_ACTIVE);
    } else if k: nat :| LastWord(front, k) {
      WordIsInFront(front, k);
      assert front[k] == events[k];
      end := CompletedWith(n, Fold(front, known, parse).pending.value);
      assert LastWord(events[..n], k) && parse(events[k].text) == Some(end.decision);
    } else {
      end := ThrewAt(n, NO_DECISION);
    }
  }

  lemma WordIsInFront(front: seq<Event>, k: nat)
    requires LastWord(front, k)
    ensures k < |front|
  {
  }

  lemma WordIsQuiet<D>(front: seq<Event>, known: Option<string>, parse: string -> Option<D>, k: nat)
    requires Undisturbed(front, known, parse) && LastWord(front, k)
    ensures Fold(front, known, parse).active == {}
  {
    UndisturbedExactly(front, known, parse);
    LastWordSettles(front, known, parse, k);
  }

  lemma DecisionIsPending<D>(events: seq<Event>, known: Option<string>, parse: string -> Option<D>, n: nat, decision: D)
    requires DecidesAt(events, known, parse, n, decision)
    ensures n < |events| && events[n].TurnCompleted? && Undisturbed(events[..n], known, parse)
    ensures Fold(events[..n], known, parse).active == {} && Fold(events[..n], known, parse).pending == Some(decision)
  {
    hide Fold, Undisturbed;
    StateBefore(events, known, parse, n);
    var k: nat :| LastWord(events[..n], k) && parse(events[k].text) == Some(decision);
    assert events[..n][k] == events[k];
    WordIsQuiet(events[..n], known, parse, k);
  }

  /** The fold at the end of the turn, by the way it ends. */
  lemma FoldOfEnd<D>(events: seq<Event>, known: Option<string>, parse: string -> Option<D>, end: TurnEnd<D>)
    requires EndsAs(events, known, parse, end)
    ensures Length(events, end) <= |events| && Undisturbed(events[..Length(events, end)], known, parse)
    ensures var s, before := Fold(events, known, parse), Fold(events[..Length(events, end)], known, parse).notes;
            match end
            case CompletedWith(_, decision) => s.stop.Ended? && s.notes == before + [FinalDecisionNote(decision), TurnCompletedNote]
            case FailedBy(_, message) => s.stop.Ended? && s.notes == before + [TurnFailedNote(message)]
            case ThrewAt(_, message) => s.stop == Threw(message) && s.notes == before
            case RanOut => s.stop.Going? && s.notes == before
  {
    hide Fold, Quiet, LastWord, Undisturbed, SameThread, CompletesAt, DecidesAt;
    if end.RanOut? {
      UndisturbedExactly(events, known, parse);
      assert events[..|events|] == events;
    } else {
      if end.CompletedWith? {
        DecisionIsPending(events, known, parse, end.n, end.decision);
      }
      StateBefore(events, known, parse, end.n);
      FoldAt(events, known, parse, end.n);
    }
  }

  /** All notes of a turn: one for each event before its end, and then what its end leaves. */
  lemma NotesExactly<D>(events: seq<Event>, ending: Ending, aborted: bool, known: Option<string>, parse: string -> Option<D>, end: TurnEnd<D>)
    requires EndsAs(events, known, parse, end)
    ensures var n := Length(events, end);
            && n <= |events| && (forall i :: 0 <= i < n ==> !EndsTurn(events[i]))
            && Notes(Fold(events, known, parse), ending, aborted) == Forwarded(events[..n]) + Closing(end, ending, aborted)
  {
    hide Fold, EndsAs, Undisturbed;
    FoldOfEnd(events, known, parse, end);
    var front := events[..Length(events, end)];
    UndisturbedForwards(front, known, parse);
    assert forall i :: 0 <= i < |front| ==> front[i] == events[i];
  }

  /** A record keeps all notes, and the last one alone decides status and failure. */
  lemma RecordExactly<D>(notes: seq<Note<D>>)
    ensures var r := RecordOf(notes);
            && r.events == notes
            && (r.status == StatusCompleted <==> notes != [] && notes[|notes| - 1].TurnCompletedNote?)
            && (r.status == StatusCancelled <==> notes != [] && notes[|notes| - 1].TurnCancelledNote?)
            && (r.status != StatusCompleted && r.status != StatusCancelled ==> r.status == StatusFailed)
            && (forall message :: r.failure == Some(message) <==> notes != [] && notes[|notes| - 1] == TurnFailedNote(message))
  {
  }

  lemma RecordOfClosing<D>(before: seq<Note<D>>, end: TurnEnd<D>, ending: Ending, aborted: bool)
    ensures var r := RecordOf(before + Closing(end, ending, aborted));
            && r.events == before + Closing(end, ending, aborted)
            && (r.status == StatusCompleted <==> end.CompletedWith?)
            && (r.status == StatusCancelled <==> aborted && (end.ThrewAt? || (end.RanOut? && ending.SourceThrows?)))
            && (r.status == StatusFailed ==> r.failure == Some(
                 if end.FailedBy? || end.ThrewAt? then end.message
                 else if ending.SourceThrows? then ending.message else "stream ended before a terminal event"))
            && (r.status != StatusFailed ==> r.failure.None?)
            && r.status != StatusRunning
  {
  }

  /** A turn is stored as cancelled if and only if it was aborted and ended by an exception: the first
      event that disturbed it was turned down, or none disturbed it and the source itself threw. */
  lemma CancelledExactly<D>(events: seq<Event>, ending: Ending, aborted: bool, known: Option<string>, parse: string -> Option<D>)
    ensures RecordOf(Notes(Fold(events, known, parse), ending, aborted)).status == StatusCancelled <==>
            && aborted
            && (|| (exists n: nat, message :: ThrowsAt(events, known, parse, n, message))
                || (Undisturbed(events, known, parse) && ending.SourceThrows?))
  {
    hide Fold, Notes, RecordOf, ThrowsAt, Undisturbed, FailsAt, DecidesAt;
    var end := EveryTurnEnds(events, known, parse);
    StoredAs(events, ending, aborted, known, parse, end);
    if n: nat, message :| ThrowsAt(events, known, parse, n, message) {
      StoredAs(events, ending, aborted, known, parse, ThrewAt(n, message));
    }
    if Undisturbed(events, known, parse) {
      StoredAs(events, ending, aborted, known, parse, RanOut);
    }
  }

  /** Status and failure of the stored record, by the way the turn ends. */
  lemma StoredAs<D>(events: seq<Event>, ending: Ending, aborted: bool, known: Option<string>, parse: string -> Option<D>, end: TurnEnd<D>)
    requires EndsAs(events, known, parse, end)
    ensures var r := RecordOf(Notes(Fold(events, known, parse), ending, aborted));
            && (r.status == StatusCompleted <==> end.CompletedWith?)
            && (r.status == StatusCancelled <==> aborted && (end.ThrewAt? || (end.RanOut? && ending.SourceThrows?)))
            && (r.status == StatusFailed ==> r.failure == Some(
                 if end.FailedBy? || end.ThrewAt? then end.message
                 else if ending.SourceThrows? then ending.message else "stream ended before a terminal event"))
            && (r.status != StatusFailed ==> r.failure.None?) && r.status != StatusRunning
  {
    hide Fold, Notes, RecordOf, EndsAs, Closing;
    NotesExactly(events, ending, aborted, known, parse, end);
    RecordOfClosing(Forwarded(events[..Length(events, end)]), end, ending, aborted);
  }

  /** A turn is stored as failed if and only if it is neither completed nor aborted by an exception, and
      then with the message of the event that failed it, of the exception, or of the ended stream. */
  lemma FailedExactly<D>(events: seq<Event>, ending: Ending, aborted: bool, known: Option<string>, parse: string -> Option<D>, message: string)
    ensures var r := RecordOf(Notes(Fold(events, known, parse), ending, aborted));
            r.status == StatusFailed && r.failure == Some(message) <==>
            || (exists n: nat :: FailsAt(events, known, parse, n, message))
            || (!aborted && exists n: nat :: ThrowsAt(events, known, parse, n, message))
            || (!aborted && Undisturbed(events, known, parse) && ending == SourceThrows(message))
            || (Undisturbed(events, known, parse) && ending.Exhausted? && message == "stream ended before a terminal event")
  {
    hide Fold, Notes, RecordOf, ThrowsAt, Undisturbed, FailsAt, DecidesAt;
    var end := EveryTurnEnds(events, known, parse);
    StoredAs(events, ending, aborted, known, parse, end);
    if n: nat :| FailsAt(events, known, parse, n, message) {
      StoredAs(events, ending, aborted, known, parse, FailedBy(n, message));
    }
    if n: nat :| ThrowsAt(events, known, parse, n, message) {
      StoredAs(events, ending, aborted, known, parse, ThrewAt(n, message));
    }
    if Undisturbed(events, known, parse) {
      StoredAs(events, ending, aborted, known, parse, RanOut);
    }
  }
}
