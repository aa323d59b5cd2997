/** What a session answers to every request, result and disconnect after any history of events. */
module SessionOutcomes {
  import opened Text
  import opened M = SessionModel

  // ---------------------------------------------------------------- when a session is disconnected

  predicate Disconnects<F>(op: Op<F>) {
    op.DisconnectOp? && JsTrim(op.reason) != ""
  }

  lemma {:induction false} AllKeepsReason<F>(s: Session<F>, ids: seq<string>)
    ensures DisconnectAll(s, ids).disconnectReason == s.disconnectReason && DisconnectAll(s, ids).tickets == s.tickets
  {
    if ids != [] {
      AllKeepsReason(s, ids[..|ids| - 1]);
      hide Set, Delete, Newest, Get;
    }
  }

  lemma StepDisconnects<F>(s: Session<F>, op: Op<F>)
    ensures M.Apply(s, op).disconnectReason ==
            if s.disconnectReason.None? && Disconnects(op) then Some(JsTrim(op.reason)) else s.disconnectReason
  {
    hide Set, Delete, Newest, Get, HasKey, DisconnectAll, JsTrim;
    if op.DisconnectOp? {
      AllKeepsReason(s.(disconnectReason := Some(JsTrim(op.reason))), KeysOf(s.pending));
    }
  }

  /** A session is disconnected if and only if it was told so with a reason that is not blank. */
  lemma {:induction false} DisconnectedExactly<F>(ops: seq<Op<F>>)
    ensures Run(ops).disconnectReason.Some? <==> exists i :: 0 <= i < |ops| && Disconnects(ops[i])
  {
    if ops != [] {
      var front := ops[..|ops| - 1];
      DisconnectedExactly(front);
      StepDisconnects(Run(front), ops[|ops| - 1]);
      hide M.Apply, Disconnects;
      assert ops == front + [ops[|ops| - 1]];
    }
  }

  // ---------------------------------------------------------------- requests

  predicate Pends<F>(s: Session<F>, id: string) {
    exists i :: 0 <= i < |s.pending| && s.pending[i].key == id
  }

  /** One of the newest 4096 settlements is of this request. */
  predicate SettledRecently<F>(s: Session<F>, id: string) {
    exists k :: 0 <= k < |s.settlements| && |s.settlements| - k <= 4096 && s.settlements[k].pending.request.requestId == id
  }

  lemma CompletedAt<F>(s: Session<F>)
    requires s.completed == Newest(Completions(s.settlements))
    ensures |s.completed| == if |s.settlements| > 4096 then 4096 else |s.settlements|
    ensures forall j, k :: 0 <= j < |s.completed| && k == j + (|s.settlements| - |s.completed|) ==>
              s.completed[j].key == s.settlements[k].pending.request.requestId
  {
    var all := Completions(s.settlements);
    assert forall k :: 0 <= k < |all| ==> all[k].key == s.settlements[k].pending.request.requestId;
    hide Completions;
  }

  lemma CompletedIsRecent<F>(s: Session<F>, id: string)
    requires s.completed == Newest(Completions(s.settlements))
    ensures HasKey(s.completed, id) <==> SettledRecently(s, id)
  {
    CompletedAt(s);
    hide Newest, Completions;
    var skipped := |s.settlements| - |s.completed|;
    if HasKey(s.completed, id) {
      var j :| 0 <= j < |s.completed| && s.completed[j].key == id;
      assert s.settlements[j + skipped].pending.request.requestId == id;
    }
    if SettledRecently(s, id) {
      var k :| 0 <= k < |s.settlements| && |s.settlements| - k <= 4096 && s.settlements[k].pending.request.requestId == id;
      assert s.completed[k - skipped].key == id;
    }
  }

  predicate Identified(r: Request) {
    r.requestId != "" && r.threadId != "" && r.turnId != ""
  }

  /** What is wrong with a request that is not accepted. */
  function Refusal<F(==)>(ops: seq<Op<F>>, r: Request): SessionError {
    if exists i :: 0 <= i < |ops| && Disconnects(ops[i]) then SessionDisconnected
    else if !Identified(r) || Pends(Run(ops), r.requestId) || SettledRecently(Run(ops), r.requestId) then InvalidRequest
    else AlreadyAborted
  }

  /** Whatever happened before: a request is accepted if and only if nothing has disconnected the session,
      its three identities are there, its own is neither pending nor among the newest 4096 completed ones,
      and its signal has not fired. Otherwise nothing changes and the answer says what is wrong. */
  lemma RequestAcceptsExactly<F>(ops: seq<Op<F>>, r: Request, aborted: bool, emitFails: bool)
    ensures var s := Run(ops); var (t, answer) := RequestTool(s, r, aborted, emitFails);
            && (answer.Success? <==>
                 && (forall i :: 0 <= i < |ops| ==> !Disconnects(ops[i]))
                 && r.requestId != "" && r.threadId != "" && r.turnId != ""
                 && !Pends(s, r.requestId) && !SettledRecently(s, r.requestId) && !aborted)
            && (answer.Success? || (t == s && answer.error == Refusal(ops, r)))
  {
    DisconnectedExactly(ops);
    CompletedAreNewest(ops);
    CompletedIsRecent(Run(ops), r.requestId);
    hide Run, Set, Newest, Completions, CompleteWithError, SettledRecently, Disconnects;
  }

  /** An accepted request goes last in the table of pending ones, under the next ticket. */
  lemma AcceptedIsPending<F>(ops: seq<Op<F>>, r: Request, aborted: bool)
    requires RequestTool(Run(ops), r, aborted, false).1.Success?
    ensures var s := Run(ops);
            RequestTool(s, r, aborted, false) ==
            (s.(pending := s.pending + [Entry(r.requestId, Pending(r, s.tickets))], tickets := s.tickets + 1), Success(s.tickets))
  {
    var s := Run(ops);
    SetNew(s.pending, r.requestId, Pending(r, s.tickets));
  }

  /** If the event sink fails at once, the request is answered with its ticket all the same and settled
      as failed to emit; the other pending ones stay. */
  lemma FailedEmitSettles<F>(ops: seq<Op<F>>, r: Request, aborted: bool)
    requires RequestTool(Run(ops), r, aborted, true).1.Success?
    ensures var s := Run(ops); var (t, answer) := RequestTool(s, r, aborted, true);
            && answer == Success(s.tickets) && t.tickets == s.tickets + 1 && t.disconnectReason == s.disconnectReason
            && t.pending == s.pending
            && t.settlements == s.settlements + [Settlement(Pending(r, s.tickets), Rejected(EmitFailed))]
  {
    var s := Run(ops);
    RunsStayValid(ops);
    hide Run;
    SetNew(s.pending, r.requestId, Pending(r, s.tickets));
    AcceptKeepsSound(s, r);
    var accepted := s.(pending := s.pending + [Entry(r.requestId, Pending(r, s.tickets))], tickets := s.tickets + 1);
    hide Sound, Valid, Set, HasKey, Newest, Completions;
    LastSettles(accepted, |s.pending|, EmitFailed);
    assert accepted.pending[..|s.pending|] + accepted.pending[|s.pending| + 1..] == s.pending;
  }

  lemma LastSettles<F>(s: Session<F>, i: nat, cause: Cause)
    requires Sound(s) && i < |s.pending|
    ensures var t := CompleteWithError(s, s.pending[i].key, cause);
            && t.pending == s.pending[..i] + s.pending[i + 1..]
            && t.settlements == s.settlements + [Settlement(s.pending[i].value, Rejected(cause))]
            && t.tickets == s.tickets && t.disconnectReason == s.disconnectReason
  {
    GetAt(s.pending, i);
    FinishPending(s, i, Rejected(cause));
    hide Sound, Set, Delete, Newest, Get;
  }

  // ---------------------------------------------------------------- results

  /** What a result for a request that still pends is refused for: the first of thread, turn and tool
      that it names differently. */
  function Difference<F>(r: Request, result: ToolResult<F>): Option<SessionError> {
    if result.threadId != r.threadId then Some(ThreadMismatch)
    else if result.turnId != r.turnId then Some(TurnMismatch)
    else if result.toolName != r.toolName then Some(ToolMismatch)
    else None
  }

  /** A result for a request that is neither pending nor recently settled is refused. */
  lemma UnknownResult<F>(ops: seq<Op<F>>, result: ToolResult<F>)
    requires !Pends(Run(ops), result.requestId) && !SettledRecently(Run(ops), result.requestId)
    ensures ResolveToolResult(Run(ops), result) == (Run(ops), Some(UnknownRequest))
  {
    CompletedAreNewest(ops);
    CompletedIsRecent(Run(ops), result.requestId);
    hide Run, Newest, Completions, SettledRecently, Finish;
  }

  /** A result for a pending request settles it with that very result, if and only if it names the same
      thread, turn and tool; otherwise nothing changes and the answer names the first difference. */
  lemma PendingResult<F>(ops: seq<Op<F>>, i: nat, result: ToolResult<F>)
    requires i < |Run(ops).pending| && Run(ops).pending[i].key == result.requestId
    ensures var s := Run(ops); var (t, error) := ResolveToolResult(s, result);
            && error == Difference(s.pending[i].value.request, result)
            && (error.Some? ==> t == s)
            && (error.None? ==>
                 && t.pending == s.pending[..i] + s.pending[i + 1..]
                 && t.settlements == s.settlements + [Settlement(s.pending[i].value, Resolved(result))]
                 && t.tickets == s.tickets && t.disconnectReason == s.disconnectReason)
  {
    RunsStayValid(ops);
    var s := Run(ops);
    hide Run;
    GetAt(s.pending, i);
    NotCompleted(s, i);
    FinishPending(s, i, Resolved(result));
    hide Sound, Set, Delete, Newest, Get;
  }

  /** A result for a request settled recently changes nothing: it is the very result of that settlement
      again, or it is a conflict, whatever ended the request otherwise. */
  lemma SettledResult<F>(ops: seq<Op<F>>, k: nat, result: ToolResult<F>)
    requires k < |Run(ops).settlements| && |Run(ops).settlements| - k <= 4096
    requires Run(ops).settlements[k].pending.request.requestId == result.requestId
    ensures var ended := Run(ops).settlements[k].outcome;
            ResolveToolResult(Run(ops), result)
            == (Run(ops), if ended.Resolved? && ended.result.fingerprint == result.fingerprint then None else Some(ReplayConflict))
  {
    ReplayWithinWindow(ops, k, result);
    hide Run;
  }

  // ---------------------------------------------------------------- timers and disconnects

  /** A timer, a signal or a late failure of the sink does nothing to a request that does not pend. */
  lemma LateEventsDoNothing<F>(ops: seq<Op<F>>, id: string, op: Op<F>)
    requires !Pends(Run(ops), id) && op in {TimeoutOp(id), AbortOp(id), EmitFailedOp(id)}
    ensures Run(ops + [op]) == Run(ops)
  {
    assert (ops + [op])[..|ops|] == ops;
    assert Run(ops + [op]) == M.Apply(Run(ops), op);
    hide Run;
  }

  function Cut<F>(pending: seq<Entry<string, Pending>>): (r: seq<Settlement<F>>)
    ensures |r| == |pending| && forall i :: 0 <= i < |r| ==> r[i] == Settlement(pending[i].value, Rejected(Disconnected))
  {
    seq(|pending|, i requires 0 <= i < |pending| => Settlement(pending[i].value, Rejected(Disconnected)))
  }

  lemma CutNext<F>(pending: seq<Entry<string, Pending>>, n: nat, before: seq<Settlement<F>>)
    requires 0 < n <= |pending|
    ensures (before + Cut(pending[..n - 1])) + [Settlement(pending[n - 1].value, Rejected(Disconnected))] == before + Cut(pending[..n])
  {
    var less: seq<Settlement<F>>, more: seq<Settlement<F>> := Cut(pending[..n - 1]), Cut(pending[..n]);
    assert more == less + [Settlement(pending[n - 1].value, Rejected(Disconnected))];
  }

  lemma {:induction false} AllAreCut<F>(s: Session<F>, n: nat)
    requires Sound(s) && n <= |s.pending|
    ensures DisconnectAll(s, KeysOf(s.pending)[..n]).settlements == s.settlements + Cut(s.pending[..n])
  {
    hide Sound, CompleteWithError;
    var ids := KeysOf(s.pending)[..n];
    if n > 0 {
      assert ids[..n - 1] == KeysOf(s.pending)[..n - 1] && ids[n - 1] == s.pending[n - 1].key;
      assert DisconnectAll(s, ids) == CompleteWithError(DisconnectAll(s, ids[..n - 1]), ids[n - 1], Disconnected);
      hide DisconnectAll;
      DisconnectSettlesAll(s, n - 1);
      AllAreCut(s, n - 1);
      var t := DisconnectAll(s, ids[..n - 1]);
      assert t.pending[0] == s.pending[n - 1];
      LastSettles(t, 0, Disconnected);
      CutNext(s.pending, n, s.settlements);
    }
  }

  /** A blank reason is refused. The first reason is kept, and settles everything that pends as
      disconnected, in order; any later one changes nothing. */
  lemma DisconnectExactly<F>(ops: seq<Op<F>>, reason: string)
    ensures var s := Run(ops); var (t, error) := Disconnect(s, reason);
            if JsTrim(reason) == "" then t == s && error == Some(EmptyReason)
            else if exists i :: 0 <= i < |ops| && Disconnects(ops[i]) then t == s && error.None?
            else
              && error.None? && t.disconnectReason == Some(JsTrim(reason)) && t.tickets == s.tickets
              && t.pending == [] && t.settlements == s.settlements + Cut(s.pending)
  {
    DisconnectedExactly(ops);
    RunsStayValid(ops);
    var s := Run(ops);
    hide Run, JsTrim, DisconnectAll, Disconnects;
    var marked := s.(disconnectReason := Some(JsTrim(reason)));
    MarkedSound(s, marked.disconnectReason);
    hide Sound;
    var n := |s.pending|;
    assert KeysOf(s.pending)[..n] == KeysOf(s.pending) && s.pending[..n] == s.pending && s.pending[n..] == [];
    DisconnectSettlesAll(marked, n);
    AllAreCut(marked, n);
    AllKeepsReason(marked, KeysOf(s.pending));
  }

  lemma MarkedSound<F>(s: Session<F>, reason: Option<string>)
    requires Valid(s)
    ensures Sound(s.(disconnectReason := reason))
  {
    hide DistinctKeys, Newest, Completions, NamedByRequest, PendingTickets, SettledTickets, UpTo;
  }

  predicate AllJsSpace(s: string) {
    forall i :: 0 <= i < |s| ==> IsJsSpace(s[i])
  }

  lemma OneMoreLeft(c: char, left: string, middle: string, right: string)
    requires IsJsSpace(c) && AllJsSpace(left)
    ensures AllJsSpace([c] + left) && [c] + (left + middle + right) == ([c] + left) + middle + right
  {
    hide IsJsSpace;
  }

  lemma OneMoreRight(c: char, left: string, middle: string, right: string)
    requires IsJsSpace(c) && AllJsSpace(right)
    ensures AllJsSpace(right + [c]) && (left + middle + right) + [c] == left + middle + (right + [c])
  {
    hide IsJsSpace;
  }

  /** Trimming a reason takes JavaScript white space off both ends, and nothing else. */
  lemma {:induction false} JsTrimTakesSpaces(s: string) returns (left: string, right: string)
    ensures s == left + JsTrim(s) + right
    ensures AllJsSpace(left) && AllJsSpace(right)
    ensures JsTrim(s) != "" ==> !IsJsSpace(JsTrim(s)[0]) && !IsJsSpace(JsTrim(s)[|JsTrim(s)| - 1])
  {
    hide IsJsSpace, AllJsSpace;
    left, right := "", "";
    NoSpaces();
    if s != "" && IsJsSpace(s[0]) {
      left, right := JsTrimTakesSpaces(s[1..]);
      assert s == [s[0]] + s[1..];
      OneMoreLeft(s[0], left, JsTrim(s[1..]), right);
      left := [s[0]] + left;
    } else if s != "" && IsJsSpace(s[|s| - 1]) {
      left, right := JsTrimTakesSpaces(s[..|s| - 1]);
      assert s == s[..|s| - 1] + [s[|s| - 1]];
      OneMoreRight(s[|s| - 1], left, JsTrim(s[..|s| - 1]), right);
      right := right + [s[|s| - 1]];
    } else {
      assert s == "" + JsTrim(s) + "";
    }
  }

  lemma NoSpaces()
    ensures AllJsSpace("")
  {
  }

  // ---------------------------------------------------------------- a session that works

  lemma FirstRequest<F>(r: Request)
    requires Identified(r)
    ensures var none: seq<Op<F>> := [];
            RequestTool(Run(none), r, false, false) ==
            (Run(none).(pending := [Entry(r.requestId, Pending(r, 0))], tickets := 1), Success(0))
  {
    var none: seq<Op<F>> := [];
    RequestAcceptsExactly(none, r, false, false);
    AcceptedIsPending(none, r, false);
  }

  lemma RunNext<F>(ops: seq<Op<F>>, op: Op<F>)
    ensures Run(ops + [op]) == M.Apply(Run(ops), op)
  {
    assert (ops + [op])[..|ops|] == ops;
  }

  /** A session may accept a request and settle it with its result. */
  lemma ResolvedSessionExists<F>(r: Request, fingerprint: F) returns (before: seq<Op<F>>, ops: seq<Op<F>>, result: ToolResult<F>)
    requires Identified(r)
    ensures before == [RequestOp(r, false, false)] && ops == before + [ResultOp(result)]
    ensures Run(before).pending == [Entry(r.requestId, Pending(r, 0))]
    ensures Run(ops).settlements == [Settlement(Pending(r, 0), Resolved(result))] && Run(ops).pending == []
  {
    result := ToolResult.ToolResult(r.requestId, r.threadId, r.turnId, r.toolName, fingerprint);
    before, ops := [RequestOp(r, false, false)], [RequestOp(r, false, false), ResultOp(result)];
    AfterFirst<F>(r);
    RunNext(before, ResultOp(result));
    assert ops == before + [ResultOp(result)];
    hide Run, ResolveToolResult;
    PendingResult(before, 0, result);
  }

  lemma AfterFirst<F>(r: Request)
    requires Identified(r)
    ensures var none: seq<Op<F>> := [];
            Run([RequestOp(r, false, false)]) == Run(none).(pending := [Entry(r.requestId, Pending(r, 0))], tickets := 1)
    ensures var none: seq<Op<F>> := []; Run(none).settlements == []
  {
    var none: seq<Op<F>> := [];
    RunNext(none, RequestOp(r, false, false));
    assert none + [RequestOp(r, false, false)] == [RequestOp(r, false, false)];
    assert Run(none).settlements == [];
    hide Run, RequestTool;
    FirstRequest<F>(r);
  }
}
