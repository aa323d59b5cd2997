/** The browser session as an object whose tables change in place. */
module CanvasSession {
  import opened Text
  import opened M = SessionModel

  class CanvasSession<F(==)> {
    var pending: seq<Entry<string, Pending>>
    var completed: seq<Entry<string, Option<F>>>
    var disconnectReason: Option<string>
    var tickets: nat
    ghost var settlements: seq<Settlement<F>>  // which promise was settled how, in order

    ghost function Value(): Session<F>
      reads this
    {
      Session(pending, completed, disconnectReason, tickets, settlements)
    }

    constructor ()
      ensures Value() == Initial() && Valid(Value())
    {
      pending, completed, disconnectReason, tickets, settlements := [], [], None, 0, [];
      new;
      var none: seq<Op<F>> := [];
      RunsStayValid(none);
    }

    /** Drops the oldest completed requests until the table fits. */
    method Evict()
      requires DistinctKeys(completed)
      modifies `completed
      ensures completed == Newest(old(completed))
    {
      hide DistinctKeys, Delete;
      ghost var before, dropped := completed, 0;
      while |completed| > MAX_COMPLETED
        invariant dropped <= |before| && completed == before[dropped..]
        invariant dropped > 0 ==> |completed| >= MAX_COMPLETED
        invariant DistinctKeys(completed)
      {
        OldestGone(completed);
        completed := Delete(completed, completed[0].key);
        dropped := dropped + 1;
      }
    }

    method FinishPending(p: Pending, outcome: Outcome<F>)
      requires DistinctKeys(completed) && !HasKey(completed, p.request.requestId)
      modifies this
      ensures Value() == Finish(old(Value()), p, outcome)
    {
      SetNew(completed, p.request.requestId, Fingerprint(outcome));
      SetKeepsDistinct(completed, p.request.requestId, Fingerprint(outcome));
      pending := Delete(pending, p.request.requestId);
      completed := Set(completed, p.request.requestId, Fingerprint(outcome));
      Evict();
      settlements := settlements + [Settlement(p, outcome)];
    }

    method CompleteWithError(requestId: string, cause: Cause)
      requires Sound(Value())
      modifies this
      ensures Value() == M.CompleteWithError(old(Value()), requestId, cause)
    {
      hide Finish;
      var p := Get(pending, requestId);
      if p.None? {
        return;
      }
      PendingIsNew(Value(), requestId);
      FinishPending(p.value, Rejected(cause));
    }

    method RequestTool(r: Request, aborted: bool, emitFails: bool) returns (answer: Result<nat, SessionError>)
      requires Valid(Value())
      modifies this
      ensures (Value(), answer) == M.RequestTool(old(Value()), r, aborted, emitFails)
      ensures Valid(Value())
    {
      hide Valid, Sound, M.CompleteWithError, Set, HasKey;
      RequestKeepsValid(Value(), r, aborted, emitFails);
      if disconnectReason.Some? {
        return Failure(SessionDisconnected);
      }
      if r.requestId == "" || r.threadId == "" || r.turnId == "" || HasKey(pending, r.requestId) || HasKey(completed, r.requestId) {
        return Failure(InvalidRequest);
      }
      if aborted {
        return Failure(AlreadyAborted);
      }
      ValidIsSound(Value());
      AcceptKeepsSound(Value(), r);
      var ticket := tickets;
      pending := Set(pending, r.requestId, Pending(r, ticket));
      tickets := tickets + 1;
      if emitFails {
        CompleteWithError(r.requestId, EmitFailed);
      }
      return Success(ticket);
    }

    /** What a timer, an abort signal or a late failure of the event sink does. */
    method Expire(requestId: string, cause: Cause)
      requires Valid(Value())
      modifies this
      ensures Value() == M.CompleteWithError(old(Value()), requestId, cause) && Valid(Value())
    {
      ErrorKeepsValid(Value(), requestId, cause);
      CompleteWithError(requestId, cause);
    }

    method ResolveToolResult(result: ToolResult<F>) returns (error: Option<SessionError>)
      requires Valid(Value())
      modifies this
      ensures (Value(), error) == M.ResolveToolResult(old(Value()), result)
      ensures Valid(Value())
    {
      hide Valid, Sound, Finish;
      ResultKeepsValid(Value(), result);
      var fingerprint := Get(completed, result.requestId);
      if fingerprint.Some? {
        return if fingerprint.value == Some(result.fingerprint) then None else Some(ReplayConflict);
      }
      var p := Get(pending, result.requestId);
      if p.None? {
        return Some(UnknownRequest);
      }
      if p.value.request.threadId != result.threadId {
        return Some(ThreadMismatch);
      }
      if p.value.request.turnId != result.turnId {
        return Some(TurnMismatch);
      }
      if p.value.request.toolName != result.toolName {
        return Some(ToolMismatch);
      }
      ValidIsSound(Value());
      PendingIsNew(Value(), result.requestId);
      FinishPending(p.value, Resolved(result));
      return None;
    }

    method Disconnect(reason: string) returns (error: Option<SessionError>)
      requires Valid(Value())
      modifies this
      ensures (Value(), error) == M.Disconnect(old(Value()), reason)
      ensures Valid(Value())
    {
      hide Valid, Sound, M.CompleteWithError, JsTrim;
      DisconnectKeepsValid(Value(), reason);
      var normalized := JsTrim(reason);
      if normalized == "" {
        return Some(EmptyReason);
      }
      if disconnectReason.Some? {
        return None;
      }
      ValidIsSound(Value());
      disconnectReason := Some(normalized);
      ghost var marked := Value();
      MarkedIsSound(old(Value()), disconnectReason);
      var ids := KeysOf(pending);
      for i := 0 to |ids|
        invariant Sound(Value()) && Value() == DisconnectAll(marked, ids[..i])
      {
        assert ids[..i + 1][..i] == ids[..i];
        ErrorKeepsSound(Value(), ids[i], Disconnected);
        CompleteWithError(ids[i], Disconnected);
      }
      assert ids[..|ids|] == ids;
      return None;
    }
  }

  lemma OldestGone<K, V>(m: seq<Entry<K, V>>)
    requires DistinctKeys(m) && m != []
    ensures Delete(m, m[0].key) == m[1..] && DistinctKeys(m[1..])
  {
    hide Delete, HasKey;
    DeleteAt(m, 0);
    assert m[..0] == [] && [] + m[1..] == m[1..];
  }

  lemma SetKeepsDistinct<K, V>(m: seq<Entry<K, V>>, key: K, value: V)
    requires DistinctKeys(m) && !HasKey(m, key)
    ensures DistinctKeys(Set(m, key, value))
  {
    SetNew(m, key, value);
  }

  lemma ValidIsSound<F>(s: Session<F>)
    requires Valid(s)
    ensures Sound(s)
  {
  }

  lemma MarkedIsSound<F>(s: Session<F>, reason: Option<string>)
    requires Sound(s)
    ensures Sound(s.(disconnectReason := reason))
  {
  }

  lemma PendingIsNew<F>(s: Session<F>, requestId: string)
    requires Sound(s) && Get(s.pending, requestId).Some?
    ensures DistinctKeys(s.completed) && !HasKey(s.completed, Get(s.pending, requestId).value.request.requestId)
  {
    var i := PendingIndex(s, requestId);
  }
}
