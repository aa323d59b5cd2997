/** A browser session that hands out tool requests and settles each of them once, as a value. */
module SessionModel {
  import opened Text
  import opened Ordering

  const MAX_COMPLETED := 4096

  // ---------------------------------------------------------------- JavaScript maps

  // A JavaScript Map iterates in insertion order, so it is a sequence of entries with distinct keys.
  datatype Entry<K, V> = Entry(key: K, value: V)

  predicate HasKey<K(==), V>(m: seq<Entry<K, V>>, key: K) {
    exists i :: 0 <= i < |m| && m[i].key == key
  }

  ghost predicate DistinctKeys<K, V>(m: seq<Entry<K, V>>) {
    forall i, j :: 0 <= i < j < |m| ==> m[i].key != m[j].key
  }

  function Get<K(==), V>(m: seq<Entry<K, V>>, key: K): (r: Option<V>)
    ensures r.Some? <==> HasKey(m, key)
    ensures r.Some? ==> Entry(key, r.value) in m
  {
    if m == [] then None
    else if m[|m| - 1].key == key then Some(m[|m| - 1].value)
    else
      var rest := m[..|m| - 1];
      assert HasKey(m, key) ==> HasKey(rest, key) by {
        if i :| 0 <= i < |m| && m[i].key == key {
          assert rest[i].key == key;
        }
      }
      Get(rest, key)
  }

  function Delete<K(==), V>(m: seq<Entry<K, V>>, key: K): seq<Entry<K, V>> {
    if m == [] then []
    else Delete(m[..|m| - 1], key) + (if m[|m| - 1].key == key then [] else [m[|m| - 1]])
  }

  /** Sets a key: an old key keeps its place, a new one goes last. */
  function Set<K(==), V>(m: seq<Entry<K, V>>, key: K, value: V): seq<Entry<K, V>> {
    if m == [] then [Entry(key, value)]
    else if m[0].key == key then [Entry(key, value)] + m[1..]
    else [m[0]] + Set(m[1..], key, value)
  }

  lemma {:induction false} SetNew<K, V>(m: seq<Entry<K, V>>, key: K, value: V)
    requires !HasKey(m, key)
    ensures Set(m, key, value) == m + [Entry(key, value)]
  {
    if m != [] {
      assert m[0].key != key;
      SetNew(m[1..], key, value);
    }
  }

  lemma {:induction false} DeleteMissing<K, V>(m: seq<Entry<K, V>>, key: K)
    requires !HasKey(m, key)
    ensures Delete(m, key) == m
  {
    if m != [] {
      var front := m[..|m| - 1];
      assert m[|m| - 1].key != key;
      DeleteMissing(front, key);
    }
  }

  lemma {:induction false} DeleteAt<K, V>(m: seq<Entry<K, V>>, i: nat)
    requires DistinctKeys(m) && i < |m|
    ensures Delete(m, m[i].key) == m[..i] + m[i + 1..]
  {
    var n := |m| - 1;
    if i == n {
      assert !HasKey(m[..n], m[n].key);
      DeleteMissing(m[..n], m[n].key);
    } else {
      assert m[..n][i] == m[i];
      DeleteAt(m[..n], i);
      assert m[n].key != m[i].key;
    }
  }

  lemma {:induction false} GetAt<K, V>(m: seq<Entry<K, V>>, i: nat)
    requires DistinctKeys(m) && i < |m|
    ensures Get(m, m[i].key) == Some(m[i].value)
  {
    var n := |m| - 1;
    if i < n {
      assert m[..n][i] == m[i];
      GetAt(m[..n], i);
      assert m[n].key != m[i].key;
    }
  }

  // ---------------------------------------------------------------- the session as a value

  datatype Request = Request(requestId: string, threadId: string, turnId: string, toolName: string)

  // The fingerprint stands for the digest of the whole result.
  datatype ToolResult<F> = ToolResult(requestId: string, threadId: string, turnId: string, toolName: string, fingerprint: F)

  datatype Cause = TimedOut | Aborted | EmitFailed | Disconnected
  datatype Outcome<F> = Resolved(result: ToolResult<F>) | Rejected(cause: Cause)

  // A ticket is the promise that an accepted request was answered with.
  datatype Pending = Pending(request: Request, ticket: nat)
  datatype Settlement<F> = Settlement(pending: Pending, outcome: Outcome<F>)

  datatype Session<F> = Session(
    pending: seq<Entry<string, Pending>>,
    completed: seq<Entry<string, Option<F>>>,
    disconnectReason: Option<string>,
    tickets: nat,
    settlements: seq<Settlement<F>>)

  datatype SessionError =
    | SessionDisconnected | InvalidRequest | AlreadyAborted | ReplayConflict | UnknownRequest
    | ThreadMismatch | TurnMismatch | ToolMismatch | EmptyReason

  function Initial<F>(): Session<F> {
    Session([], [], None, 0, [])
  }

  function Fingerprint<F>(o: Outcome<F>): Option<F> {
    if o.Resolved? then Some(o.result.fingerprint) else None
  }

  /** The newest entries, as many as the table may keep. */
  function Newest<T>(s: seq<T>): seq<T> {
    if |s| > MAX_COMPLETED then s[|s| - MAX_COMPLETED..] else s
  }

  /** Settles one pending request and records it as completed. */
  function Finish<F>(s: Session<F>, p: Pending, outcome: Outcome<F>): Session<F> {
    s.(pending := Delete(s.pending, p.request.requestId),
       completed := Newest(Set(s.completed, p.request.requestId, Fingerprint(outcome))),
       settlements := s.settlements + [Settlement(p, outcome)])
  }

  function CompleteWithError<F>(s: Session<F>, requestId: string, cause: Cause): Session<F> {
    var pending := Get(s.pending, requestId);
    if pending.None? then s else Finish(s, pending.value, Rejected(cause))
  }

  /** Accepts a request, or says why not. `aborted` and `emitFails` are what the caller's signal and
      the event sink do. */
  function RequestTool<F>(s: Session<F>, r: Request, aborted: bool, emitFails: bool): (Session<F>, Result<nat, SessionError>) {
    if s.disconnectReason.Some? then (s, Failure(SessionDisconnected))
    else if r.requestId == "" || r.threadId == "" || r.turnId == "" || HasKey(s.pending, r.requestId) || HasKey(s.completed, r.requestId)
    then (s, Failure(InvalidRequest))
    else if aborted then (s, Failure(AlreadyAborted))
    else
      var accepted := s.(pending := Set(s.pending, r.requestId, Pending(r, s.tickets)), tickets := s.tickets + 1);
      (if emitFails then CompleteWithError(accepted, r.requestId, EmitFailed) else accepted, Success(s.tickets))
  }

  function Mismatch<F>(r: Request, result: ToolResult<F>): Option<SessionError> {
    if r.threadId != result.threadId then Some(ThreadMismatch)
    else if r.turnId != result.turnId then Some(TurnMismatch)
    else if r.toolName != result.toolName then Some(ToolMismatch)
    else None
  }

  function ResolveToolResult<F(==)>(s: Session<F>, result: ToolResult<F>): (Session<F>, Option<SessionError>) {
    var completed, pending := Get(s.completed, result.requestId), Get(s.pending, result.requestId);
    if completed.Some? then (s, if completed.value == Some(result.fingerprint) then None else Some(ReplayConflict))
    else if pending.None? then (s, Some(UnknownRequest))
    else if Mismatch(pending.value.request, result).Some? then (s, Mismatch(pending.value.request, result))
    else (Finish(s, pending.value, Resolved(result)), None)
  }

  // White space as String.prototype.trim takes it.
  predicate IsJsSpace(c: char) {
    || '\t' <= c <= '\r' || c == ' ' || c == '\U{A0}' || c == '\U{1680}' || '\U{2000}' <= c <= '\U{200A}'
    || c == '\U{2028}' || c == '\U{2029}' || c == '\U{202F}' || c == '\U{205F}' || c == '\U{3000}' || c == '\U{FEFF}'
  }

  function JsTrim(s: string): string {
    if s == "" then ""
    else if IsJsSpace(s[0]) then JsTrim(s[1..])
    else if IsJsSpace(s[|s| - 1]) then JsTrim(s[..|s| - 1])
    else s
  }

  function DisconnectAll<F>(s: Session<F>, ids: seq<string>): Session<F> {
    if ids == [] then s
    else CompleteWithError(DisconnectAll(s, ids[..|ids| - 1]), ids[|ids| - 1], Disconnected)
  }

  function KeysOf<K, V>(m: seq<Entry<K, V>>): (keys: seq<K>)
    ensures |keys| == |m| && forall i :: 0 <= i < |m| ==> keys[i] == m[i].key
  {
    seq(|m|, i requires 0 <= i < |m| => m[i].key)
  }

  function Disconnect<F>(s: Session<F>, reason: string): (Session<F>, Option<SessionError>) {
    if JsTrim(reason) == "" then (s, Some(EmptyReason))
    else if s.disconnectReason.Some? then (s, None)
    else (DisconnectAll(s.(disconnectReason := Some(JsTrim(reason))), KeysOf(s.pending)), None)
  }

  // ---------------------------------------------------------------- what every session keeps

  function PendingTickets(m: seq<Entry<string, Pending>>): (t: seq<nat>)
    ensures |t| == |m| && forall i :: 0 <= i < |m| ==> t[i] == m[i].value.ticket
  {
    seq(|m|, i requires 0 <= i < |m| => m[i].value.ticket)
  }

  function SettledTickets<F>(settlements: seq<Settlement<F>>): (t: seq<nat>)
    ensures |t| == |settlements| && forall i :: 0 <= i < |t| ==> t[i] == settlements[i].pending.ticket
  {
    seq(|settlements|, i requires 0 <= i < |settlements| => settlements[i].pending.ticket)
  }

  function UpTo(n: nat): (t: seq<nat>)
    ensures |t| == n && forall i :: 0 <= i < n ==> t[i] == i
  {
    seq(n, i => i)
  }

  /** The completions in the order of the settlements. */
  function Completions<F>(settlements: seq<Settlement<F>>): (c: seq<Entry<string, Option<F>>>)
    ensures |c| == |settlements|
    ensures forall i :: 0 <= i < |c| ==> c[i] == Entry(settlements[i].pending.request.requestId, Fingerprint(settlements[i].outcome))
  {
    seq(|settlements|, i requires 0 <= i < |settlements| =>
      Entry(settlements[i].pending.request.requestId, Fingerprint(settlements[i].outcome)))
  }

  ghost predicate Disjoint<F>(s: Session<F>) {
    forall i, j :: 0 <= i < |s.pending| && 0 <= j < |s.completed| ==> s.pending[i].key != s.completed[j].key
  }

  ghost predicate NamedByRequest(m: seq<Entry<string, Pending>>) {
    forall i :: 0 <= i < |m| ==> m[i].key == m[i].value.request.requestId
  }

  /** Each ticket given out is the ticket of one pending or one settled request. */
  ghost predicate TicketsKept<F>(s: Session<F>) {
    multiset(PendingTickets(s.pending)) + multiset(SettledTickets(s.settlements)) == multiset(UpTo(s.tickets))
  }

  /** A request settled with a result was settled with one that names it. */
  ghost predicate ResultsFit<F>(settlements: seq<Settlement<F>>) {
    forall i :: 0 <= i < |settlements| && settlements[i].outcome.Resolved? ==>
      && settlements[i].outcome.result.requestId == settlements[i].pending.request.requestId
      && Mismatch(settlements[i].pending.request, settlements[i].outcome.result) == None
  }

  ghost predicate Sound<F>(s: Session<F>) {
    && DistinctKeys(s.pending) && NamedByRequest(s.pending)
    && DistinctKeys(s.completed) && Disjoint(s)
    && s.completed == Newest(Completions(s.settlements))
    && TicketsKept(s)
    && ResultsFit(s.settlements)
  }

  ghost predicate Valid<F>(s: Session<F>) {
    Sound(s) && (s.disconnectReason.Some? ==> s.pending == [])
  }

  lemma NewestOfMore<T>(s: seq<T>, x: T)
    ensures Newest(Newest(s) + [x]) == Newest(s + [x])
  {
  }

  lemma FinishPending<F>(s: Session<F>, i: nat, outcome: Outcome<F>)
    requires Sound(s) && i < |s.pending|
    ensures Finish(s, s.pending[i].value, outcome).pending == s.pending[..i] + s.pending[i + 1..]
    ensures Finish(s, s.pending[i].value, outcome).completed == Newest(Completions(s.settlements + [Settlement(s.pending[i].value, outcome)]))
  {
    var p := s.pending[i].value;
    DeleteAt(s.pending, i);
    SetNew(s.completed, p.request.requestId, Fingerprint(outcome));
    NewestOfMore(Completions(s.settlements), Entry(p.request.requestId, Fingerprint(outcome)));
    assert Completions(s.settlements + [Settlement(p, outcome)])
        == Completions(s.settlements) + [Entry(p.request.requestId, Fingerprint(outcome))];
  }

  lemma SplitTickets(m: seq<Entry<string, Pending>>, i: nat)
    requires i < |m|
    ensures multiset(PendingTickets(m)) == multiset(PendingTickets(m[..i] + m[i + 1..])) + multiset{m[i].value.ticket}
  {
    var t := PendingTickets(m);
    assert t == t[..i] + [t[i]] + t[i + 1..];
    assert PendingTickets(m[..i] + m[i + 1..]) == t[..i] + t[i + 1..];
  }

  lemma FinishKeepsTickets<F>(s: Session<F>, i: nat, outcome: Outcome<F>)
    requires Sound(s) && i < |s.pending|
    ensures TicketsKept(Finish(s, s.pending[i].value, outcome))
  {
    FinishPending(s, i, outcome);
    SplitTickets(s.pending, i);
    hide Finish, Sound;
    var next := s.settlements + [Settlement(s.pending[i].value, outcome)];
    assert SettledTickets(next) == SettledTickets(s.settlements) + [s.pending[i].value.ticket];
  }

  lemma RemoveKeepsKeys(m: seq<Entry<string, Pending>>, i: nat)
    requires DistinctKeys(m) && NamedByRequest(m) && i < |m|
    ensures var rest := m[..i] + m[i + 1..];
            DistinctKeys(rest) && NamedByRequest(rest)
            && forall k :: 0 <= k < |rest| ==> rest[k].key != m[i].key && rest[k] in m
  {
    var rest := m[..i] + m[i + 1..];
    forall k | 0 <= k < |rest| ensures rest[k] == m[if k < i then k else k + 1] {
    }
  }

  lemma NewestKeepsKeys<K, V>(m: seq<Entry<K, V>>, e: Entry<K, V>)
    requires DistinctKeys(m) && !HasKey(m, e.key)
    ensures DistinctKeys(Newest(m + [e]))
    ensures forall x :: x in Newest(m + [e]) ==> x in m || x == e
  {
  }

  lemma FinishKeepsKeys<F>(s: Session<F>, i: nat, outcome: Outcome<F>)
    requires Sound(s) && i < |s.pending|
    ensures var t := Finish(s, s.pending[i].value, outcome);
            DistinctKeys(t.pending) && NamedByRequest(t.pending) && DistinctKeys(t.completed) && Disjoint(t)
  {
    hide Set, Delete, Newest, Completions, TicketsKept, ResultsFit;
    var p := s.pending[i].value;
    var entry := Entry(p.request.requestId, Fingerprint(outcome));
    FinishPending(s, i, outcome);
    SetNew(s.completed, entry.key, entry.value);
    RemoveKeepsKeys(s.pending, i);
    NewestKeepsKeys(s.completed, entry);
    hide HasKey, DistinctKeys, NamedByRequest;
    var t := Finish(s, p, outcome);
    forall a, b | 0 <= a < |t.pending| && 0 <= b < |t.completed| ensures t.pending[a].key != t.completed[b].key {
      assert t.pending[a] in s.pending && t.pending[a].key != s.pending[i].key;
      assert t.completed[b] in s.completed || t.completed[b] == entry;
    }
  }

  lemma FinishKeepsSound<F>(s: Session<F>, i: nat, outcome: Outcome<F>)
    requires Sound(s) && i < |s.pending|
    requires outcome.Resolved? ==>
               outcome.result.requestId == s.pending[i].key && Mismatch(s.pending[i].value.request, outcome.result) == None
    ensures Sound(Finish(s, s.pending[i].value, outcome))
  {
    FinishPending(s, i, outcome);
    FinishKeepsTickets(s, i, outcome);
    FinishKeepsKeys(s, i, outcome);
    hide DistinctKeys, Disjoint, TicketsKept, Completions, Newest, Set, Delete, Fingerprint;
  }

  lemma PendingIndex<F>(s: Session<F>, requestId: string) returns (i: nat)
    requires Sound(s) && Get(s.pending, requestId).Some?
    ensures i < |s.pending| && s.pending[i] == Entry(requestId, Get(s.pending, requestId).value)
  {
    i :| 0 <= i < |s.pending| && s.pending[i].key == requestId;
    GetAt(s.pending, i);
  }

  lemma ErrorKeepsSound<F>(s: Session<F>, requestId: string, cause: Cause)
    requires Sound(s)
    ensures Sound(CompleteWithError(s, requestId, cause))
  {
    if Get(s.pending, requestId).Some? {
      var i := PendingIndex(s, requestId);
      FinishKeepsSound(s, i, Rejected(cause));
    }
  }

  lemma AcceptKeepsKeys<F>(s: Session<F>, r: Request)
    requires Sound(s) && !HasKey(s.pending, r.requestId) && !HasKey(s.completed, r.requestId)
    ensures var t := s.(pending := s.pending + [Entry(r.requestId, Pending(r, s.tickets))], tickets := s.tickets + 1);
            DistinctKeys(t.pending) && NamedByRequest(t.pending) && Disjoint(t)
  {
    hide TicketsKept, ResultsFit, Newest, Completions;
    assert forall i :: 0 <= i < |s.pending| ==> s.pending[i].key != r.requestId;
    assert forall j :: 0 <= j < |s.completed| ==> s.completed[j].key != r.requestId;
    hide HasKey;
  }

  lemma AcceptKeepsTickets<F>(s: Session<F>, r: Request)
    requires TicketsKept(s)
    ensures TicketsKept(s.(pending := s.pending + [Entry(r.requestId, Pending(r, s.tickets))], tickets := s.tickets + 1))
  {
    var more := s.pending + [Entry(r.requestId, Pending(r, s.tickets))];
    assert PendingTickets(more) == PendingTickets(s.pending) + [s.tickets];
    assert UpTo(s.tickets + 1) == UpTo(s.tickets) + [s.tickets];
  }

  lemma AcceptKeepsSound<F>(s: Session<F>, r: Request)
    requires Sound(s) && !HasKey(s.pending, r.requestId) && !HasKey(s.completed, r.requestId)
    ensures Sound(s.(pending := Set(s.pending, r.requestId, Pending(r, s.tickets)), tickets := s.tickets + 1))
  {
    hide DistinctKeys, NamedByRequest, Disjoint, TicketsKept, ResultsFit, Newest, Completions, HasKey, Set;
    SetNew(s.pending, r.requestId, Pending(r, s.tickets));
    AcceptKeepsKeys(s, r);
    AcceptKeepsTickets(s, r);
  }

  lemma {:induction false} DisconnectSettlesAll<F>(s: Session<F>, n: nat)
    requires Sound(s) && n <= |s.pending|
    ensures Sound(DisconnectAll(s, KeysOf(s.pending)[..n]))
    ensures DisconnectAll(s, KeysOf(s.pending)[..n]).pending == s.pending[n..]
    ensures DisconnectAll(s, KeysOf(s.pending)[..n]).disconnectReason == s.disconnectReason
  {
    hide Sound;
    if n > 0 {
      var ids := KeysOf(s.pending)[..n];
      assert ids[..n - 1] == KeysOf(s.pending)[..n - 1];
      DisconnectSettlesAll(s, n - 1);
      var t := DisconnectAll(s, ids[..n - 1]);
      assert t.pending[0] == s.pending[n - 1];
      ErrorKeepsSound(t, ids[n - 1], Disconnected);
      FirstPending(t);
      FinishPending(t, 0, Rejected(Disconnected));
    }
  }

  lemma FirstPending<F>(s: Session<F>)
    requires Sound(s) && s.pending != []
    ensures Get(s.pending, s.pending[0].key) == Some(s.pending[0].value)
  {
    GetAt(s.pending, 0);
  }

  // ---------------------------------------------------------------- runs

  // A timer, a signal or a failing event sink may fire at any time, even for a request long settled.
  datatype Op<F> =
    | RequestOp(request: Request, aborted: bool, emitFails: bool)
    | TimeoutOp(requestId: string)
    | AbortOp(requestId: string)
    | EmitFailedOp(requestId: string)
    | ResultOp(result: ToolResult<F>)
    | DisconnectOp(reason: string)

  function Apply<F(==)>(s: Session<F>, op: Op<F>): Session<F> {
    match op
    case RequestOp(request, aborted, emitFails) => RequestTool(s, request, aborted, emitFails).0
    case TimeoutOp(requestId) => CompleteWithError(s, requestId, TimedOut)
    case AbortOp(requestId) => CompleteWithError(s, requestId, Aborted)
    case EmitFailedOp(requestId) => CompleteWithError(s, requestId, EmitFailed)
    case ResultOp(result) => ResolveToolResult(s, result).0
    case DisconnectOp(reason) => Disconnect(s, reason).0
  }

  function Run<F(==)>(ops: seq<Op<F>>): Session<F> {
    if ops == [] then Initial() else Apply(Run(ops[..|ops| - 1]), ops[|ops| - 1])
  }

  lemma NothingPending<F>(s: Session<F>, requestId: string, cause: Cause)
    requires s.pending == []
    ensures CompleteWithError(s, requestId, cause) == s
  {
  }

  lemma ResultKeepsValid<F>(s: Session<F>, result: ToolResult<F>)
    requires Valid(s)
    ensures Valid(ResolveToolResult(s, result).0)
  {
    var t := ResolveToolResult(s, result).0;
    if t != s {
      var i := PendingIndex(s, result.requestId);
      hide Sound;
      FinishKeepsSound(s, i, Resolved(result));
    }
  }

  lemma ErrorKeepsValid<F>(s: Session<F>, requestId: string, cause: Cause)
    requires Valid(s)
    ensures Valid(CompleteWithError(s, requestId, cause))
  {
    ErrorKeepsSound(s, requestId, cause);
    hide Sound;
    if s.pending == [] {
      NothingPending(s, requestId, cause);
    }
  }

  lemma RequestKeepsValid<F>(s: Session<F>, r: Request, aborted: bool, emitFails: bool)
    requires Valid(s)
    ensures Valid(RequestTool(s, r, aborted, emitFails).0)
  {
    hide Sound, HasKey, Set, CompleteWithError;
    if RequestTool(s, r, aborted, emitFails).1.Success? {
      AcceptKeepsSound(s, r);
      var accepted := s.(pending := Set(s.pending, r.requestId, Pending(r, s.tickets)), tickets := s.tickets + 1);
      ErrorKeepsValid(accepted, r.requestId, EmitFailed);
    }
  }

  lemma DisconnectKeepsValid<F>(s: Session<F>, reason: string)
    requires Valid(s)
    ensures Valid(Disconnect(s, reason).0)
    ensures Disconnect(s, reason).1 == None ==> Disconnect(s, reason).0.pending == [] && Disconnect(s, reason).0.disconnectReason.Some?
  {
    hide DisconnectAll, JsTrim;
    var marked := s.(disconnectReason := Some(JsTrim(reason)));
    assert Sound(marked);
    hide Sound;
    DisconnectSettlesAll(marked, |s.pending|);
    assert KeysOf(s.pending)[..|s.pending|] == KeysOf(s.pending);
  }

  lemma StepKeepsValid<F>(s: Session<F>, op: Op<F>)
    requires Valid(s)
    ensures Valid(Apply(s, op))
  {
    hide Valid, RequestTool, CompleteWithError, ResolveToolResult, Disconnect;
    match op {
      case RequestOp(request, aborted, emitFails) => RequestKeepsValid(s, request, aborted, emitFails);
      case TimeoutOp(requestId) => ErrorKeepsValid(s, requestId, TimedOut);
      case AbortOp(requestId) => ErrorKeepsValid(s, requestId, Aborted);
      case EmitFailedOp(requestId) => ErrorKeepsValid(s, requestId, EmitFailed);
      case ResultOp(result) => ResultKeepsValid(s, result);
      case DisconnectOp(reason) => DisconnectKeepsValid(s, reason);
    }
  }

  /** Whatever the interleaving, every session is valid. */
  lemma {:induction false} RunsStayValid<F>(ops: seq<Op<F>>)
    ensures Valid(Run(ops))
  {
    if ops != [] {
      RunsStayValid(ops[..|ops| - 1]);
      hide Valid;
      StepKeepsValid(Run(ops[..|ops| - 1]), ops[|ops| - 1]);
    }
  }

  // ---------------------------------------------------------------- what the runs guarantee

  predicate IsPending<F>(s: Session<F>, ticket: nat) {
    ticket in PendingTickets(s.pending)
  }

  predicate IsSettled<F>(s: Session<F>, ticket: nat) {
    ticket in SettledTickets(s.settlements)
  }

  lemma {:induction false} UpToOnce(n: nat, t: nat)
    ensures multiset(UpTo(n))[t] == if t < n then 1 else 0
  {
    if n > 0 {
      UpToOnce(n - 1, t);
      assert UpTo(n) == UpTo(n - 1) + [n - 1];
    }
  }

  /** Every accepted request is either still pending or settled, and settled once. */
  lemma SettledAtMostOnce<F>(ops: seq<Op<F>>, ticket: nat)
    ensures ticket < Run(ops).tickets <==> IsPending(Run(ops), ticket) || IsSettled(Run(ops), ticket)
    ensures !(IsPending(Run(ops), ticket) && IsSettled(Run(ops), ticket))
    ensures forall i, j :: 0 <= i < j < |Run(ops).settlements| ==>
              Run(ops).settlements[i].pending.ticket != Run(ops).settlements[j].pending.ticket
  {
    RunsStayValid(ops);
    var s := Run(ops);
    hide Run;
    TicketsOnce(s);
    assert ticket in PendingTickets(s.pending) <==> multiset(PendingTickets(s.pending))[ticket] > 0;
    assert ticket in SettledTickets(s.settlements) <==> multiset(SettledTickets(s.settlements))[ticket] > 0;
    UpToOnce(s.tickets, ticket);
    assert multiset(PendingTickets(s.pending))[ticket] + multiset(SettledTickets(s.settlements))[ticket] == multiset(UpTo(s.tickets))[ticket];
  }

  lemma TicketsOnce<F>(s: Session<F>)
    requires TicketsKept(s)
    ensures forall i, j :: 0 <= i < j < |s.settlements| ==> s.settlements[i].pending.ticket != s.settlements[j].pending.ticket
  {
    var t := SettledTickets(s.settlements);
    forall i, j | 0 <= i < j < |s.settlements| ensures s.settlements[i].pending.ticket != s.settlements[j].pending.ticket {
      if t[i] == t[j] {
        UpToOnce(s.tickets, t[i]);
        assert multiset(t)[t[i]] <= multiset(UpTo(s.tickets))[t[i]];
        MultisetRepeated(t, i, j);
      }
    }
  }

  /** What is settled stays settled the same way, and a disconnected session stays disconnected. */
  ghost predicate Follows<F>(before: Session<F>, after: Session<F>) {
    && before.settlements <= after.settlements
    && before.tickets <= after.tickets
    && (before.disconnectReason.Some? ==> after.disconnectReason == before.disconnectReason)
  }

  lemma {:induction false} DisconnectAllFollows<F>(s: Session<F>, ids: seq<string>)
    ensures Follows(s, DisconnectAll(s, ids)) && DisconnectAll(s, ids).disconnectReason == s.disconnectReason
  {
    if ids != [] {
      DisconnectAllFollows(s, ids[..|ids| - 1]);
      hide Set, Delete, Newest, Get;
    }
  }

  lemma StepFollows<F>(s: Session<F>, op: Op<F>)
    ensures Follows(s, Apply(s, op))
  {
    hide Set, Delete, Newest, Get, HasKey, DisconnectAll, JsTrim;
    if op.DisconnectOp? {
      DisconnectAllFollows(s.(disconnectReason := Some(JsTrim(op.reason))), KeysOf(s.pending));
    }
  }

  lemma {:induction false} RunFollows<F>(ops: seq<Op<F>>, more: seq<Op<F>>)
    ensures Follows(Run(ops), Run(ops + more))
  {
    if more == [] {
      assert ops + more == ops;
    } else {
      var all := ops + more;
      assert all[..|all| - 1] == ops + more[..|more| - 1];
      RunFollows(ops, more[..|more| - 1]);
      hide Apply;
      StepFollows(Run(all[..|all| - 1]), all[|all| - 1]);
    }
  }

  /** After a disconnect nothing is ever pending: all requests accepted so far are settled, and no
      request is accepted any more. */
  lemma DisconnectSettlesForever<F>(ops: seq<Op<F>>, reason: string, more: seq<Op<F>>, r: Request, aborted: bool, emitFails: bool)
    requires JsTrim(reason) != ""
    ensures var s := Run(ops + [DisconnectOp(reason)] + more);
            && s.pending == []
            && (forall ticket: nat :: IsSettled(s, ticket) <==> ticket < s.tickets)
            && RequestTool(s, r, aborted, emitFails) == (s, Failure(SessionDisconnected))
  {
    var before := ops + [DisconnectOp(reason)];
    assert before[..|before| - 1] == ops;
    RunsStayValid(ops);
    assert Run(before) == Disconnect(Run(ops), reason).0;
    DisconnectKeepsValid(Run(ops), reason);
    RunFollows(before, more);
    RunsStayValid(before + more);
    var s := Run(before + more);
    hide Run, Sound, JsTrim, DisconnectAll;
    forall ticket: nat ensures IsSettled(s, ticket) <==> ticket < s.tickets {
      SettledAtMostOnce(before + more, ticket);
    }
  }

  /** A pending request is settled by whichever of its events comes first, in its own way. */
  lemma FirstEventSettles<F>(ops: seq<Op<F>>, i: nat, op: Op<F>)
    requires i < |Run(ops).pending|
    requires op in {TimeoutOp(Run(ops).pending[i].key), AbortOp(Run(ops).pending[i].key), EmitFailedOp(Run(ops).pending[i].key)}
             || (op.ResultOp? && op.result.requestId == Run(ops).pending[i].key && Mismatch(Run(ops).pending[i].value.request, op.result) == None)
    ensures Run(ops + [op]).settlements == Run(ops).settlements + [Settlement(Run(ops).pending[i].value,
              if op.ResultOp? then Resolved(op.result)
              else Rejected(if op.TimeoutOp? then TimedOut else if op.AbortOp? then Aborted else EmitFailed))]
    ensures Run(ops + [op]).pending == Run(ops).pending[..i] + Run(ops).pending[i + 1..]
  {
    RunsStayValid(ops);
    var s := Run(ops);
    assert (ops + [op])[..|ops|] == ops;
    assert Run(ops + [op]) == Apply(s, op);
    hide Run;
    GetAt(s.pending, i);
    if op.ResultOp? {
      NotCompleted(s, i);
      FinishPending(s, i, Resolved(op.result));
    } else {
      FinishPending(s, i, Rejected(if op.TimeoutOp? then TimedOut else if op.AbortOp? then Aborted else EmitFailed));
    }
  }

  lemma NotCompleted<F>(s: Session<F>, i: nat)
    requires Disjoint(s) && i < |s.pending|
    ensures Get(s.completed, s.pending[i].key) == None
  {
  }

  /** The table of completed requests holds exactly the newest completions, at most 4096. */
  lemma CompletedAreNewest<F>(ops: seq<Op<F>>)
    ensures Run(ops).completed == Newest(Completions(Run(ops).settlements))
    ensures forall i, j :: 0 <= i < |Run(ops).pending| && 0 <= j < |Run(ops).completed| ==>
              Run(ops).pending[i].key != Run(ops).completed[j].key
  {
    RunsStayValid(ops);
    hide Run;
  }

  /** A settlement at most 4095 settlements old answers every later result for its request: the very
      result it was resolved with again changes nothing, any other one is a conflict. */
  lemma ReplayWithinWindow<F>(ops: seq<Op<F>>, k: nat, result: ToolResult<F>)
    requires k < |Run(ops).settlements| && |Run(ops).settlements| - k <= MAX_COMPLETED
    requires result.requestId == Run(ops).settlements[k].pending.request.requestId
    ensures ResolveToolResult(Run(ops), result) ==
            (Run(ops), if Fingerprint(Run(ops).settlements[k].outcome) == Some(result.fingerprint) then None else Some(ReplayConflict))
    ensures forall aborted, emitFails, r: Request :: r.requestId == result.requestId ==> !RequestTool(Run(ops), r, aborted, emitFails).1.Success?
  {
    RunsStayValid(ops);
    var s := Run(ops);
    hide Run;
    var all := Completions(s.settlements);
    var j := k - (|all| - |s.completed|);
    assert s.completed[j] == all[k];
    GetAt(s.completed, j);
  }
}
