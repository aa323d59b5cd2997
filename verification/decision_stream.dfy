/** The observer that releases a final message while the model is still writing its decision. */
module DecisionStream {
  import opened Text
  import opened JsonText

  const DECISION_LIMIT := 128 * 1024

  // ---------------------------------------------------------------- scanning, on the rest of the text

  /** The characters before the first unescaped quote, or all of them when there is none. */
  function CloseAt(s: string, escaped: bool): (n: nat)
    ensures n <= |s|
    ensures n < |s| ==> s[n] == '\"'
  {
    if s == "" || (s[0] == '\"' && !escaped) then 0
    else 1 + CloseAt(s[1..], s[0] == '\\' && !escaped)
  }

  function SkipBlanks(s: string): (r: string)
    ensures |r| <= |s|
  {
    if s != "" && IsBlank(s[0]) then SkipBlanks(s[1..]) else s
  }

  /** The text from the value of the wanted key on, if the scan gets there. */
  function Scan(s: string, depth: int, wanted: int, key: string): Option<string>
    decreases |s|
  {
    if s == "" then None
    else if s[0] == '{' || s[0] == '[' then Scan(s[1..], depth + 1, wanted, key)
    else if s[0] == '}' || s[0] == ']' then Scan(s[1..], depth - 1, wanted, key)
    else if s[0] == '\"' then ScanToken(s[1..], depth, wanted, key)
    else Scan(s[1..], depth, wanted, key)
  }

  /** The scan behind an opening quote. */
  function ScanToken(s: string, depth: int, wanted: int, key: string): Option<string>
    decreases |s|
  {
    var n := CloseAt(s, false);
    if n == |s| || Unquote(s[..n]).None? then None
    else
      var after := SkipBlanks(s[n + 1..]);
      if depth == wanted && Unquote(s[..n]).value == Bytes(key) && after != "" && after[0] == ':'
      then Some(SkipBlanks(after[1..]))
      else Scan(s[n + 1..], depth, wanted, key)
  }

  /** The content of an object field from behind its opening brace. */
  function ObjectField(s: string, depth: int, wanted: int, key: string): Option<string> {
    var at := Scan(s, depth, wanted, key);
    if at.Some? && at.value != "" && at.value[0] == '{' then Some(at.value[1..]) else None
  }

  /** The decoded value of a string field, as far as it has been written. */
  function StringField(s: string, depth: int, wanted: int, key: string): Option<seq<Byte>> {
    var at := Scan(s, depth, wanted, key);
    if at.Some? && at.value != "" && at.value[0] == '\"' then Unquote(at.value[1..][..CloseAt(at.value[1..], false)]) else None
  }

  /** The message that the text shows so far: `final.message`, once `kind` reads final. */
  function Visible(raw: string): Option<seq<Byte>> {
    if StringField(raw, 0, 1, "kind") != Some(Bytes("final")) then None
    else
      var final := ObjectField(raw, 0, 1, "final");
      if final.None? then None else StringField(final.value, 2, 2, "message")
  }

  // ---------------------------------------------------------------- the loops

  method SkipFrom(raw: string, start: nat) returns (index: nat)
    requires start <= |raw|
    ensures start <= index <= |raw| && raw[index..] == SkipBlanks(raw[start..])
  {
    index := start;
    while index < |raw| && IsBlank(raw[index])
      invariant start <= index <= |raw|
      invariant SkipBlanks(raw[start..]) == SkipBlanks(raw[index..])
    {
      index := index + 1;
    }
  }

  /** Reads the string token whose opening quote is at `start`. */
  method ScanStringToken(raw: string, start: nat) returns (value: Option<seq<Byte>>, next: nat)
    requires start < |raw|
    ensures var s := raw[start + 1..]; var n := CloseAt(s, false);
            if n == |s| then value == None
            else value == Unquote(s[..n]) && next == start + 1 + n + 1 && next <= |raw|
  {
    var escaped := false;
    ghost var s := raw[start + 1..];
    next := |raw|;
    for index := start + 1 to |raw|
      invariant CloseAt(s, false) == index - start - 1 + CloseAt(raw[index..], escaped)
    {
      if raw[index] == '\"' && !escaped {
        assert raw[start + 1..index] == s[..index - start - 1];
        return Unquote(raw[start + 1..index]), index + 1;
      }
      escaped := raw[index] == '\\' && !escaped;
    }
    return None, |raw|;
  }

  lemma ScanCharAt(raw: string, index: nat, depth: int, wanted: int, key: string)
    requires index < |raw| && raw[index] != '\"'
    ensures Scan(raw[index..], depth, wanted, key)
            == Scan(raw[index + 1..],
                    if raw[index] == '{' || raw[index] == '[' then depth + 1
                    else if raw[index] == '}' || raw[index] == ']' then depth - 1
                    else depth, wanted, key)
  {
    assert raw[index..][1..] == raw[index + 1..];
  }

  lemma ScanTokenAt(raw: string, index: nat, depth: int, wanted: int, key: string)
    requires index < |raw| && raw[index] == '\"'
    ensures var s := raw[index + 1..]; var n := CloseAt(s, false);
            if n == |s| || Unquote(s[..n]).None? then Scan(raw[index..], depth, wanted, key) == None
            else
              var after := SkipBlanks(raw[index + n + 2..]);
              Scan(raw[index..], depth, wanted, key)
              == if depth == wanted && Unquote(s[..n]).value == Bytes(key) && after != "" && after[0] == ':'
                 then Some(SkipBlanks(after[1..])) else Scan(raw[index + n + 2..], depth, wanted, key)
  {
    hide Unquote, Bytes, CloseAt, SkipBlanks;
    var n := CloseAt(raw[index + 1..], false);
    assert raw[index..][1..] == raw[index + 1..];
    if n < |raw[index + 1..]| {
      assert raw[index + 1..][n + 1..] == raw[index + n + 2..];
    }
  }

  /** Reads the token at `index`: either the scan ends there or it goes on at `next`. */
  method PassToken(raw: string, index: nat, depth: int, wanted: int, key: string) returns (done: bool, at: Option<nat>, next: nat)
    requires index < |raw| && raw[index] == '\"'
    ensures at.Some? ==> at.value <= |raw|
    ensures done ==> Scan(raw[index..], depth, wanted, key) == if at.Some? then Some(raw[at.value..]) else None
    ensures !done ==> index < next <= |raw| && Scan(raw[index..], depth, wanted, key) == Scan(raw[next..], depth, wanted, key)
  {
    hide Unquote, Bytes, CloseAt, SkipBlanks, Scan;
    ScanTokenAt(raw, index, depth, wanted, key);
    var value;
    value, next := ScanStringToken(raw, index);
    if value.None? {
      return true, None, next;
    }
    if depth != wanted || value.value != Bytes(key) {
      return false, None, next;
    }
    var behind := SkipFrom(raw, next);
    if behind >= |raw| || raw[behind] != ':' {
      ScanSkips(raw[next..], depth, wanted, key);
      return false, None, behind;
    }
    assert raw[behind..][1..] == raw[behind + 1..];
    var accepted := SkipFrom(raw, behind + 1);
    return true, Some(accepted), next;
  }

  /** Finds where the value of the wanted key begins. */
  method ScanDirectField(raw: string, start: nat, wanted: int, key: string) returns (at: Option<nat>)
    requires start <= |raw|
    ensures at.Some? ==> at.value <= |raw|
    ensures Scan(raw[start..], if start == 0 then 0 else wanted, wanted, key)
            == if at.Some? then Some(raw[at.value..]) else None
  {
    var depth := if start == 0 then 0 else wanted;
    var index := start;
    ghost var goal := Scan(raw[start..], depth, wanted, key);
    hide Scan;
    while index < |raw|
      invariant start <= index <= |raw|
      invariant Scan(raw[index..], depth, wanted, key) == goal
    {
      if raw[index] == '\"' {
        var done, accepted, next := PassToken(raw, index, depth, wanted, key);
        if done {
          return accepted;
        }
        index := next;
      } else {
        ScanCharAt(raw, index, depth, wanted, key);
        if raw[index] == '{' || raw[index] == '[' {
          depth := depth + 1;
        } else if raw[index] == '}' || raw[index] == ']' {
          depth := depth - 1;
        }
        index := index + 1;
      }
    }
    EndHoldsNothing(raw, depth, wanted, key);
    return None;
  }

  lemma EndHoldsNothing(raw: string, depth: int, wanted: int, key: string)
    ensures Scan(raw[|raw|..], depth, wanted, key) == None
  {
  }

  lemma {:induction false} ScanSkips(s: string, depth: int, wanted: int, key: string)
    ensures Scan(SkipBlanks(s), depth, wanted, key) == Scan(s, depth, wanted, key)
  {
    if s != "" && IsBlank(s[0]) {
      ScanSkips(s[1..], depth, wanted, key);
    }
  }

  method DirectObjectField(raw: string, start: nat, wanted: int, key: string) returns (inside: Option<nat>)
    requires start <= |raw|
    ensures inside.Some? ==> 0 < inside.value <= |raw|
    ensures ObjectField(raw[start..], if start == 0 then 0 else wanted, wanted, key)
            == if inside.Some? then Some(raw[inside.value..]) else None
  {
    var at := ScanDirectField(raw, start, wanted, key);
    if at.Some? && at.value < |raw| && raw[at.value] == '{' {
      return Some(at.value + 1);
    }
    return None;
  }

  method DirectStringField(raw: string, start: nat, wanted: int, key: string) returns (value: Option<seq<Byte>>)
    requires start <= |raw|
    ensures value == StringField(raw[start..], if start == 0 then 0 else wanted, wanted, key)
  {
    hide Scan, Unquote, Bytes;
    var at := ScanDirectField(raw, start, wanted, key);
    if at.None? || at.value >= |raw| || raw[at.value] != '\"' {
      return None;
    }
    var valueStart := at.value + 1;
    var end := valueStart;
    var escaped := false;
    ghost var s := raw[valueStart..];
    assert raw[at.value..][1..] == s;
    while end < |raw|
      invariant valueStart <= end <= |raw|
      invariant CloseAt(s, false) == end - valueStart + CloseAt(raw[end..], escaped)
    {
      if raw[end] == '\"' && !escaped {
        break;
      }
      escaped := raw[end] == '\\' && !escaped;
      end := end + 1;
    }
    assert raw[valueStart..end] == s[..CloseAt(s, false)];
    return Unquote(raw[valueStart..end]);
  }

  // ---------------------------------------------------------------- the observer

  datatype PushError = TooLarge | NotMonotonic

  datatype Observation = Observation(raw: string, emitted: seq<Byte>, result: Result<seq<Byte>, PushError>)

  /** One push: what the observer has read and released afterwards, and what it returns. */
  function Observe(raw: string, emitted: seq<Byte>, delta: string): Observation {
    if Utf8Len(raw) + Utf8Len(delta) > DECISION_LIMIT then Observation(raw, emitted, Failure(TooLarge))
    else
      var longer := raw + delta;
      var message := Visible(longer);
      if message.None? || |message.value| <= |emitted| then Observation(longer, emitted, Success([]))
      else if message.value[..|emitted|] != emitted then Observation(longer, emitted, Failure(NotMonotonic))
      else Observation(longer, message.value, Success(message.value[|emitted|..]))
  }

  class Observer {
    var raw: string
    var emitted: seq<Byte>

    constructor ()
      ensures raw == "" && emitted == []
    {
      raw, emitted := "", [];
    }

    method Push(delta: string) returns (r: Result<seq<Byte>, PushError>)
      modifies this
      ensures Observation(raw, emitted, r) == Observe(old(raw), old(emitted), delta)
    {
      hide StringField, ObjectField, Bytes, Utf8Len;
      if Utf8Len(raw) + Utf8Len(delta) > DECISION_LIMIT {
        return Failure(TooLarge);
      }
      raw := raw + delta;
      assert raw[0..] == raw;
      var kind := DirectStringField(raw, 0, 1, "kind");
      if kind != Some(Bytes("final")) {
        return Success([]);
      }
      var finalStart := DirectObjectField(raw, 0, 1, "final");
      if finalStart.None? {
        return Success([]);
      }
      var message := DirectStringField(raw, finalStart.value, 2, "message");
      if message.None? || |message.value| <= |emitted| {
        return Success([]);
      }
      if message.value[..|emitted|] != emitted {
        return Failure(NotMonotonic);
      }
      var visible := message.value[|emitted|..];
      emitted := message.value;
      return Success(visible);
    }
  }

  /** A push is refused as too large exactly when the text would grow beyond 128 KiB, and then changes
      nothing; any other push is read in full. */
  lemma PushFitsExactly(raw: string, emitted: seq<Byte>, delta: string)
    ensures var o := Observe(raw, emitted, delta);
            && (o.result == Failure(TooLarge) <==> |Bytes(raw)| + |Bytes(delta)| > 131072)
            && (if |Bytes(raw)| + |Bytes(delta)| > 131072 then o.raw == raw && o.emitted == emitted else o.raw == raw + delta)
  {
    LengthInBytes(raw);
    LengthInBytes(delta);
    hide Visible, Bytes, Utf8Len;
  }

  // ---------------------------------------------------------------- growing texts

  /** Where a token is closed does not depend on what follows. */
  lemma {:induction false} CloseAtGrows(s: string, more: string, escaped: bool)
    ensures CloseAt(s, escaped) < |s| ==> CloseAt(s + more, escaped) == CloseAt(s, escaped)
    ensures CloseAt(s, escaped) == |s| ==> CloseAt(s + more, escaped) >= |s|
  {
    if s != "" && !(s[0] == '\"' && !escaped) {
      CloseAtGrows(s[1..], more, s[0] == '\\' && !escaped);
      assert (s + more)[1..] == s[1..] + more;
    }
  }

  lemma {:induction false} SkipBlanksGrows(s: string, more: string)
    requires SkipBlanks(s) != ""
    ensures SkipBlanks(s + more) == SkipBlanks(s) + more
  {
    if IsBlank(s[0]) {
      SkipBlanksGrows(s[1..], more);
      assert (s + more)[1..] == s[1..] + more;
    }
  }

  /** A scan over blanks finds nothing. */
  lemma {:induction false} BlanksHoldNothing(s: string, depth: int, wanted: int, key: string)
    requires SkipBlanks(s) == ""
    ensures Scan(s, depth, wanted, key) == None
  {
    if s != "" {
      BlanksHoldNothing(s[1..], depth, wanted, key);
    }
  }

  predicate Found(at: Option<string>) {
    at.Some? && at.value != ""
  }

  /** Once the beginning of a value has been found it stays found. */
  lemma {:induction false} ScanGrows(s: string, more: string, depth: int, wanted: int, key: string)
    requires Found(Scan(s, depth, wanted, key))
    ensures Scan(s + more, depth, wanted, key) == Some(Scan(s, depth, wanted, key).value + more)
    decreases |s|, 1
  {
    hide ScanToken;
    assert (s + more)[0] == s[0] && (s + more)[1..] == s[1..] + more;
    if s[0] == '{' || s[0] == '[' {
      ScanGrows(s[1..], more, depth + 1, wanted, key);
    } else if s[0] == '}' || s[0] == ']' {
      ScanGrows(s[1..], more, depth - 1, wanted, key);
    } else if s[0] == '\"' {
      TokenGrows(s[1..], more, depth, wanted, key);
    } else {
      ScanGrows(s[1..], more, depth, wanted, key);
    }
  }

  lemma {:induction false} TokenGrows(s: string, more: string, depth: int, wanted: int, key: string)
    requires Found(ScanToken(s, depth, wanted, key))
    ensures ScanToken(s + more, depth, wanted, key) == Some(ScanToken(s, depth, wanted, key).value + more)
    decreases |s|, 0
  {
    hide Unquote, Bytes, CloseAt, SkipBlanks, Scan;
    var n := CloseAt(s, false);
    CloseAtGrows(s, more, false);
    assert (s + more)[..n] == s[..n];
    assert (s + more)[n + 1..] == s[n + 1..] + more;
    var rest := s[n + 1..];
    if SkipBlanks(rest) == "" {
      BlanksHoldNothing(rest, depth, wanted, key);
    } else {
      SkipBlanksGrows(rest, more);
      var after := SkipBlanks(rest);
      assert (after + more)[0] == after[0] && (after + more)[1..] == after[1..] + more;
      if depth == wanted && Unquote(s[..n]).value == Bytes(key) && after[0] == ':' {
        SkipBlanksGrows(after[1..], more);
      } else {
        ScanGrows(rest, more, depth, wanted, key);
      }
    }
  }

  lemma ObjectFieldGrows(s: string, more: string, depth: int, wanted: int, key: string)
    requires ObjectField(s, depth, wanted, key).Some?
    ensures ObjectField(s + more, depth, wanted, key) == Some(ObjectField(s, depth, wanted, key).value + more)
  {
    ScanGrows(s, more, depth, wanted, key);
    hide Scan;
    var at := Scan(s, depth, wanted, key).value;
    assert (at + more)[0] == at[0] && (at + more)[1..] == at[1..] + more;
  }

  /** What a growing text shows of a string only grows. */
  lemma StringFieldGrows(s: string, more: string, depth: int, wanted: int, key: string)
    requires StringField(s, depth, wanted, key).Some? && StringField(s + more, depth, wanted, key).Some?
    ensures StringField(s, depth, wanted, key).value <= StringField(s + more, depth, wanted, key).value
  {
    ScanGrows(s, more, depth, wanted, key);
    hide Scan, Unquote;
    var at := Scan(s, depth, wanted, key).value;
    var rest := at[1..];
    assert (at + more)[0] == at[0] && (at + more)[1..] == rest + more;
    var n, m := CloseAt(rest, false), CloseAt(rest + more, false);
    CloseAtGrows(rest, more, false);
    hide CloseAt;
    assert rest[..n] + (rest + more)[n..m] == (rest + more)[..m];
    UnquoteAppend(rest[..n], (rest + more)[n..m]);
  }

  /** A longer text shows an extension of the message of a shorter one. */
  lemma VisibleGrows(raw: string, more: string)
    requires Visible(raw).Some? && Visible(raw + more).Some?
    ensures Visible(raw).value <= Visible(raw + more).value
  {
    hide StringField, ObjectField, Bytes;
    ObjectFieldGrows(raw, more, 0, 1, "final");
    var final := ObjectField(raw, 0, 1, "final").value;
    StringFieldGrows(final, more, 2, 2, "message");
  }

  // ---------------------------------------------------------------- whole streams

  /** The observer after a sequence of pushes. */
  function After(chunks: seq<string>): Observation {
    if chunks == [] then Observation("", [], Success([]))
    else
      var before := After(chunks[..|chunks| - 1]);
      Observe(before.raw, before.emitted, chunks[|chunks| - 1])
  }

  /** Everything the pushes returned, in order. */
  function Outputs(chunks: seq<string>): seq<Byte> {
    if chunks == [] then []
    else
      Outputs(chunks[..|chunks| - 1]) + (if After(chunks).result.Success? then After(chunks).result.value else [])
  }

  /** What was released was shown by some earlier state of the text. */
  ghost predicate ShownBefore(raw: string, emitted: seq<Byte>) {
    emitted == [] || exists n :: 0 <= n <= |raw| && Visible(raw[..n]) == Some(emitted)
  }

  lemma ShownLater(raw: string, emitted: seq<Byte>, delta: string)
    requires ShownBefore(raw, emitted)
    ensures ShownBefore(raw + delta, emitted)
    ensures Visible(raw + delta).Some? ==> emitted <= Visible(raw + delta).value
  {
    hide Visible;
    if emitted != [] {
      var n :| 0 <= n <= |raw| && Visible(raw[..n]) == Some(emitted);
      assert (raw + delta)[..n] == raw[..n];
      if Visible(raw + delta).Some? {
        assert raw[..n] + (raw[n..] + delta) == raw + delta;
        VisibleGrows(raw[..n], raw[n..] + delta);
      }
    }
  }

  /** What was released is what the text shows, whenever it shows something. */
  ghost predicate UpToDate(raw: string, emitted: seq<Byte>) {
    ShownBefore(raw, emitted) && (Visible(raw).Some? ==> emitted == Visible(raw).value)
  }

  lemma ObserveKeepsUp(raw: string, emitted: seq<Byte>, delta: string)
    requires UpToDate(raw, emitted)
    ensures var o := Observe(raw, emitted, delta);
            && o.result != Failure(NotMonotonic) && UpToDate(o.raw, o.emitted)
            && o.emitted == emitted + (if o.result.Success? then o.result.value else [])
  {
    hide Visible, Utf8Len, ShownBefore;
    ShownLater(raw, emitted, delta);
    assert emitted + [] == emitted;
    var o := Observe(raw, emitted, delta);
    if o.emitted != emitted {
      NowShown(o.raw, o.emitted);
    }
  }

  lemma NowShown(raw: string, emitted: seq<Byte>)
    requires Visible(raw) == Some(emitted)
    ensures ShownBefore(raw, emitted)
  {
    hide Visible;
    assert raw[..|raw|] == raw;
  }

  /** Whatever the text and however it is cut, no push fails as not monotonic, the outputs together
      are what the observer has released, and that is the message whenever the text shows one. */
  lemma {:induction false} StreamIsMonotonic(chunks: seq<string>)
    ensures After(chunks).result != Failure(NotMonotonic)
    ensures Outputs(chunks) == After(chunks).emitted
    ensures ShownBefore(After(chunks).raw, After(chunks).emitted)
    ensures Visible(After(chunks).raw).Some? ==> After(chunks).emitted == Visible(After(chunks).raw).value
  {
    hide Visible, Observe, ShownBefore;
    if chunks == [] {
      assert Visible("").None? by { NothingShowsNothing(); }
      NothingReleased();
    } else {
      var front, delta := chunks[..|chunks| - 1], chunks[|chunks| - 1];
      StreamIsMonotonic(front);
      ObserveKeepsUp(After(front).raw, After(front).emitted, delta);
    }
  }

  lemma NothingReleased()
    ensures ShownBefore("", [])
  {
    hide Visible;
  }

  lemma NothingShowsNothing()
    ensures Visible("") == None
  {
    hide Bytes;
  }
}
