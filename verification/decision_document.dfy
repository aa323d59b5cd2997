/** What the observer releases of a well-formed final decision. */
module DecisionDocument {
  import opened Text
  import opened JsonText
  import opened DecisionStream

  // ---------------------------------------------------------------- UTF-8 is injective

  lemma EncodeIsPrefixFree(c: char, d: char, x: seq<Byte>, y: seq<Byte>)
    requires Encode(c) + x == Encode(d) + y
    ensures c == d && x == y
  {
    var a, b := Encode(c) + x, Encode(d) + y;
    assert a[0] == Encode(c)[0] && b[0] == Encode(d)[0];
    assert |Encode(c)| == |Encode(d)|;
    assert a[..|Encode(c)|] == Encode(c) && b[..|Encode(d)|] == Encode(d);
    assert a[|Encode(c)|..] == x && b[|Encode(d)|..] == y;
    SameEncoding(c, d);
  }

  /** A number is known from its digits to the base 64. */
  lemma Base64Digits(n: nat)
    ensures n == n / 64 * 64 + n % 64
    ensures n == n / 4096 * 4096 + n / 64 % 64 * 64 + n % 64
    ensures n == n / 262144 * 262144 + n / 4096 % 64 * 4096 + n / 64 % 64 * 64 + n % 64
  {
    var a, b, c := n / 64, n / 4096, n / 262144;
    assert b == a / 64;
    assert c == b / 64;
  }

  lemma SameEncoding(c: char, d: char)
    requires Encode(c) == Encode(d)
    ensures c == d
  {
    var e, f, m, n := Encode(c), Encode(d), c as int, d as int;
    assert e[0] == f[0];
    if 0x80 <= m {
      assert e[1] == f[1];
      if 0x800 <= m {
        assert e[2] == f[2];
        if 0x10000 <= m {
          assert e[3] == f[3];
        }
      }
    }
    Base64Digits(m);
    Base64Digits(n);
  }

  lemma {:induction false} BytesInjective(a: string, b: string)
    requires Bytes(a) == Bytes(b)
    ensures a == b
  {
    if a != "" && b != "" {
      EncodeIsPrefixFree(a[0], b[0], Bytes(a[1..]), Bytes(b[1..]));
      BytesInjective(a[1..], b[1..]);
    }
  }

  // ---------------------------------------------------------------- scanning rendered parts

  predicate Inert(c: char) {
    c !in ['{', '}', '[', ']', '\"']
  }

  lemma {:induction false} ScanInert(w: string, post: string, depth: int, wanted: int, key: string)
    requires forall i :: 0 <= i < |w| ==> Inert(w[i])
    ensures Scan(w + post, depth, wanted, key) == Scan(post, depth, wanted, key)
  {
    if w == "" {
      assert w + post == post;
    } else {
      assert (w + post)[0] == w[0] && (w + post)[1..] == w[1..] + post;
      ScanInert(w[1..], post, depth, wanted, key);
    }
  }

  lemma {:induction false} CloseAtRun(run: string, rest: string)
    requires forall i :: 0 <= i < |run| ==> run[i] != '\"' && run[i] != '\\'
    ensures CloseAt(run + rest, false) == |run| + CloseAt(rest, false)
  {
    if run == "" {
      assert run + rest == rest;
    } else {
      assert (run + rest)[0] == run[0] && (run + rest)[1..] == run[1..] + rest;
      CloseAtRun(run[1..], rest);
    }
  }

  lemma CloseAtPiece(p: Piece, rest: string)
    requires ValidPiece(p)
    ensures CloseAt(PieceText(p) + rest, false) == |PieceText(p)| + CloseAt(rest, false)
  {
    var s := PieceText(p) + rest;
    match p {
      case Plain(c) =>
        assert s[1..] == rest;
      case Short(c) =>
        assert s[1..][0] == c && s[1..][1..] == rest;
      case Unicode(digits) =>
        assert s[1..][0] == 'u' && s[1..][1..] == digits + rest;
        CloseAtRun(digits, rest);
    }
  }

  /** A rendered literal is closed by its own closing quote. */
  lemma {:induction false} CloseAtLiteral(l: Literal, rest: string)
    requires ValidLiteral(l)
    ensures CloseAt(LiteralText(l) + (['\"'] + rest), false) == |LiteralText(l)|
  {
    var q := ['\"'] + rest;
    if l == [] {
      assert LiteralText(l) + q == q;
    } else {
      CloseAtLiteral(l[1..], rest);
      CloseAtPiece(l[0], LiteralText(l[1..]) + q);
      assert LiteralText(l) + q == PieceText(l[0]) + (LiteralText(l[1..]) + q);
    }
  }

  /** The text does not go on with a colon. */
  predicate NoColon(s: string) {
    SkipBlanks(s) == "" || SkipBlanks(s)[0] != ':'
  }

  lemma ScanChar(c: char, post: string, depth: int, wanted: int, key: string)
    ensures Scan([c] + post, depth, wanted, key) ==
            if c == '{' || c == '[' then Scan(post, depth + 1, wanted, key)
            else if c == '}' || c == ']' then Scan(post, depth - 1, wanted, key)
            else if c == '\"' then ScanToken(post, depth, wanted, key)
            else Scan(post, depth, wanted, key)
  {
    assert ([c] + post)[1..] == post;
  }

  lemma UnquoteNames(l: Literal, key: string)
    requires ValidLiteral(l)
    ensures Unquote(LiteralText(l)).Some? <==> AllDecode(l)
    ensures AllDecode(l) ==> (Unquote(LiteralText(l)).value == Bytes(key) <==> Means(l, key))
  {
    UnquoteExactly(l);
    hide Unquote, LiteralText, AllDecode, Bytes, Meaning;
    if AllDecode(l) && Bytes(Meaning(l)) == Bytes(key) {
      BytesInjective(Meaning(l), key);
    }
  }

  lemma ScanString(l: Literal, post: string, depth: int, wanted: int, key: string)
    requires ValidLiteral(l)
    ensures Scan(StringText(l) + post, depth, wanted, key) ==
            if !AllDecode(l) then None
            else if depth == wanted && Means(l, key) && !NoColon(post) then Some(SkipBlanks(SkipBlanks(post)[1..]))
            else Scan(post, depth, wanted, key)
  {
    var text := LiteralText(l);
    var s := text + (['\"'] + post);
    assert StringText(l) + post == ['\"'] + s;
    ScanChar('\"', s, depth, wanted, key);
    CloseAtLiteral(l, post);
    UnquoteNames(l, key);
    hide Unquote, CloseAt, LiteralText, AllDecode, Bytes, Means, Scan, StringText, SkipBlanks;
    assert s[..|text|] == text;
    assert s[|text| + 1..] == post;
  }

  lemma BlankIsInert(s: string)
    requires AllBlank(s)
    ensures forall i :: 0 <= i < |s| ==> Inert(s[i])
  {
  }

  lemma AtomIsInert(s: string)
    requires ValidAtom(s)
    ensures forall i :: 0 <= i < |s| ==> Inert(s[i])
  {
  }

  /** A scan passes over a whole value, unless Go fails on one of its strings. */
  lemma {:induction false} ScanValue(v: Value, post: string, depth: int, wanted: int, key: string)
    requires ValidValue(v) && depth >= wanted && (depth > wanted || NoColon(post))
    ensures Scan(ValueText(v) + post, depth, wanted, key) == if ValueDecodes(v) then Scan(post, depth, wanted, key) else None
    decreases v, 0
  {
    hide Scan;
    match v {
      case Str(l) =>
        ScanString(l, post, depth, wanted, key);
      case Atom(text) =>
        AtomIsInert(text);
        ScanInert(text, post, depth, wanted, key);
      case Arr(items) =>
        assert ValueText(v) + post == ['['] + (ItemsText(items) + ([']'] + post));
        ScanChar('[', ItemsText(items) + ([']'] + post), depth, wanted, key);
        ScanItems(items, [']'] + post, depth + 1, wanted, key);
        ScanChar(']', post, depth + 1, wanted, key);
      case Obj(ms) =>
        assert ValueText(v) + post == ['{'] + (MembersText(ms) + (['}'] + post));
        ScanChar('{', MembersText(ms) + (['}'] + post), depth, wanted, key);
        ScanMembers(ms, ['}'] + post, depth + 1, wanted, key);
        ScanChar('}', post, depth + 1, wanted, key);
    }
  }

  predicate ClosesArray(post: string) {
    post != "" && post[0] == ']'
  }

  lemma {:induction false} ScanItems(items: Items, post: string, depth: int, wanted: int, key: string)
    requires ValidItems(items) && (depth > wanted || (depth == wanted && ClosesArray(post)))
    ensures Scan(ItemsText(items) + post, depth, wanted, key) == if ItemsDecode(items) then Scan(post, depth, wanted, key) else None
    decreases items, 0
  {
    hide Scan;
    match items {
      case NoItem(blank) =>
        BlankIsInert(blank);
        ScanInert(blank, post, depth, wanted, key);
      case Item(before, value, after, rest) =>
        var more := MoreItemsText(rest) + post;
        assert ItemsText(items) + post == before + (ValueText(value) + (after + more));
        BlankIsInert(before);
        BlankIsInert(after);
        ScanInert(before, ValueText(value) + (after + more), depth, wanted, key);
        if depth == wanted {
          NoColonAfterItem(after, rest, post);
        }
        ScanValue(value, after + more, depth, wanted, key);
        ScanInert(after, more, depth, wanted, key);
        ScanItems(rest, post, depth, wanted, key);
        if !rest.NoItem? {
          assert more == [','] + (ItemsText(rest) + post);
          ScanChar(',', ItemsText(rest) + post, depth, wanted, key);
        }
    }
  }

  /** After an item come blanks and then a comma or the closing bracket. */
  lemma NoColonAfterItem(after: string, rest: Items, post: string)
    requires AllBlank(after) && ValidItems(rest) && ClosesArray(post)
    ensures NoColon(after + (MoreItemsText(rest) + post))
  {
    if rest.NoItem? {
      var blank := after + rest.blank;
      assert AllBlank(blank);
      assert after + (MoreItemsText(rest) + post) == blank + post;
      SkipRun(blank, post);
    } else {
      hide ItemsText;
      assert MoreItemsText(rest) + post == [','] + (ItemsText(rest) + post);
      SkipRun(after, MoreItemsText(rest) + post);
    }
  }

  lemma {:induction false} ScanMembers(ms: Members, post: string, depth: int, wanted: int, key: string)
    requires ValidMembers(ms) && depth > wanted
    ensures Scan(MembersText(ms) + post, depth, wanted, key) == if MembersDecode(ms) then Scan(post, depth, wanted, key) else None
    decreases ms, 0
  {
    hide Scan;
    match ms {
      case NoMember(blank) =>
        BlankIsInert(blank);
        ScanInert(blank, post, depth, wanted, key);
      case Member(before, k, afterKey, beforeValue, value, afterValue, rest) =>
        var more := MoreMembersText(rest) + post;
        MemberText(ms, post);
        BlankIsInert(before);
        ScanInert(before, StringText(k) + (afterKey + ([':'] + (beforeValue + (ValueText(value) + (afterValue + more))))), depth, wanted, key);
        ScanString(k, afterKey + ([':'] + (beforeValue + (ValueText(value) + (afterValue + more)))), depth, wanted, key);
        ScanColon(afterKey, beforeValue, ValueText(value) + (afterValue + more), depth, wanted, key);
        ScanValue(value, afterValue + more, depth, wanted, key);
        BlankIsInert(afterValue);
        ScanInert(afterValue, more, depth, wanted, key);
        ScanMore(rest, post, depth, wanted, key);
        ScanMembers(rest, post, depth, wanted, key);
    }
  }

  lemma MemberText(ms: Members, post: string)
    requires ms.Member?
    ensures MembersText(ms) + post ==
            ms.before + (StringText(ms.key) + (ms.afterKey + ([':'] + (ms.beforeValue
            + (ValueText(ms.value) + (ms.afterValue + (MoreMembersText(ms.rest) + post)))))))
  {
    hide StringText, ValueText, MoreMembersText;
  }

  lemma ScanColon(afterKey: string, beforeValue: string, post: string, depth: int, wanted: int, key: string)
    requires AllBlank(afterKey) && AllBlank(beforeValue)
    ensures Scan(afterKey + ([':'] + (beforeValue + post)), depth, wanted, key) == Scan(post, depth, wanted, key)
  {
    hide Scan;
    BlankIsInert(afterKey);
    BlankIsInert(beforeValue);
    ScanInert(afterKey, [':'] + (beforeValue + post), depth, wanted, key);
    ScanChar(':', beforeValue + post, depth, wanted, key);
    ScanInert(beforeValue, post, depth, wanted, key);
  }

  lemma ScanMore(rest: Members, post: string, depth: int, wanted: int, key: string)
    ensures Scan(MoreMembersText(rest) + post, depth, wanted, key) == Scan(MembersText(rest) + post, depth, wanted, key)
  {
    hide Scan;
    if rest.Member? {
      hide MembersText;
      assert MoreMembersText(rest) + post == [','] + (MembersText(rest) + post);
      ScanChar(',', MembersText(rest) + post, depth, wanted, key);
    }
  }

  // ---------------------------------------------------------------- finding a member

  lemma {:induction false} SkipRun(w: string, post: string)
    requires AllBlank(w) && (post == "" || !IsBlank(post[0]))
    ensures SkipBlanks(w + post) == post
  {
    if w == "" {
      assert w + post == post;
    } else {
      assert (w + post)[0] == w[0] && (w + post)[1..] == w[1..] + post;
      SkipRun(w[1..], post);
    }
  }

  lemma ValueStarts(v: Value)
    requires ValidValue(v)
    ensures ValueText(v) != "" && !IsBlank(ValueText(v)[0])
  {
    match v {
      case Str(l) =>
      case Atom(text) =>
        assert AtomChar(text[0]);
      case Arr(items) =>
      case Obj(ms) =>
    }
  }

  predicate Closes(post: string) {
    post != "" && post[0] == '}'
  }

  /** After the value of a member come blanks and then a comma or the closing brace. */
  lemma NoColonAfterValue(ms: Members, post: string)
    requires ms.Member? && ValidMembers(ms) && Closes(post)
    ensures NoColon(ms.afterValue + (MoreMembersText(ms.rest) + post))
  {
    if ms.rest.Member? {
      assert MoreMembersText(ms.rest) + post == [','] + (MembersText(ms.rest) + post);
      SkipRun(ms.afterValue, MoreMembersText(ms.rest) + post);
    } else {
      var blank := ms.afterValue + ms.rest.blank;
      assert AllBlank(blank);
      assert ms.afterValue + (MoreMembersText(ms.rest) + post) == blank + post;
      SkipRun(blank, post);
    }
  }

  /** At the level of its members, a scan for a key stops at the value of the first member with this
      key, unless Go fails on a string before it. */
  lemma {:induction false} ScanFinds(ms: Members, post: string, wanted: int, key: string)
    requires ValidMembers(ms) && Closes(post) && Lookup(ms, key).Some?
    ensures Scan(MembersText(ms) + post, wanted, wanted, key) ==
            if DecodesUpTo(ms, key) then Some(ValueText(Lookup(ms, key).value) + (TextAfter(ms, key) + post)) else None
    decreases ms
  {
    hide Scan;
    var value, more := ms.value, MoreMembersText(ms.rest) + post;
    var atValue := ValueText(value) + (ms.afterValue + more);
    var behindKey := ms.afterKey + ([':'] + (ms.beforeValue + atValue));
    MemberText(ms, post);
    BlankIsInert(ms.before);
    ScanInert(ms.before, StringText(ms.key) + behindKey, wanted, wanted, key);
    ScanString(ms.key, behindKey, wanted, wanted, key);
    ValueStarts(value);
    SkipRun(ms.afterKey, [':'] + (ms.beforeValue + atValue));
    SkipRun(ms.beforeValue, atValue);
    assert ([':'] + (ms.beforeValue + atValue))[1..] == ms.beforeValue + atValue;
    if Means(ms.key, key) {
      assert (ms.afterValue + MoreMembersText(ms.rest)) + post == ms.afterValue + more;
    } else {
      ScanColon(ms.afterKey, ms.beforeValue, atValue, wanted, wanted, key);
      NoColonAfterValue(ms, post);
      ScanValue(value, ms.afterValue + more, wanted, wanted, key);
      BlankIsInert(ms.afterValue);
      ScanInert(ms.afterValue, more, wanted, wanted, key);
      ScanMore(ms.rest, post, wanted, wanted, key);
      ScanFinds(ms.rest, post, wanted, key);
    }
  }

  // ---------------------------------------------------------------- final decisions

  datatype Document = Document(lead: string, members: Members, trail: string)

  function DocumentText(d: Document): string {
    d.lead + ['{'] + MembersText(d.members) + ['}'] + d.trail
  }

  /** A decision whose kind is written as `kind`, with an object `final` that holds a message. */
  ghost predicate FinalDecision(d: Document, kind: Literal, final: Members, message: Literal) {
    && AllBlank(d.lead) && AllBlank(d.trail) && ValidMembers(d.members)
    && Lookup(d.members, "kind") == Some(Str(kind)) && ValidLiteral(kind)
    && Lookup(d.members, "final") == Some(Obj(final)) && ValidMembers(final)
    && Lookup(final, "message") == Some(Str(message)) && ValidLiteral(message)
  }

  /** Go decodes every string that stands before the three values the observer looks for. */
  predicate Reads(d: Document, final: Members)
    requires ValidMembers(d.members) && ValidMembers(final)
  {
    DecodesUpTo(d.members, "kind") && DecodesUpTo(d.members, "final") && DecodesUpTo(final, "message")
  }

  lemma ScanDocument(d: Document, key: string)
    requires AllBlank(d.lead) && ValidMembers(d.members) && Lookup(d.members, key).Some?
    ensures Scan(DocumentText(d), 0, 1, key) ==
            if DecodesUpTo(d.members, key)
            then Some(ValueText(Lookup(d.members, key).value) + (TextAfter(d.members, key) + (['}'] + d.trail))) else None
  {
    var inside := MembersText(d.members) + (['}'] + d.trail);
    assert DocumentText(d) == d.lead + (['{'] + inside);
    BlankIsInert(d.lead);
    ScanInert(d.lead, ['{'] + inside, 0, 1, key);
    ScanChar('{', inside, 0, 1, key);
    ScanFinds(d.members, ['}'] + d.trail, 1, key);
  }

  lemma StringAt(l: Literal, rest: string)
    requires ValidLiteral(l)
    ensures var at := StringText(l) + rest;
            at != "" && at[0] == '\"' && Unquote(at[1..][..CloseAt(at[1..], false)]) == (if AllDecode(l) then Some(Bytes(Meaning(l))) else None)
  {
    hide Unquote, CloseAt, LiteralText;
    var at, text := StringText(l) + rest, LiteralText(l);
    assert at[1..] == text + (['\"'] + rest);
    CloseAtLiteral(l, rest);
    assert at[1..][..|text|] == text;
    UnquoteExactly(l);
  }

  /** Where the scan for the message starts, and what it finds there. */
  lemma ScanFinal(d: Document, kind: Literal, final: Members, message: Literal) returns (inside: string, rest: string)
    requires FinalDecision(d, kind, final, message)
    ensures ObjectField(DocumentText(d), 0, 1, "final") == if DecodesUpTo(d.members, "final") then Some(inside) else None
    ensures Scan(inside, 2, 2, "message") == if DecodesUpTo(final, "message") then Some(StringText(message) + rest) else None
  {
    hide Scan, DecodesUpTo, TextAfter, DocumentText, StringText, ValidMembers, Lookup;
    ScanDocument(d, "final");
    inside, rest := ScanInside(final, message, TextAfter(d.members, "final") + (['}'] + d.trail));
  }

  lemma ScanInside(final: Members, message: Literal, behind: string) returns (inside: string, rest: string)
    requires ValidMembers(final) && Lookup(final, "message") == Some(Str(message)) && ValidLiteral(message)
    ensures ValueText(Obj(final)) + behind == ['{'] + inside
    ensures Scan(inside, 2, 2, "message") == if DecodesUpTo(final, "message") then Some(StringText(message) + rest) else None
  {
    hide Scan, DecodesUpTo, TextAfter, StringText;
    inside := MembersText(final) + (['}'] + behind);
    ScanFinds(final, ['}'] + behind, 2, "message");
    rest := TextAfter(final, "message") + (['}'] + behind);
  }

  /** A whole final decision shows its decoded message, exactly when it reads through, its kind
      means final and Go decodes the message. */
  lemma DocumentShowsMessage(d: Document, kind: Literal, final: Members, message: Literal)
    requires FinalDecision(d, kind, final, message)
    ensures Visible(DocumentText(d)) ==
            if Reads(d, final) && Means(kind, "final") && AllDecode(message) then Some(Bytes(Meaning(message))) else None
  {
    hide Scan, Unquote, CloseAt, DecodesUpTo, StringText, DocumentText;
    var behind := TextAfter(d.members, "kind") + (['}'] + d.trail);
    ScanDocument(d, "kind");
    StringAt(kind, behind);
    if AllDecode(kind) && Bytes(Meaning(kind)) == Bytes("final") {
      BytesInjective(Meaning(kind), "final");
    }
    var inside, rest := ScanFinal(d, kind, final, message);
    StringAt(message, rest);
    hide Bytes, Meaning, AllDecode, ObjectField;
  }

  // ---------------------------------------------------------------- decisions still being written

  /** No proper front part of an escape decodes. */
  lemma TornPiece(p: Piece, n: nat)
    requires ValidPiece(p) && 0 < n < |PieceText(p)|
    ensures Unquote(PieceText(p)[..n]) == None
  {
    var s := PieceText(p)[..n];
    assert s[0] == '\\';
    if n == 1 {
      assert s[1..] == "";
    } else {
      assert s[1] == 'u' && s[1..][0] == 'u';
    }
  }

  /** The bytes are those of the first i pieces of the literal. */
  ghost predicate ShowsPieces(shown: Option<seq<Byte>>, l: Literal, i: nat)
    requires ValidLiteral(l)
  {
    i <= |l| && AllDecode(l[..i]) && shown == Some(Bytes(Meaning(l[..i])))
  }

  /** If Go decodes a front part of a literal's text, it ends between two pieces. */
  lemma {:induction false} PrefixEndsAtPiece(l: Literal, n: nat) returns (i: nat)
    requires ValidLiteral(l) && n <= |LiteralText(l)| && Unquote(LiteralText(l)[..n]).Some?
    ensures ShowsPieces(Unquote(LiteralText(l)[..n]), l, i)
  {
    var text := LiteralText(l);
    i := 0;
    if n > 0 {
      var p, rest := l[0], LiteralText(l[1..]);
      hide Unquote, PieceText, Decodes, PieceMeaning, Encode, ValidPiece;
      if n < |PieceText(p)| {
        assert text[..n] == PieceText(p)[..n];
        TornPiece(p, n);
      } else {
        var m := n - |PieceText(p)|;
        assert text[..n] == PieceText(p) + rest[..m];
        PieceUnquotes(p, rest[..m]);
        var j := PrefixEndsAtPiece(l[1..], m);
        i := j + 1;
        assert l[..i][1..] == l[1..][..j];
        forall k | 0 <= k < i ensures Decodes(l[..i][k]) {
          assert k > 0 ==> l[..i][k] == l[1..][..j][k - 1];
        }
        assert Meaning(l[..i])[1..] == Meaning(l[1..][..j]);
      }
    }
  }

  lemma OpenLiteral(at: string, more: string, l: Literal, rest: string) returns (i: nat)
    requires ValidLiteral(l) && at != "" && at + more == StringText(l) + rest
    requires Unquote(at[1..][..CloseAt(at[1..], false)]).Some?
    ensures ShowsPieces(Unquote(at[1..][..CloseAt(at[1..], false)]), l, i)
  {
    hide Unquote, LiteralText, ShowsPieces, CloseAt;
    assert (at + more)[1..] == at[1..] + more;
    assert (StringText(l) + rest)[1..] == LiteralText(l) + (['\"'] + rest);
    OpenContent(at[1..], more, l, rest);
    i := PrefixEndsAtPiece(l, CloseAt(at[1..], false));
  }

  /** A string field of a text that is still being written holds the first pieces of the literal. */
  lemma OpenStringField(s: string, more: string, depth: int, wanted: int, key: string, l: Literal, rest: string) returns (i: nat)
    requires ValidLiteral(l) && StringField(s, depth, wanted, key).Some?
    requires Scan(s + more, depth, wanted, key) in {None, Some(StringText(l) + rest)}
    ensures ShowsPieces(StringField(s, depth, wanted, key), l, i)
  {
    ScanGrows(s, more, depth, wanted, key);
    hide Scan, Unquote, ShowsPieces, CloseAt, StringText;
    i := OpenLiteral(Scan(s, depth, wanted, key).value, more, l, rest);
  }

  lemma OpenContent(inside: string, more: string, l: Literal, rest: string)
    requires ValidLiteral(l) && inside + more == LiteralText(l) + (['\"'] + rest)
    ensures CloseAt(inside, false) <= |LiteralText(l)|
    ensures inside[..CloseAt(inside, false)] == LiteralText(l)[..CloseAt(inside, false)]
  {
    CloseAtGrows(inside, more, false);
    CloseAtLiteral(l, rest);
    hide CloseAt, LiteralText;
    var n := CloseAt(inside, false);
    assert inside[..n] == (inside + more)[..n];
  }

  /** Any front part of a final decision that shows a message shows its first pieces, and its kind
      reads final as far as it is written. */
  lemma FrontShowsFront(d: Document, kind: Literal, final: Members, message: Literal, n: nat) returns (i: nat, j: nat)
    requires FinalDecision(d, kind, final, message) && n <= |DocumentText(d)|
    requires Visible(DocumentText(d)[..n]).Some?
    ensures ShowsPieces(Visible(DocumentText(d)[..n]), message, i)
    ensures j <= |kind| && Means(kind[..j], "final")
  {
    hide Scan, Unquote, CloseAt, DecodesUpTo, StringText, DocumentText, StringField, ObjectField;
    var front, more := DocumentText(d)[..n], DocumentText(d)[n..];
    assert front + more == DocumentText(d);
    ScanDocument(d, "kind");
    j := OpenStringField(front, more, 0, 1, "kind", kind, TextAfter(d.members, "kind") + (['}'] + d.trail));
    BytesInjective(Meaning(kind[..j]), "final");
    hide Bytes, Meaning, AllDecode, ShowsPieces;
    var inside, rest := ScanFinal(d, kind, final, message);
    ObjectFieldGrows(front, more, 0, 1, "final");
    var start := ObjectField(front, 0, 1, "final").value;
    i := OpenStringField(start, more, 2, 2, "message", message, rest);
  }

  /** However the chunks cut a final decision, the outputs together are the first pieces of its
      decoded message, and all of it when the whole text shows it; something is released only if
      the kind reads final as far as some front part goes. */
  lemma StreamOfDocument(d: Document, kind: Literal, final: Members, message: Literal, chunks: seq<string>) returns (i: nat, j: nat)
    requires FinalDecision(d, kind, final, message) && After(chunks).raw == DocumentText(d)
    ensures After(chunks).result != Failure(NotMonotonic)
    ensures i <= |message| && AllDecode(message[..i]) && Outputs(chunks) == Bytes(Meaning(message[..i]))
    ensures Reads(d, final) && Means(kind, "final") && AllDecode(message) ==> Outputs(chunks) == Bytes(Meaning(message))
    ensures Outputs(chunks) != [] ==> j <= |kind| && Means(kind[..j], "final")
  {
    hide Visible, DocumentText, After, Outputs, FinalDecision, Reads;
    StreamIsMonotonic(chunks);
    DocumentShowsMessage(d, kind, final, message);
    var raw, emitted := After(chunks).raw, After(chunks).emitted;
    if emitted == [] {
      i, j := 0, 0;
    } else {
      var n :| 0 <= n <= |raw| && Visible(raw[..n]) == Some(emitted);
      i, j := FrontShowsFront(d, kind, final, message, n);
    }
  }

  function Concat(chunks: seq<string>): string {
    if chunks == [] then "" else Concat(chunks[..|chunks| - 1]) + chunks[|chunks| - 1]
  }

  /** While the text fits the limit the observer has read all of it. */
  lemma {:induction false} ReadsEverything(chunks: seq<string>)
    requires Utf8Len(Concat(chunks)) <= DECISION_LIMIT
    ensures After(chunks).raw == Concat(chunks)
  {
    if chunks != [] {
      var front, delta := chunks[..|chunks| - 1], chunks[|chunks| - 1];
      Utf8LenConcat(Concat(front), delta);
      hide Visible, Utf8Len;
      ReadsEverything(front);
    }
  }

  // ---------------------------------------------------------------- a kind that is not final

  /** A decision written up to the letters final of its kind. */
  function OpenKind(message: Literal): string {
    ['{'] + (StringText(Plainly("final")) + ([':'] + (ValueText(Obj(OnlyMessage(message)))
    + ([','] + (StringText(Plainly("kind")) + ([':'] + (['\"'] + "final")))))))
  }

  function Plainly(s: string): Literal {
    if s == "" then [] else [Plain(s[0])] + Plainly(s[1..])
  }

  function OnlyMessage(message: Literal): Members {
    Member("", Plainly("message"), "", "", Str(message), "", NoMember(""))
  }

  lemma {:induction false} PlainlyMeans(s: string)
    requires forall i :: 0 <= i < |s| ==> 'a' <= s[i] <= 'z'
    ensures ValidLiteral(Plainly(s)) && AllDecode(Plainly(s)) && Meaning(Plainly(s)) == s && LiteralText(Plainly(s)) == s
  {
    PlainlyDecodes(s);
    if s != "" {
      hide ValidLiteral, AllDecode;
      PlainlyMeans(s[1..]);
      assert Plainly(s)[0] == Plain(s[0]) && Plainly(s)[1..] == Plainly(s[1..]);
    }
  }

  lemma {:induction false} PlainlyDecodes(s: string)
    requires forall i :: 0 <= i < |s| ==> 'a' <= s[i] <= 'z'
    ensures ValidLiteral(Plainly(s)) && AllDecode(Plainly(s))
  {
    if s != "" {
      PlainlyDecodes(s[1..]);
      assert Plainly(s)[0] == Plain(s[0]);
      forall i | 0 <= i < |Plainly(s)| ensures ValidPiece(Plainly(s)[i]) && Decodes(Plainly(s)[i]) {
        if i > 0 {
          assert Plainly(s)[i] == Plainly(s[1..])[i - 1];
        }
      }
    }
  }

  lemma Keywords()
    ensures ValidLiteral(Plainly("final")) && Means(Plainly("final"), "final") && LiteralText(Plainly("final")) == "final"
    ensures ValidLiteral(Plainly("kind")) && Means(Plainly("kind"), "kind") && LiteralText(Plainly("kind")) == "kind"
    ensures ValidLiteral(Plainly("message")) && Means(Plainly("message"), "message")
  {
    hide Plainly, LiteralText, Meaning;
    PlainlyMeans("final");
    PlainlyMeans("kind");
    PlainlyMeans("message");
  }

  lemma OnlyMessageIsValid(message: Literal)
    requires ValidLiteral(message) && AllDecode(message)
    ensures ValidMembers(OnlyMessage(message)) && MembersDecode(OnlyMessage(message))
    ensures Lookup(OnlyMessage(message), "message") == Some(Str(message)) && DecodesUpTo(OnlyMessage(message), "message")
  {
    hide Plainly, LiteralText, Meaning;
    Keywords();
    assert ValidValue(Str(message)) && ValidMembers(NoMember(""));
  }

  lemma OpenKindText(message: Literal) returns (value: string, behindFinal: string, atFinal: string)
    ensures value == ['\"'] + "final"
    ensures behindFinal == [','] + (StringText(Plainly("kind")) + ([':'] + value))
    ensures atFinal == ValueText(Obj(OnlyMessage(message))) + behindFinal
    ensures OpenKind(message) == ['{'] + (StringText(Plainly("final")) + ([':'] + atFinal))
  {
    hide StringText, Plainly, ValueText;
    value := ['\"'] + "final";
    behindFinal := [','] + (StringText(Plainly("kind")) + ([':'] + value));
    atFinal := ValueText(Obj(OnlyMessage(message))) + behindFinal;
  }

  lemma OpenKindIsFinal(message: Literal)
    requires ValidLiteral(message) && AllDecode(message)
    ensures StringField(OpenKind(message), 0, 1, "kind") == Some(Bytes("final"))
  {
    hide Scan, Unquote, CloseAt, StringText, Plainly, LiteralText, Bytes, Meaning, AllDecode, OpenKind, ValueText;
    Keywords();
    OnlyMessageIsValid(message);
    var final, kind, inner := Plainly("final"), Plainly("kind"), Obj(OnlyMessage(message));
    var value, behindFinal, atFinal := OpenKindText(message);
    ScanChar('{', StringText(final) + ([':'] + atFinal), 0, 1, "kind");
    ScanString(final, [':'] + atFinal, 1, 1, "kind");
    ScanChar(':', atFinal, 1, 1, "kind");
    ScanValue(inner, behindFinal, 1, 1, "kind");
    ScanChar(',', StringText(kind) + ([':'] + value), 1, 1, "kind");
    ScanString(kind, [':'] + value, 1, 1, "kind");
    assert ([':'] + value)[1..] == value && value[1..] == "final";
    OpenFinal();
    assert "final"[..5] == "final";
  }

  lemma OpenKindHoldsMessage(message: Literal)
    requires ValidLiteral(message) && AllDecode(message)
    ensures ObjectField(OpenKind(message), 0, 1, "final").Some?
    ensures StringField(ObjectField(OpenKind(message), 0, 1, "final").value, 2, 2, "message") == Some(Bytes(Meaning(message)))
  {
    hide Scan, Unquote, CloseAt, StringText, Plainly, LiteralText, Bytes, Meaning, AllDecode, OpenKind;
    Keywords();
    OnlyMessageIsValid(message);
    var final, only := Plainly("final"), OnlyMessage(message);
    var value, behindFinal, atFinal := OpenKindText(message);
    ScanChar('{', StringText(final) + ([':'] + atFinal), 0, 1, "final");
    ScanString(final, [':'] + atFinal, 1, 1, "final");
    var inside := MembersText(only) + (['}'] + behindFinal);
    assert atFinal == ['{'] + inside;
    assert ([':'] + atFinal)[1..] == atFinal && (['{'] + inside)[1..] == inside;
    ScanFinds(only, ['}'] + behindFinal, 2, "message");
    StringAt(message, TextAfter(only, "message") + (['}'] + behindFinal));
  }

  /** The message is released although the kind may still go on: after the letters final there may
      come more, and the decision then is no final one. */
  lemma OpenKindReleases(message: Literal)
    requires ValidLiteral(message) && AllDecode(message)
    ensures Visible(OpenKind(message)) == Some(Bytes(Meaning(message)))
  {
    OpenKindIsFinal(message);
    OpenKindHoldsMessage(message);
    hide StringField, ObjectField, OpenKind, Bytes, Meaning;
  }

  lemma OpenFinal()
    ensures CloseAt("final", false) == 5 && Unquote("final") == Some(Bytes("final"))
  {
    hide Unquote, Bytes, Meaning, AllDecode, LiteralText, Plainly;
    Keywords();
    UnquoteExactly(Plainly("final"));
    assert "final" + "" == "final";
    CloseAtRun("final", "");
  }

  /** The decision that goes on from `OpenKind` with one more letter in its kind. */
  function NotFinal(message: Literal): Document {
    Document("",
             Pair(Plainly("final"), Obj(OnlyMessage(message)), Plainly("kind"), Str(Plainly("finalx"))),
             "")
  }

  lemma NotFinalText(message: Literal)
    ensures DocumentText(NotFinal(message)) == OpenKind(message) + "x\"}"
  {
    var a, v, k, l := StringText(Plainly("final")), ValueText(Obj(OnlyMessage(message))), StringText(Plainly("kind")), ['\"'] + "final";
    LongerKind();
    hide StringText, Plainly;
    var ms := NotFinal(message).members;
    var kindText := MembersText(ms.rest);
    assert kindText == k + ([':'] + (l + "x\""));
    assert MembersText(ms) == a + ([':'] + (v + ([','] + kindText))) by { hide ValueText; }
    hide ValueText, MembersText;
    FirstHalf(a, v, k, l);
    assert DocumentText(NotFinal(message)) == ['{'] + (MembersText(ms) + ['}']);
  }

  lemma FirstHalf(a: string, v: string, k: string, l: string)
    ensures ['{'] + (a + ([':'] + (v + ([','] + (k + ([':'] + (l + "x\"")))))) + ['}'])
         == ['{'] + (a + ([':'] + (v + ([','] + (k + ([':'] + l)))))) + "x\"}"
  {
    var end := k + ([':'] + l);
    assert k + ([':'] + (l + "x\"")) == end + "x\"";
    assert (a + ([':'] + (v + ([','] + (end + "x\""))))) + ['}'] == (a + ([':'] + (v + ([','] + end)))) + "x\"}";
  }

  lemma LongerKind()
    ensures ValueText(Str(Plainly("finalx"))) == ['\"'] + "final" + "x\""
  {
    hide Plainly, LiteralText, Meaning, AllDecode, ValidLiteral;
    PlainlyMeans("finalx");
    assert ['\"'] + "finalx" + ['\"'] == ['\"'] + "final" + "x\"";
  }

  lemma NotFinalIsDecision(message: Literal)
    requires ValidLiteral(message) && AllDecode(message)
    ensures FinalDecision(NotFinal(message), Plainly("finalx"), OnlyMessage(message), message)
    ensures !Means(Plainly("finalx"), "final")
  {
    hide Plainly, LiteralText, OnlyMessage, ValidLiteral, AllDecode, Meaning, Means, Pair, DocumentText, Lookup, DecodesUpTo;
    OnlyMessageIsValid(message);
    Keywords();
    NotFinalKeys();
    TwoMembers(Plainly("final"), Obj(OnlyMessage(message)), Plainly("kind"), Str(Plainly("finalx")));
  }

  lemma NotFinalKeys()
    ensures ValidLiteral(Plainly("finalx")) && !Means(Plainly("finalx"), "final")
    ensures ValidLiteral(Plainly("final")) && !Means(Plainly("final"), "kind")
  {
    hide Plainly, LiteralText, AllDecode, Meaning;
    PlainlyMeans("finalx");
    PlainlyMeans("final");
    assert "final" != "kind" && "finalx" != "final";
  }

  function Pair(k1: Literal, v1: Value, k2: Literal, v2: Value): Members {
    Member("", k1, "", "", v1, "", Member("", k2, "", "", v2, "", NoMember("")))
  }

  lemma TwoMembers(k1: Literal, v1: Value, k2: Literal, v2: Value)
    requires ValidLiteral(k1) && ValidLiteral(k2) && ValidValue(v1) && ValidValue(v2)
    requires Means(k1, "final") && !Means(k1, "kind") && Means(k2, "kind")
    ensures ValidMembers(Pair(k1, v1, k2, v2))
    ensures Lookup(Pair(k1, v1, k2, v2), "final") == Some(v1) && Lookup(Pair(k1, v1, k2, v2), "kind") == Some(v2)
  {
    hide ValidLiteral, ValidValue, Means;
    assert ValidMembers(NoMember("")) && ValidMembers(Pair(k1, v1, k2, v2).rest);
  }

  /** So the observer does release the message of a decision whose kind is not final, if a chunk
      ends where the kind reads final. */
  lemma ReleasedThoughNotFinal(message: Literal)
    requires ValidLiteral(message) && AllDecode(message)
    requires Utf8Len(DocumentText(NotFinal(message))) <= DECISION_LIMIT
    ensures FinalDecision(NotFinal(message), Plainly("finalx"), OnlyMessage(message), message)
    ensures !Means(Plainly("finalx"), "final")
    ensures After([OpenKind(message), "x\"}"]).raw == DocumentText(NotFinal(message))
    ensures Outputs([OpenKind(message), "x\"}"]) == Bytes(Meaning(message))
  {
    NotFinalText(message);
    NotFinalIsDecision(message);
    OpenKindReleases(message);
    DocumentShowsMessage(NotFinal(message), Plainly("finalx"), OnlyMessage(message), message);
    hide Visible, FinalDecision, Means, OpenKind, DocumentText, Bytes, Meaning, Utf8Len, Plainly, After, Outputs;
    LastChunkHides(OpenKind(message), "x\"}");
  }

  /** What one chunk released stays released when the next one takes the message out of sight. */
  lemma LastChunkHides(first: string, last: string)
    requires Utf8Len(first + last) <= DECISION_LIMIT
    requires Visible(first).Some? && Visible(first + last).None?
    ensures After([first, last]).raw == first + last
    ensures Outputs([first, last]) == Visible(first).value
  {
    hide Visible, Utf8Len;
    Utf8LenConcat(first, last);
    NoLength();
    assert "" + first == first;
    assert [first][..0] == [] && [first, last][..1] == [first];
    StreamIsMonotonic([first]);
    StreamIsMonotonic([first, last]);
    assert After([first]) == Observe("", [], first);
    assert After([first, last]) == Observe(first, After([first]).emitted, last);
  }

  lemma NoLength()
    ensures Utf8Len("") == 0
  {
  }
}
