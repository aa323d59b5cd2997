/** Which decisions the observer releases a message of, and whose message it is. */
module DecisionRelease {
  import opened Text
  import opened JsonText
  import opened DecisionStream
  import opened DecisionDocument

  // ---------------------------------------------------------------- scans of a front part

  lemma {:induction false} SkipIsSuffix(s: string)
    ensures SkipBlanks(s) == s[|s| - |SkipBlanks(s)|..]
  {
    if s != "" && IsBlank(s[0]) {
      SkipIsSuffix(s[1..]);
    }
  }

  /** What a scan finds is the rest of the text, and shorter. */
  lemma {:induction false} ScanIsSuffix(s: string, depth: int, wanted: int, key: string)
    requires Scan(s, depth, wanted, key).Some?
    ensures var q := Scan(s, depth, wanted, key).value; |q| < |s| && q == s[|s| - |q|..]
    decreases |s|, 1
  {
    hide ScanToken;
    if s[0] == '{' || s[0] == '[' {
      ScanIsSuffix(s[1..], depth + 1, wanted, key);
    } else if s[0] == '}' || s[0] == ']' {
      ScanIsSuffix(s[1..], depth - 1, wanted, key);
    } else if s[0] == '\"' {
      TokenIsSuffix(s[1..], depth, wanted, key);
    } else {
      ScanIsSuffix(s[1..], depth, wanted, key);
    }
  }

  lemma {:induction false} TokenIsSuffix(s: string, depth: int, wanted: int, key: string)
    requires ScanToken(s, depth, wanted, key).Some?
    ensures var q := ScanToken(s, depth, wanted, key).value; |q| < |s| && q == s[|s| - |q|..]
    decreases |s|, 0
  {
    hide Unquote, Bytes, CloseAt, SkipBlanks, Scan;
    var n := CloseAt(s, false);
    var rest := s[n + 1..];
    var after := SkipBlanks(rest);
    if depth == wanted && Unquote(s[..n]).value == Bytes(key) && after != "" && after[0] == ':' {
      SkipIsSuffix(rest);
      SkipIsSuffix(after[1..]);
    } else {
      ScanIsSuffix(rest, depth, wanted, key);
    }
  }

  lemma {:induction false} SkipAll(s: string, more: string)
    requires SkipBlanks(s) == ""
    ensures SkipBlanks(s + more) == SkipBlanks(more)
  {
    if s == "" {
      assert s + more == more;
    } else {
      assert (s + more)[0] == s[0] && (s + more)[1..] == s[1..] + more;
      SkipAll(s[1..], more);
    }
  }

  /** What is found before the last part is found without it. */
  lemma {:induction false} StaysFound(s: string, more: string, depth: int, wanted: int, key: string)
    requires Scan(s + more, depth, wanted, key).Some? && |Scan(s + more, depth, wanted, key).value| > |more|
    ensures Found(Scan(s, depth, wanted, key))
    decreases |s|, 1
  {
    hide ScanToken;
    if s == "" {
      assert s + more == more;
      ScanIsSuffix(more, depth, wanted, key);
    } else {
      assert (s + more)[0] == s[0] && (s + more)[1..] == s[1..] + more;
      if s[0] == '{' || s[0] == '[' {
        StaysFound(s[1..], more, depth + 1, wanted, key);
      } else if s[0] == '}' || s[0] == ']' {
        StaysFound(s[1..], more, depth - 1, wanted, key);
      } else if s[0] == '\"' {
        TokenStaysFound(s[1..], more, depth, wanted, key);
      } else {
        StaysFound(s[1..], more, depth, wanted, key);
      }
    }
  }

  /** A token that is not closed in s leaves nothing to find before the last part. */
  lemma OpenTokenFindsLess(s: string, more: string, depth: int, wanted: int, key: string)
    requires CloseAt(s, false) == |s| && ScanToken(s + more, depth, wanted, key).Some?
    ensures |ScanToken(s + more, depth, wanted, key).value| <= |more|
  {
    hide Unquote, Bytes, CloseAt, SkipBlanks, Scan;
    CloseAtGrows(s, more, false);
    var t := s + more;
    var n := CloseAt(t, false);
    var rest := t[n + 1..];
    if Scan(rest, depth, wanted, key).Some? {
      ScanIsSuffix(rest, depth, wanted, key);
    }
  }

  lemma {:induction false} TokenStaysFound(s: string, more: string, depth: int, wanted: int, key: string)
    requires ScanToken(s + more, depth, wanted, key).Some? && |ScanToken(s + more, depth, wanted, key).value| > |more|
    ensures Found(ScanToken(s, depth, wanted, key))
    decreases |s|, 0
  {
    hide Unquote, Bytes, CloseAt, SkipBlanks, Scan;
    var n := CloseAt(s, false);
    CloseAtGrows(s, more, false);
    if n == |s| {
      OpenTokenFindsLess(s, more, depth, wanted, key);
    } else {
      var rest := s[n + 1..];
      assert (s + more)[..n] == s[..n];
      assert (s + more)[n + 1..] == rest + more;
      if SkipBlanks(rest) == "" {
        SkipAll(rest, more);
      } else {
        SkipBlanksGrows(rest, more);
        var after := SkipBlanks(rest);
        assert (after + more)[0] == after[0] && (after + more)[1..] == after[1..] + more;
        if SkipBlanks(after[1..]) == "" {
          SkipAll(after[1..], more);
        }
      }
      if Scan(rest + more, depth, wanted, key).Some? && |Scan(rest + more, depth, wanted, key).value| > |more| {
        StaysFound(rest, more, depth, wanted, key);
      }
    }
  }

  /** A scan that finds `at` and then the last part finds `at` in the front part. */
  lemma FrontScan(s: string, more: string, depth: int, wanted: int, key: string, at: string)
    requires at != "" && Scan(s + more, depth, wanted, key) == Some(at + more)
    ensures Scan(s, depth, wanted, key) == Some(at)
  {
    StaysFound(s, more, depth, wanted, key);
    ScanGrows(s, more, depth, wanted, key);
    hide Scan;
    var found := Scan(s, depth, wanted, key).value;
    assert found + more == at + more;
    assert found == (found + more)[..|found|] && at == (at + more)[..|at|];
  }

  // ---------------------------------------------------------------- fields of a front part

  predicate StartsWith(at: Option<string>, c: char) {
    at.Some? && at.value != "" && at.value[0] == c
  }

  /** A field that is no string, or not there, is none in any front part. */
  lemma NeverString(s: string, more: string, depth: int, wanted: int, key: string)
    requires !StartsWith(Scan(s + more, depth, wanted, key), '\"')
    ensures StringField(s, depth, wanted, key) == None
  {
    hide Scan, Unquote, CloseAt;
    if Found(Scan(s, depth, wanted, key)) {
      ScanGrows(s, more, depth, wanted, key);
    }
  }

  lemma NeverObject(s: string, more: string, depth: int, wanted: int, key: string)
    requires !StartsWith(Scan(s + more, depth, wanted, key), '{')
    ensures ObjectField(s, depth, wanted, key) == None
  {
    hide Scan;
    if Found(Scan(s, depth, wanted, key)) {
      ScanGrows(s, more, depth, wanted, key);
    }
  }

  /** A string field that ends before the last part is read whole. */
  lemma ClosedStringField(s: string, more: string, depth: int, wanted: int, key: string, l: Literal, rest: string)
    requires ValidLiteral(l) && |more| <= |rest|
    requires StringField(s, depth, wanted, key).Some? && Scan(s + more, depth, wanted, key) == Some(StringText(l) + rest)
    ensures AllDecode(l) && StringField(s, depth, wanted, key) == Some(Bytes(Meaning(l)))
  {
    ScanGrows(s, more, depth, wanted, key);
    hide Scan, Unquote, CloseAt, StringText, Bytes, Meaning, AllDecode;
    var at := Scan(s, depth, wanted, key).value;
    var front := rest[..|rest| - |more|];
    assert rest == front + more by { SameEnd(at, more, StringText(l), rest); }
    assert at == StringText(l) + front by { SameEnd(at, more, StringText(l), rest); }
    StringAt(l, front);
  }

  lemma SameEnd(a: string, more: string, b: string, rest: string)
    requires a + more == b + rest && |more| <= |rest|
    ensures rest == rest[..|rest| - |more|] + more && a == b + rest[..|rest| - |more|]
  {
    var t, k := a + more, |rest| - |more|;
    assert more == t[|a|..] && rest[k..] == t[|b| + k..];
    assert a == t[..|a|] && b + rest[..k] == t[..|b| + k];
  }

  lemma LiteralTextStarts(l: Literal)
    requires l != []
    ensures LiteralText(l) == PieceText(l[0]) + LiteralText(l[1..])
  {
  }

  lemma TailPieces(l: Literal, i: nat)
    requires 0 < i <= |l|
    ensures l[..i] != [] && l[..i][0] == l[0] && l[..i][1..] == l[1..][..i - 1] && l[1..][i - 1..] == l[i..]
  {
  }

  lemma Regroup(a: string, b: string, c: string)
    ensures a + (b + c) == (a + b) + c
  {
  }

  lemma {:induction false} LiteralTextPieces(l: Literal, i: nat)
    requires i <= |l|
    ensures LiteralText(l) == LiteralText(l[..i]) + LiteralText(l[i..])
  {
    hide PieceText;
    if i == 0 {
      assert l[..0] == [] && l[0..] == l;
    } else {
      hide LiteralText;
      LiteralTextPieces(l[1..], i - 1);
      TailPieces(l, i);
      LiteralTextStarts(l);
      LiteralTextStarts(l[..i]);
      Regroup(PieceText(l[0]), LiteralText(l[1..][..i - 1]), LiteralText(l[i..]));
    }
  }

  lemma OpenLiteralHasNoQuote(l: Literal)
    requires ValidLiteral(l)
    ensures CloseAt(LiteralText(l), false) == |LiteralText(l)|
  {
    hide CloseAt, LiteralText, ValidLiteral;
    CloseAtLiteral(l, "");
    CloseAtGrows(LiteralText(l), ['\"'] + "", false);
  }

  /** The text up to the end of the first i pieces of a literal, and the text behind. */
  function OpenText(l: Literal, i: nat): string
    requires i <= |l|
  {
    ['\"'] + LiteralText(l[..i])
  }

  function LeftText(l: Literal, i: nat, rest: string): string
    requires i <= |l|
  {
    LiteralText(l[i..]) + (['\"'] + rest)
  }

  lemma OpenAndLeft(l: Literal, i: nat, rest: string)
    requires ValidLiteral(l) && i <= |l|
    ensures OpenText(l, i) + LeftText(l, i, rest) == StringText(l) + rest
    ensures |rest| < |LeftText(l, i, rest)| < |StringText(l)| + |rest|
  {
    hide LiteralText;
    LiteralTextPieces(l, i);
  }

  /** An open string field shows the pieces written so far. */
  lemma OpenFieldShows(s: string, depth: int, wanted: int, key: string, l: Literal, i: nat)
    requires ValidLiteral(l) && i <= |l| && AllDecode(l[..i])
    requires Scan(s, depth, wanted, key) == Some(OpenText(l, i))
    ensures StringField(s, depth, wanted, key) == Some(Bytes(Meaning(l[..i])))
  {
    hide Scan, Unquote, CloseAt, LiteralText, Bytes, Meaning;
    var text := LiteralText(l[..i]);
    OpenLiteralHasNoQuote(l[..i]);
    UnquoteExactly(l[..i]);
    assert OpenText(l, i)[1..] == text && text[..|text|] == text;
  }

  // ---------------------------------------------------------------- a text with the three fields

  /** Where the three fields of a text are, when the strings before them decode: `kind`, then K;
      behind the brace of `final`, F; in F the message, then M. */
  datatype Fields = Fields(kind: Literal, afterKind: string, inFinal: string, message: Literal, afterMessage: string)

  ghost predicate HasFields(text: string, f: Fields) {
    && ValidLiteral(f.kind) && ValidLiteral(f.message)
    && Scan(text, 0, 1, "kind") == Some(StringText(f.kind) + f.afterKind)
    && Scan(text, 0, 1, "final") == Some(['{'] + f.inFinal)
    && Scan(f.inFinal, 2, 2, "message") == Some(StringText(f.message) + f.afterMessage)
  }

  /** The message ends before the kind begins, or the kind ends before the message begins. */
  predicate MessageFirst(f: Fields) {
    |StringText(f.kind)| + |f.afterKind| <= |f.afterMessage|
  }

  predicate KindFirst(f: Fields) {
    |StringText(f.message)| + |f.afterMessage| <= |f.afterKind|
  }

  /** What a front part shows, it shows of the message; its kind reads final. */
  lemma FrontShows(text: string, f: Fields, n: nat) returns (i: nat, j: nat)
    requires HasFields(text, f) && n <= |text| && Visible(text[..n]).Some?
    ensures ShowsPieces(Visible(text[..n]), f.message, i)
    ensures j <= |f.kind| && Means(f.kind[..j], "final")
    ensures MessageFirst(f) ==> AllDecode(f.message)
    ensures KindFirst(f) ==> Means(f.kind, "final")
  {
    hide Scan, Unquote, CloseAt, StringText, StringField, ObjectField, LiteralText;
    var front, more := text[..n], text[n..];
    assert front + more == text;
    j := OpenStringField(front, more, 0, 1, "kind", f.kind, f.afterKind);
    BytesInjective(Meaning(f.kind[..j]), "final");
    hide Bytes, Meaning, ShowsPieces;
    FieldAt(front, more, 0, 1, "kind", f.kind, f.afterKind);
    FinalGrows(text, front, more, f);
    var start := ObjectField(front, 0, 1, "final").value;
    i := OpenStringField(start, more, 2, 2, "message", f.message, f.afterMessage);
    FieldAt(start, more, 2, 2, "message", f.message, f.afterMessage);
    if KindFirst(f) {
      ClosedStringField(front, more, 0, 1, "kind", f.kind, f.afterKind);
      BytesInjective(Meaning(f.kind), "final");
    }
    if MessageFirst(f) {
      ClosedStringField(start, more, 2, 2, "message", f.message, f.afterMessage);
    }
  }

  lemma FinalGrows(text: string, front: string, more: string, f: Fields)
    requires HasFields(text, f) && front + more == text && ObjectField(front, 0, 1, "final").Some?
    ensures ObjectField(front, 0, 1, "final").value + more == f.inFinal
  {
    ObjectFieldGrows(front, more, 0, 1, "final");
    hide Scan, StringText;
    assert (['{'] + f.inFinal)[1..] == f.inFinal;
  }

  lemma FieldIsFound(s: string, depth: int, wanted: int, key: string)
    requires StringField(s, depth, wanted, key).Some?
    ensures Found(Scan(s, depth, wanted, key))
  {
    hide Scan, Unquote, CloseAt;
  }

  /** A string field shown by a front part begins in it. */
  lemma FieldAt(s: string, more: string, depth: int, wanted: int, key: string, l: Literal, rest: string)
    requires StringField(s, depth, wanted, key).Some? && Scan(s + more, depth, wanted, key) == Some(StringText(l) + rest)
    ensures |more| < |StringText(l)| + |rest|
  {
    hide Scan, StringText, StringField;
    FieldIsFound(s, depth, wanted, key);
    ScanGrows(s, more, depth, wanted, key);
    var at := Scan(s, depth, wanted, key).value;
    assert |at + more| == |StringText(l) + rest|;
  }

  lemma CutText(text: string, depth: int, wanted: int, key: string, at: string, more: string)
    requires Scan(text, depth, wanted, key) == Some(at + more)
    ensures |more| <= |text| && text[..|text| - |more|] + more == text
  {
    ScanIsSuffix(text, depth, wanted, key);
    hide Scan;
    var q := at + more;
    assert text[|text| - |more|..] == q[|at|..];
  }

  /** The end of a text is also the end of what a scan finds in it. */
  lemma SharedEnd(text: string, front: string, more: string, depth: int, wanted: int, key: string, found: string)
    requires text == front + more && Scan(text, depth, wanted, key) == Some(found) && |more| <= |found|
    ensures found == found[..|found| - |more|] + more
  {
    ScanIsSuffix(text, depth, wanted, key);
    hide Scan;
    assert found[|found| - |more|..] == text[|text| - |more|..] == more;
  }

  /** The front part that leaves `more` out has the same fields, each cut at the end. */
  lemma FrontFinal(text: string, f: Fields, more: string)
    requires HasFields(text, f) && |more| < |f.inFinal| && |more| <= |text| && text[..|text| - |more|] + more == text
    ensures f.inFinal == f.inFinal[..|f.inFinal| - |more|] + more
    ensures ObjectField(text[..|text| - |more|], 0, 1, "final") == Some(f.inFinal[..|f.inFinal| - |more|])
  {
    hide Scan, StringText;
    var front, inside := text[..|text| - |more|], f.inFinal[..|f.inFinal| - |more|];
    var found := ['{'] + f.inFinal;
    SharedEnd(text, front, more, 0, 1, "final", found);
    assert f.inFinal == found[1..];
    assert found[..|found| - |more|] == ['{'] + inside;
    FrontScan(front, more, 0, 1, "final", ['{'] + inside);
    assert (['{'] + inside)[1..] == inside;
  }

  /** When the message comes first, the text up to where the kind reads final shows all of it. */
  lemma OpenKindShows(text: string, f: Fields, j: nat) returns (n: nat)
    requires HasFields(text, f) && MessageFirst(f) && AllDecode(f.message)
    requires j <= |f.kind| && Means(f.kind[..j], "final")
    ensures n <= |text| && Visible(text[..n]) == Some(Bytes(Meaning(f.message)))
  {
    var more := LeftText(f.kind, j, f.afterKind);
    OpenAndLeft(f.kind, j, f.afterKind);
    CutText(text, 0, 1, "kind", OpenText(f.kind, j), more);
    ScanIsSuffix(f.inFinal, 2, 2, "message");
    n := |text| - |more|;
    hide Scan, StringText, LeftText, OpenText, Unquote, CloseAt, StringField, ObjectField, Bytes, Meaning, AllDecode;
    assert OpenText(f.kind, j) != "" by { OpenIsNotEmpty(f.kind, j); }
    FrontScan(text[..n], more, 0, 1, "kind", OpenText(f.kind, j));
    OpenFieldShows(text[..n], 0, 1, "kind", f.kind, j);
    FrontFinal(text, f, more);
    var inside := f.inFinal[..|f.inFinal| - |more|];
    CutMessage(f, inside, more);
    StringFieldWhole(inside, f.message, f.afterMessage[..|f.afterMessage| - |more|]);
  }

  lemma OpenIsNotEmpty(l: Literal, i: nat)
    requires i <= |l|
    ensures OpenText(l, i) != ""
  {
    hide LiteralText;
  }

  lemma CutMessage(f: Fields, inside: string, more: string)
    requires f.inFinal == inside + more && Scan(f.inFinal, 2, 2, "message") == Some(StringText(f.message) + f.afterMessage)
    requires |more| <= |f.afterMessage|
    ensures Scan(inside, 2, 2, "message") == Some(StringText(f.message) + f.afterMessage[..|f.afterMessage| - |more|])
  {
    hide Scan, LiteralText;
    var end := f.afterMessage[..|f.afterMessage| - |more|];
    var found := StringText(f.message) + f.afterMessage;
    SharedEnd(f.inFinal, inside, more, 2, 2, "message", found);
    assert found[..|found| - |more|] == StringText(f.message) + end;
    FrontScan(inside, more, 2, 2, "message", StringText(f.message) + end);
  }

  lemma StringFieldWhole(s: string, l: Literal, rest: string)
    requires ValidLiteral(l) && AllDecode(l) && Scan(s, 2, 2, "message") == Some(StringText(l) + rest)
    ensures StringField(s, 2, 2, "message") == Some(Bytes(Meaning(l)))
  {
    hide Scan, Unquote, CloseAt, StringText, Bytes, Meaning, AllDecode;
    StringAt(l, rest);
  }

  /** When the kind comes first and means final, every front of the message is shown by some front
      of the text. */
  lemma OpenMessageShows(text: string, f: Fields, i: nat) returns (n: nat)
    requires HasFields(text, f) && KindFirst(f) && Means(f.kind, "final")
    requires i <= |f.message| && AllDecode(f.message[..i])
    ensures n <= |text| && Visible(text[..n]) == Some(Bytes(Meaning(f.message[..i])))
  {
    var more := LeftText(f.message, i, f.afterMessage);
    OpenAndLeft(f.message, i, f.afterMessage);
    ScanIsSuffix(text, 0, 1, "final");
    CutText(f.inFinal, 2, 2, "message", OpenText(f.message, i), more);
    n := |text| - |more|;
    hide Scan, StringText, LeftText, OpenText, Unquote, CloseAt, StringField, ObjectField, Bytes, Meaning, AllDecode;
    EndsAlike(text, f.inFinal, f.inFinal[..|f.inFinal| - |more|], more);
    OpenIsNotEmpty(f.message, i);
    ScanIsSuffix(f.inFinal, 2, 2, "message");
    FrontFinal(text, f, more);
    var inside := f.inFinal[..|f.inFinal| - |more|];
    FrontScan(inside, more, 2, 2, "message", OpenText(f.message, i));
    OpenFieldShows(inside, 2, 2, "message", f.message, i);
    KindIsWhole(text, f, more);
  }

  lemma EndOfEnd(start: string, front: string, more: string, text: string)
    requires text == start + (front + more)
    ensures |more| <= |text| && text[..|text| - |more|] + more == text
  {
    Regroup(start, front, more);
    assert ((start + front) + more)[..|start + front|] == start + front;
  }

  lemma ScanSplits(text: string, depth: int, wanted: int, key: string, found: string) returns (start: string)
    requires Scan(text, depth, wanted, key) == Some(found)
    ensures text == start + found
  {
    ScanIsSuffix(text, depth, wanted, key);
    hide Scan;
    start := text[..|text| - |found|];
  }

  lemma EndsAlike(text: string, inFinal: string, inside: string, more: string)
    requires Scan(text, 0, 1, "final") == Some(['{'] + inFinal) && inFinal == inside + more
    ensures |more| <= |text| && text[..|text| - |more|] + more == text
  {
    hide Scan;
    var start := ScanSplits(text, 0, 1, "final", ['{'] + inFinal);
    Regroup(['{'], inside, more);
    EndOfEnd(start, ['{'] + inside, more, text);
  }

  lemma KindIsWhole(text: string, f: Fields, more: string)
    requires HasFields(text, f) && Means(f.kind, "final")
    requires |more| <= |f.afterKind| && |more| <= |text| && text[..|text| - |more|] + more == text
    ensures StringField(text[..|text| - |more|], 0, 1, "kind") == Some(Bytes("final"))
  {
    hide Scan, LiteralText, Unquote, CloseAt, Bytes, Meaning, AllDecode;
    var front, end := text[..|text| - |more|], f.afterKind[..|f.afterKind| - |more|];
    var found := StringText(f.kind) + f.afterKind;
    SharedEnd(text, front, more, 0, 1, "kind", found);
    assert found[..|found| - |more|] == StringText(f.kind) + end;
    FrontScan(front, more, 0, 1, "kind", StringText(f.kind) + end);
    StringAt(f.kind, end);
  }

  // ---------------------------------------------------------------- chunks and front parts

  /** Some way of cutting the text makes the observer release something. */
  ghost predicate ReleasesSome(text: string) {
    exists chunks :: Concat(chunks) == text && Outputs(chunks) != []
  }

  ghost predicate ShowsSome(text: string, n: nat) {
    n <= |text| && Visible(text[..n]).Some? && Visible(text[..n]).value != []
  }

  /** Something is released under some cut exactly when some front part shows something. */
  lemma ReleasedIsShown(text: string)
    requires Utf8Len(text) <= DECISION_LIMIT
    ensures ReleasesSome(text) <==> exists n: nat :: ShowsSome(text, n)
  {
    hide Visible, Utf8Len;
    if ReleasesSome(text) {
      var chunks :| Concat(chunks) == text && Outputs(chunks) != [];
      ReadsEverything(chunks);
      StreamIsMonotonic(chunks);
      var n :| 0 <= n <= |text| && Visible(text[..n]) == Some(After(chunks).emitted);
      assert ShowsSome(text, n);
    }
    if n: nat :| ShowsSome(text, n) {
      CutReleases(text, n);
    }
  }

  lemma CutReleases(text: string, n: nat)
    requires Utf8Len(text) <= DECISION_LIMIT && ShowsSome(text, n)
    ensures ReleasesSome(text)
    ensures Concat([text[..n], text[n..]]) == text && Outputs([text[..n], text[n..]]) != []
  {
    hide Visible, Utf8Len;
    var first, last := text[..n], text[n..];
    var chunks := [first, last];
    assert first + last == text;
    Utf8LenConcat(first, last);
    assert [first][..0] == [] && chunks[..1] == [first];
    assert Concat([first]) == "" + first == first;
    assert Concat(chunks) == text;
    ReadsEverything([first]);
    StreamIsMonotonic([first]);
    StreamIsMonotonic(chunks);
    assert After([first]).emitted != [];
    assert After(chunks).emitted != [];
  }

  // ---------------------------------------------------------------- members that are missing, and nested ones

  /** At the level of its members, a scan passes over an object without the key. */
  lemma {:induction false} ScanMisses(ms: Members, post: string, wanted: int, key: string)
    requires ValidMembers(ms) && Closes(post) && Lookup(ms, key).None?
    ensures Scan(MembersText(ms) + post, wanted, wanted, key) == if MembersDecode(ms) then Scan(post, wanted, wanted, key) else None
    decreases ms
  {
    hide Scan;
    match ms {
      case NoMember(blank) =>
        BlankIsInert(blank);
        ScanInert(blank, post, wanted, wanted, key);
      case Member(before, k, afterKey, beforeValue, value, afterValue, rest) =>
        var more := MoreMembersText(rest) + post;
        var atValue := ValueText(value) + (afterValue + more);
        var behindKey := afterKey + ([':'] + (beforeValue + atValue));
        MemberText(ms, post);
        BlankIsInert(before);
        ScanInert(before, StringText(k) + behindKey, wanted, wanted, key);
        ScanString(k, behindKey, wanted, wanted, key);
        ScanColon(afterKey, beforeValue, atValue, wanted, wanted, key);
        NoColonAfterValue(ms, post);
        ScanValue(value, afterValue + more, wanted, wanted, key);
        BlankIsInert(afterValue);
        ScanInert(afterValue, more, wanted, wanted, key);
        ScanMore(rest, post, wanted, wanted, key);
        ScanMisses(rest, post, wanted, key);
    }
  }

  predicate HoldsKey(v: Value, key: string)
    requires ValidValue(v)
  {
    v.Obj? && Lookup(v.members, key).Some?
  }

  /** The value of the key in the first member whose value is an object that holds it. */
  function Nested(ms: Members, key: string): Option<Value>
    requires ValidMembers(ms)
  {
    if ms.NoMember? then None
    else if HoldsKey(ms.value, key) then Lookup(ms.value.members, key)
    else Nested(ms.rest, key)
  }

  /** Go decodes every string before that value. */
  predicate NestedDecodes(ms: Members, key: string)
    requires ValidMembers(ms)
  {
    ms.NoMember?
    || (AllDecode(ms.key)
        && (if HoldsKey(ms.value, key) then DecodesUpTo(ms.value.members, key) else ValueDecodes(ms.value) && NestedDecodes(ms.rest, key)))
  }

  /** What follows that value, up to the end of the members. */
  function NestedAfter(ms: Members, key: string): string
    requires ValidMembers(ms) && Nested(ms, key).Some?
  {
    if HoldsKey(ms.value, key) then TextAfter(ms.value.members, key) + ['}'] + ms.afterValue + MoreMembersText(ms.rest)
    else NestedAfter(ms.rest, key)
  }

  /** One level above the wanted one, a scan passes over a value unless it is an object with the key. */
  lemma ScanValueAbove(v: Value, post: string, wanted: int, key: string)
    requires ValidValue(v)
    ensures !HoldsKey(v, key) ==>
              Scan(ValueText(v) + post, wanted - 1, wanted, key) == if ValueDecodes(v) then Scan(post, wanted - 1, wanted, key) else None
    ensures HoldsKey(v, key) ==>
              Scan(ValueText(v) + post, wanted - 1, wanted, key) ==
              if DecodesUpTo(v.members, key)
              then Some(ValueText(Lookup(v.members, key).value) + (TextAfter(v.members, key) + (['}'] + post))) else None
  {
    hide Scan;
    match v {
      case Str(l) =>
        ScanString(l, post, wanted - 1, wanted, key);
      case Atom(text) =>
        AtomIsInert(text);
        ScanInert(text, post, wanted - 1, wanted, key);
      case Arr(items) =>
        assert ValueText(v) + post == ['['] + (ItemsText(items) + ([']'] + post));
        ScanChar('[', ItemsText(items) + ([']'] + post), wanted - 1, wanted, key);
        ScanItems(items, [']'] + post, wanted, wanted, key);
        ScanChar(']', post, wanted, wanted, key);
      case Obj(ms) =>
        assert ValueText(v) + post == ['{'] + (MembersText(ms) + (['}'] + post));
        ScanChar('{', MembersText(ms) + (['}'] + post), wanted - 1, wanted, key);
        if HoldsKey(v, key) {
          ScanFinds(ms, ['}'] + post, wanted, key);
        } else {
          ScanMisses(ms, ['}'] + post, wanted, key);
          ScanChar('}', post, wanted, wanted, key);
        }
    }
  }

  /** One level above the wanted one, a scan stops at the value nested in the first member that holds
      the key. */
  lemma {:induction false} ScanNested(ms: Members, post: string, wanted: int, key: string)
    requires ValidMembers(ms)
    ensures Scan(MembersText(ms) + post, wanted - 1, wanted, key) ==
            if !NestedDecodes(ms, key) then None
            else if Nested(ms, key).Some? then Some(ValueText(Nested(ms, key).value) + (NestedAfter(ms, key) + post))
            else Scan(post, wanted - 1, wanted, key)
    decreases ms
  {
    hide Scan;
    match ms {
      case NoMember(blank) =>
        BlankIsInert(blank);
        ScanInert(blank, post, wanted - 1, wanted, key);
      case Member(before, k, afterKey, beforeValue, value, afterValue, rest) =>
        var more := MoreMembersText(rest) + post;
        var atValue := ValueText(value) + (afterValue + more);
        var behindKey := afterKey + ([':'] + (beforeValue + atValue));
        MemberText(ms, post);
        BlankIsInert(before);
        ScanInert(before, StringText(k) + behindKey, wanted - 1, wanted, key);
        ScanString(k, behindKey, wanted - 1, wanted, key);
        ScanColon(afterKey, beforeValue, atValue, wanted - 1, wanted, key);
        ScanValueAbove(value, afterValue + more, wanted, key);
        if HoldsKey(value, key) {
          NestedEnd(ms, key, post);
        } else {
          BlankIsInert(afterValue);
          ScanInert(afterValue, more, wanted - 1, wanted, key);
          ScanMore(rest, post, wanted - 1, wanted, key);
          ScanNested(rest, post, wanted, key);
        }
    }
  }

  lemma NestedEnd(ms: Members, key: string, post: string)
    requires ValidMembers(ms) && ms.Member? && HoldsKey(ms.value, key)
    ensures NestedAfter(ms, key) + post
            == TextAfter(ms.value.members, key) + (['}'] + (ms.afterValue + (MoreMembersText(ms.rest) + post)))
  {
    hide TextAfter, MoreMembersText, Lookup;
  }

  // ---------------------------------------------------------------- whose message it is

  /** The members behind the first one with this key. */
  function Later(ms: Members, key: string): (r: Members)
    requires ValidMembers(ms) && Lookup(ms, key).Some?
    ensures ValidMembers(r)
  {
    if Means(ms.key, key) then ms.rest else Later(ms.rest, key)
  }

  ghost predicate ValidDocument(d: Document) {
    AllBlank(d.lead) && AllBlank(d.trail) && ValidMembers(d.members)
  }

  /** The kind, if it is written as a string. */
  function KindOf(d: Document): Option<Literal>
    requires ValidMembers(d.members)
  {
    var v := Lookup(d.members, "kind");
    if v.Some? && v.value.Str? then Some(v.value.literal) else None
  }

  predicate HasFinal(d: Document)
    requires ValidMembers(d.members)
  {
    Lookup(d.members, "final").Some? && Lookup(d.members, "final").value.Obj?
  }

  lemma {:induction false} LookupIsValid(ms: Members, key: string)
    requires ValidMembers(ms) && Lookup(ms, key).Some?
    ensures ValidValue(Lookup(ms, key).value)
  {
    if !Means(ms.key, key) {
      LookupIsValid(ms.rest, key);
    }
  }

  function FinalMembers(d: Document): (r: Members)
    requires ValidMembers(d.members) && HasFinal(d)
    ensures ValidMembers(r)
  {
    LookupIsValid(d.members, "final");
    Lookup(d.members, "final").value.members
  }

  /** `final.message`. */
  function FinalMessage(d: Document): Option<Value>
    requires ValidMembers(d.members)
  {
    if HasFinal(d) then Lookup(FinalMembers(d), "message") else None
  }

  /** The value the observer takes for the message: `final.message`, or without it the message of the
      first later member that holds one. */
  function TakenMessage(d: Document): Option<Value>
    requires ValidMembers(d.members) && HasFinal(d)
  {
    if FinalMessage(d).Some? then FinalMessage(d) else Nested(Later(d.members, "final"), "message")
  }

  function MessageOf(d: Document): Option<Literal>
    requires ValidMembers(d.members)
  {
    if HasFinal(d) && TakenMessage(d).Some? && TakenMessage(d).value.Str? then Some(TakenMessage(d).value.literal) else None
  }

  /** Go decodes every string between the brace of `final` and the message taken. */
  predicate MessageDecodesUpTo(d: Document)
    requires ValidMembers(d.members) && HasFinal(d)
  {
    if FinalMessage(d).Some? then DecodesUpTo(FinalMembers(d), "message")
    else MembersDecode(FinalMembers(d)) && NestedDecodes(Later(d.members, "final"), "message")
  }

  /** Go decodes every string before the kind, the brace of `final` and the message taken. */
  predicate ReadsThrough(d: Document)
    requires ValidMembers(d.members) && HasFinal(d)
  {
    DecodesUpTo(d.members, "kind") && DecodesUpTo(d.members, "final") && MessageDecodesUpTo(d)
  }

  function EndOf(d: Document): string {
    ['}'] + d.trail
  }

  /** What follows the message taken. */
  function AfterMessage(d: Document): string
    requires ValidMembers(d.members) && HasFinal(d) && TakenMessage(d).Some?
  {
    if FinalMessage(d).Some? then TextAfter(FinalMembers(d), "message") + (['}'] + (TextAfter(d.members, "final") + EndOf(d)))
    else NestedAfter(Later(d.members, "final"), "message") + EndOf(d)
  }

  function InFinal(d: Document): string
    requires ValidMembers(d.members) && HasFinal(d)
  {
    MembersText(FinalMembers(d)) + (['}'] + (TextAfter(d.members, "final") + EndOf(d)))
  }

  lemma {:induction false} AfterIsLater(ms: Members, key: string) returns (blank: string)
    requires ValidMembers(ms) && Lookup(ms, key).Some?
    ensures AllBlank(blank) && TextAfter(ms, key) == blank + MoreMembersText(Later(ms, key))
  {
    if Means(ms.key, key) {
      blank := ms.afterValue;
    } else {
      blank := AfterIsLater(ms.rest, key);
    }
  }

  lemma EndHoldsNoKey(d: Document, depth: int, wanted: int, key: string)
    requires AllBlank(d.trail)
    ensures Scan(EndOf(d), depth, wanted, key) == None
  {
    hide Scan;
    ScanChar('}', d.trail, depth, wanted, key);
    BlankIsInert(d.trail);
    ScanInert(d.trail, "", depth - 1, wanted, key);
    assert d.trail + "" == d.trail;
    EmptyHoldsNothing(depth - 1, wanted, key);
  }

  lemma EmptyHoldsNothing(depth: int, wanted: int, key: string)
    ensures Scan("", depth, wanted, key) == None
  {
  }

  /** Without a message in `final`, the scan for it goes on in the later members. */
  lemma ScanLater(d: Document)
    requires ValidDocument(d) && HasFinal(d)
    ensures var later := Later(d.members, "final");
            Scan(TextAfter(d.members, "final") + EndOf(d), 1, 2, "message") ==
            if NestedDecodes(later, "message") && Nested(later, "message").Some?
            then Some(ValueText(Nested(later, "message").value) + (NestedAfter(later, "message") + EndOf(d))) else None
  {
    hide Scan, EndOf, ValidMembers, MoreMembersText, Nested, NestedAfter, NestedDecodes, Later, TextAfter, Lookup, ValueText;
    var later := Later(d.members, "final");
    var blank := AfterIsLater(d.members, "final");
    assert TextAfter(d.members, "final") + EndOf(d) == blank + (MoreMembersText(later) + EndOf(d));
    BlankIsInert(blank);
    ScanInert(blank, MoreMembersText(later) + EndOf(d), 1, 2, "message");
    ScanMore(later, EndOf(d), 1, 2, "message");
    ScanNested(later, EndOf(d), 2, "message");
    EndHoldsNoKey(d, 1, 2, "message");
  }

  /** What the scan behind the brace of `final` finds. */
  lemma ScanTaken(d: Document)
    requires ValidDocument(d) && HasFinal(d)
    ensures Scan(InFinal(d), 2, 2, "message") ==
            if MessageDecodesUpTo(d) && TakenMessage(d).Some? then Some(ValueText(TakenMessage(d).value) + AfterMessage(d)) else None
  {
    hide Scan, EndOf, ValidMembers, MembersText, MoreMembersText, Nested, NestedAfter, NestedDecodes, Later, TextAfter,
      Lookup, DecodesUpTo, MembersDecode, ValueText;
    var inner, behind := FinalMembers(d), TextAfter(d.members, "final") + EndOf(d);
    if FinalMessage(d).Some? {
      ScanFinds(inner, ['}'] + behind, 2, "message");
    } else {
      ScanMisses(inner, ['}'] + behind, 2, "message");
      ScanChar('}', behind, 2, 2, "message");
      ScanLater(d);
    }
  }

  lemma ScanTop(d: Document, key: string)
    requires ValidDocument(d)
    ensures Scan(DocumentText(d), 0, 1, key) ==
            if Lookup(d.members, key).Some? && DecodesUpTo(d.members, key)
            then Some(ValueText(Lookup(d.members, key).value) + (TextAfter(d.members, key) + EndOf(d))) else None
  {
    hide Scan, DocumentText;
    if Lookup(d.members, key).Some? {
      ScanDocument(d, key);
    } else {
      var inside := MembersText(d.members) + EndOf(d);
      assert DocumentText(d) == d.lead + (['{'] + inside) by { DocumentParts(d); }
      BlankIsInert(d.lead);
      ScanInert(d.lead, ['{'] + inside, 0, 1, key);
      ScanChar('{', inside, 0, 1, key);
      ScanMisses(d.members, EndOf(d), 1, key);
      EndHoldsNoKey(d, 1, 1, key);
    }
  }

  lemma DocumentParts(d: Document)
    ensures DocumentText(d) == d.lead + (['{'] + (MembersText(d.members) + EndOf(d)))
  {
    hide MembersText;
  }

  // ---------------------------------------------------------------- the order of the members

  /** The first member with key a stands before the first one with key b. */
  predicate Precedes(ms: Members, a: string, b: string)
    requires ValidMembers(ms)
  {
    ms.Member? && (Means(ms.key, a) || (!Means(ms.key, b) && Precedes(ms.rest, a, b)))
  }

  /** The first member whose value holds the key stands before the first one with the other key. */
  predicate NestedPrecedes(ms: Members, key: string, other: string)
    requires ValidMembers(ms)
  {
    ms.Member? && (HoldsKey(ms.value, key) || (!Means(ms.key, other) && NestedPrecedes(ms.rest, key, other)))
  }

  /** Of two members that are there, one comes first. */
  lemma {:induction false} OnePrecedes(ms: Members, a: string, b: string)
    requires ValidMembers(ms) && a != b && Lookup(ms, a).Some? && Lookup(ms, b).Some?
    ensures Precedes(ms, a, b) <==> !Precedes(ms, b, a)
  {
    hide AllDecode, Meaning;
    if !Means(ms.key, a) && !Means(ms.key, b) {
      OnePrecedes(ms.rest, a, b);
    }
  }

  lemma MemberLength(ms: Members)
    requires ms.Member?
    ensures |ValueText(ms.value)| + |ms.afterValue| + |MoreMembersText(ms.rest)| <= |MembersText(ms)|
    ensures ms.rest.Member? ==> |MembersText(ms.rest)| < |MoreMembersText(ms.rest)|
  {
    hide StringText, ValueText;
    assert |MoreMembersText(ms.rest)| == if ms.rest.NoMember? then |ms.rest.blank| else 1 + |MembersText(ms.rest)|;
  }

  lemma {:induction false} Within(ms: Members, key: string)
    requires ValidMembers(ms) && Lookup(ms, key).Some?
    ensures |ValueText(Lookup(ms, key).value)| + |TextAfter(ms, key)| <= |MembersText(ms)|
  {
    hide ValueText, MembersText, MoreMembersText, Means;
    MemberLength(ms);
    if !Means(ms.key, key) {
      Within(ms.rest, key);
    }
  }

  lemma {:induction false} NestedWithin(ms: Members, key: string)
    requires ValidMembers(ms) && Nested(ms, key).Some?
    ensures |ValueText(Nested(ms, key).value)| + |NestedAfter(ms, key)| <= |MembersText(ms)|
  {
    hide ValueText, MembersText, MoreMembersText, Means, Lookup, TextAfter;
    MemberLength(ms);
    if HoldsKey(ms.value, key) {
      ObjectHolds(ms.value, key);
    } else {
      NestedWithin(ms.rest, key);
    }
  }

  lemma ObjectHolds(v: Value, key: string)
    requires ValidValue(v) && HoldsKey(v, key)
    ensures |ValueText(Lookup(v.members, key).value)| + |TextAfter(v.members, key)| + 2 <= |ValueText(v)|
  {
    hide MembersText, Lookup, TextAfter;
    Within(v.members, key);
  }

  /** A later member, value and all, stands in what follows an earlier one. */
  lemma {:induction false} LaterIsWithin(ms: Members, a: string, b: string)
    requires ValidMembers(ms) && a != b && Precedes(ms, a, b) && Lookup(ms, a).Some? && Lookup(ms, b).Some?
    ensures |ValueText(Lookup(ms, b).value)| + |TextAfter(ms, b)| <= |TextAfter(ms, a)|
  {
    hide ValueText, MembersText, MoreMembersText, AllDecode, Meaning;
    if Means(ms.key, a) {
      Within(ms.rest, b);
      MemberLength(ms);
    } else {
      LaterIsWithin(ms.rest, a, b);
    }
  }

  lemma {:induction false} LaterLooksUp(ms: Members, a: string, b: string)
    requires ValidMembers(ms) && a != b && Precedes(ms, a, b) && Lookup(ms, a).Some?
    ensures Lookup(Later(ms, a), b) == Lookup(ms, b)
    ensures Lookup(ms, b).Some? ==> TextAfter(Later(ms, a), b) == TextAfter(ms, b)
  {
    hide MoreMembersText, AllDecode, Meaning;
    if !Means(ms.key, a) {
      LaterLooksUp(ms.rest, a, b);
    }
  }

  /** A string member behind the first holder of the key stands in what follows the nested value. */
  lemma {:induction false} NestedThenMember(ms: Members, key: string, other: string)
    requires ValidMembers(ms) && NestedPrecedes(ms, key, other) && Nested(ms, key).Some?
    requires Lookup(ms, other).Some? && Lookup(ms, other).value.Str?
    ensures |ValueText(Lookup(ms, other).value)| + |TextAfter(ms, other)| <= |NestedAfter(ms, key)|
  {
    hide ValueText, MembersText, MoreMembersText, AllDecode, Meaning;
    if HoldsKey(ms.value, key) {
      Within(ms.rest, other);
      MemberLength(ms);
    } else {
      NestedThenMember(ms.rest, key, other);
    }
  }

  /** The nested value behind a member stands in what follows that member. */
  lemma {:induction false} MemberThenNested(ms: Members, key: string, other: string)
    requires ValidMembers(ms) && !NestedPrecedes(ms, key, other) && Nested(ms, key).Some? && Lookup(ms, other).Some?
    ensures |ValueText(Nested(ms, key).value)| + |NestedAfter(ms, key)| <= |TextAfter(ms, other)|
  {
    hide ValueText, MembersText, MoreMembersText, AllDecode, Meaning;
    if Means(ms.key, other) {
      NestedWithin(ms.rest, key);
      MemberLength(ms);
    } else {
      MemberThenNested(ms.rest, key, other);
    }
  }

  /** The message taken stands before the kind. */
  predicate MessagePrecedesKind(d: Document)
    requires ValidMembers(d.members) && HasFinal(d)
  {
    && Precedes(d.members, "final", "kind")
    && (FinalMessage(d).Some? || NestedPrecedes(Later(d.members, "final"), "message", "kind"))
  }

  function FieldsOf(d: Document): Fields
    requires ValidMembers(d.members) && KindOf(d).Some? && MessageOf(d).Some?
  {
    Fields(KindOf(d).value, TextAfter(d.members, "kind") + EndOf(d), InFinal(d), MessageOf(d).value, AfterMessage(d))
  }

  lemma MessageFirstTells(d: Document)
    requires ValidMembers(d.members) && KindOf(d).Some? && MessageOf(d).Some? && MessagePrecedesKind(d)
    ensures MessageFirst(FieldsOf(d))
  {
    hide StringText, EndOf, TextAfter, Lookup, InFinal, Precedes, NestedPrecedes, Nested, NestedAfter;
    LaterIsWithin(d.members, "final", "kind");
    if FinalMessage(d).None? {
      LaterLooksUp(d.members, "final", "kind");
      NestedThenMember(Later(d.members, "final"), "message", "kind");
    }
  }

  lemma KindFirstTells(d: Document)
    requires ValidMembers(d.members) && KindOf(d).Some? && MessageOf(d).Some? && !MessagePrecedesKind(d)
    ensures KindFirst(FieldsOf(d))
  {
    hide StringText, EndOf, TextAfter, Lookup, InFinal, Precedes, NestedPrecedes, Nested, NestedAfter, MembersText;
    var ms := d.members;
    assert "final" != "kind";
    OnePrecedes(ms, "final", "kind");
    if Precedes(ms, "kind", "final") {
      LaterIsWithin(ms, "kind", "final");
      if FinalMessage(d).Some? {
        Within(FinalMembers(d), "message");
      } else {
        NestedInLater(d);
      }
    } else {
      LaterLooksUp(ms, "final", "kind");
      MemberThenNested(Later(ms, "final"), "message", "kind");
    }
  }

  lemma NestedInLater(d: Document)
    requires ValidMembers(d.members) && HasFinal(d) && Nested(Later(d.members, "final"), "message").Some?
    ensures |ValueText(Nested(Later(d.members, "final"), "message").value)| + |NestedAfter(Later(d.members, "final"), "message")|
            <= |TextAfter(d.members, "final")|
  {
    hide ValueText, MembersText, TextAfter, NestedAfter, Lookup;
    var later := Later(d.members, "final");
    NestedWithin(later, "message");
    var blank := AfterIsLater(d.members, "final");
    assert later.Member?;
    assert MoreMembersText(later) == [','] + MembersText(later);
  }

  // ---------------------------------------------------------------- what a document shows and releases

  lemma DocumentHasFields(d: Document)
    requires ValidDocument(d) && KindOf(d).Some? && MessageOf(d).Some? && ReadsThrough(d)
    ensures HasFields(DocumentText(d), FieldsOf(d))
  {
    hide Scan, DocumentText, StringText, MembersText, TextAfter, EndOf, DecodesUpTo, MessageDecodesUpTo, TakenMessage,
      AfterMessage, Lookup;
    ScanTop(d, "kind");
    ScanTop(d, "final");
    ScanTaken(d);
    LookupIsValid(d.members, "kind");
    TakenIsValid(d);
    var behind := TextAfter(d.members, "final") + EndOf(d);
    assert ValueText(Obj(FinalMembers(d))) + behind == ['{'] + InFinal(d);
  }

  lemma TakenIsValid(d: Document)
    requires ValidMembers(d.members) && HasFinal(d) && TakenMessage(d).Some?
    ensures ValidValue(TakenMessage(d).value)
  {
    hide Lookup;
    if FinalMessage(d).Some? {
      LookupIsValid(FinalMembers(d), "message");
    } else {
      NestedIsValid(Later(d.members, "final"), "message");
    }
  }

  lemma {:induction false} NestedIsValid(ms: Members, key: string)
    requires ValidMembers(ms) && Nested(ms, key).Some?
    ensures ValidValue(Nested(ms, key).value)
  {
    hide Lookup;
    if HoldsKey(ms.value, key) {
      LookupIsValid(ms.value.members, key);
    } else {
      NestedIsValid(ms.rest, key);
    }
  }

  lemma ValueKind(v: Value, rest: string)
    requires ValidValue(v)
    ensures StartsWith(Some(ValueText(v) + rest), '\"') <==> v.Str?
    ensures StartsWith(Some(ValueText(v) + rest), '{') <==> v.Obj?
  {
    match v {
      case Str(l) =>
      case Atom(text) =>
        assert AtomChar(text[0]);
      case Arr(items) =>
      case Obj(ms) =>
    }
  }

  /** Only with a string kind, an object final and a string message, and with strings that decode
      before them, does any front part show anything. */
  lemma ShownNeeds(d: Document, n: nat)
    requires ValidDocument(d) && n <= |DocumentText(d)| && Visible(DocumentText(d)[..n]).Some?
    ensures KindOf(d).Some? && MessageOf(d).Some? && ReadsThrough(d)
  {
    hide Scan, DocumentText, ValueText, MembersText, TextAfter, EndOf, DecodesUpTo, MessageDecodesUpTo, TakenMessage,
      AfterMessage, StringField, ObjectField, Lookup, Bytes;
    var text := DocumentText(d);
    var front, more := text[..n], text[n..];
    assert front + more == text;
    ScanTop(d, "kind");
    ScanTop(d, "final");
    if !StartsWith(Scan(text, 0, 1, "kind"), '\"') {
      NeverString(front, more, 0, 1, "kind");
    }
    if !StartsWith(Scan(text, 0, 1, "final"), '{') {
      NeverObject(front, more, 0, 1, "final");
    }
    FoundKind(d, "kind");
    FoundKind(d, "final");
    FinalStarts(d);
    ObjectFieldGrows(front, more, 0, 1, "final");
    WholeObject(text, InFinal(d));
    var start := ObjectField(front, 0, 1, "final").value;
    ScanTaken(d);
    if !StartsWith(Scan(start + more, 2, 2, "message"), '\"') {
      NeverString(start, more, 2, 2, "message");
    }
    TakenIsValid(d);
    ValueKind(TakenMessage(d).value, AfterMessage(d));
  }

  lemma FoundKind(d: Document, key: string)
    requires ValidMembers(d.members) && Lookup(d.members, key).Some?
    ensures var v, rest := Lookup(d.members, key).value, TextAfter(d.members, key) + EndOf(d);
            && (StartsWith(Some(ValueText(v) + rest), '\"') <==> v.Str?)
            && (StartsWith(Some(ValueText(v) + rest), '{') <==> v.Obj?)
  {
    hide ValueText, TextAfter, EndOf, Lookup;
    LookupIsValid(d.members, key);
    ValueKind(Lookup(d.members, key).value, TextAfter(d.members, key) + EndOf(d));
  }

  lemma FinalStarts(d: Document)
    requires ValidMembers(d.members) && HasFinal(d)
    ensures ValueText(Lookup(d.members, "final").value) + (TextAfter(d.members, "final") + EndOf(d)) == ['{'] + InFinal(d)
  {
    hide MembersText, TextAfter, EndOf, Lookup;
  }

  lemma WholeObject(text: string, inside: string)
    requires Scan(text, 0, 1, "final") == Some(['{'] + inside)
    ensures ObjectField(text, 0, 1, "final") == Some(inside)
  {
    hide Scan;
    assert (['{'] + inside)[1..] == inside;
  }

  /** A whole document shows the message taken exactly when it is a string that decodes, the kind
      means final, and the strings before decode. */
  lemma VisibleExactly(d: Document)
    requires ValidDocument(d)
    ensures Visible(DocumentText(d)) ==
            if KindOf(d).Some? && MessageOf(d).Some? && ReadsThrough(d)
               && Shows(KindOf(d).value, MessageOf(d).value)
            then Some(MeaningBytes(MessageOf(d).value)) else None
  {
    var text := DocumentText(d);
    MessageIsInFinal(d);
    hide DocumentText, Scan, KindOf, MessageOf, HasFinal, ReadsThrough, FieldsOf, Visible;
    assert text[..|text|] == text;
    if Visible(text).Some? {
      ShownNeeds(d, |text|);
    }
    if KindOf(d).Some? && MessageOf(d).Some? && ReadsThrough(d) {
      DocumentHasFields(d);
      WholeShows(text, FieldsOf(d));
      FieldsNamed(d);
    }
  }

  lemma MessageIsInFinal(d: Document)
    requires ValidMembers(d.members)
    ensures MessageOf(d).Some? ==> HasFinal(d)
  {
  }

  lemma FieldsNamed(d: Document)
    requires ValidMembers(d.members) && KindOf(d).Some? && MessageOf(d).Some?
    ensures FieldsOf(d).kind == KindOf(d).value && FieldsOf(d).message == MessageOf(d).value
  {
  }

  /** The kind means final and Go decodes the message. */
  predicate Shows(kind: Literal, message: Literal) {
    ValidLiteral(kind) && ValidLiteral(message) && Means(kind, "final") && AllDecode(message)
  }

  function MeaningBytes(l: Literal): seq<Byte> {
    if ValidLiteral(l) && AllDecode(l) then Bytes(Meaning(l)) else []
  }

  lemma WholeShows(text: string, f: Fields)
    requires HasFields(text, f)
    ensures Visible(text) == if Shows(f.kind, f.message) then Some(MeaningBytes(f.message)) else None
  {
    hide Scan, Unquote, CloseAt, StringText, Bytes, Meaning, AllDecode;
    StringAt(f.kind, f.afterKind);
    if AllDecode(f.kind) && Bytes(Meaning(f.kind)) == Bytes("final") {
      BytesInjective(Meaning(f.kind), "final");
    }
    WholeObject(text, f.inFinal);
    StringAt(f.message, f.afterMessage);
  }

  ghost predicate BeginsFinal(kind: Literal) {
    ValidLiteral(kind) && exists j: nat :: j <= |kind| && Means(kind[..j], "final")
  }

  /** When the message stands before the kind, it must decode whole and the kind begin like final;
      when the kind comes first, it must mean final and the first piece of the message decode. */
  ghost predicate Releases(d: Document)
    requires ValidMembers(d.members)
  {
    && KindOf(d).Some? && MessageOf(d).Some? && ReadsThrough(d)
    && var kind, message := KindOf(d).value, MessageOf(d).value;
       && ValidLiteral(kind) && ValidLiteral(message) && message != []
       && (if MessagePrecedesKind(d) then AllDecode(message) && BeginsFinal(kind)
           else Means(kind, "final") && Decodes(message[0]))
  }

  lemma PiecesAreSome(l: Literal, i: nat)
    requires ValidLiteral(l) && i <= |l| && AllDecode(l[..i])
    ensures Bytes(Meaning(l[..i])) != [] <==> i > 0
  {
    hide Encode, PieceMeaning, Decodes;
    if i > 0 {
      var c := Meaning(l[..i])[0];
      assert |Encode(c)| >= 1 by { EncodeIsSome(c); }
    }
  }

  lemma EncodeIsSome(c: char)
    ensures |Encode(c)| >= 1
  {
  }

  /** Some front part of a text with its fields shows something exactly under these conditions. */
  lemma FieldsRelease(text: string, f: Fields)
    requires HasFields(text, f) && (MessageFirst(f) || KindFirst(f))
    requires !(MessageFirst(f) && KindFirst(f))
    ensures (exists n: nat :: ShowsSome(text, n)) <==>
            && f.message != []
            && (if MessageFirst(f) then AllDecode(f.message) && BeginsFinal(f.kind) else Means(f.kind, "final") && Decodes(f.message[0]))
  {
    hide Visible, HasFields, Bytes, Meaning, MessageFirst, KindFirst;
    if n: nat :| ShowsSome(text, n) {
      assert ValidLiteral(f.kind) && ValidLiteral(f.message) by { FieldsAreValid(text, f); }
      var i, j := FrontShows(text, f, n);
      PiecesAreSome(f.message, i);
      assert f.message[..i][0] == f.message[0];
    }
    FieldsAreValid(text, f);
    if f.message != [] {
      if MessageFirst(f) && AllDecode(f.message) && BeginsFinal(f.kind) {
        var j: nat :| j <= |f.kind| && Means(f.kind[..j], "final");
        var n := OpenKindShows(text, f, j);
        assert f.message[..|f.message|] == f.message;
        PiecesAreSome(f.message, |f.message|);
        assert ShowsSome(text, n);
      } else if KindFirst(f) && Means(f.kind, "final") && Decodes(f.message[0]) {
        assert f.message[..1] == [f.message[0]];
        var n := OpenMessageShows(text, f, 1);
        PiecesAreSome(f.message, 1);
        assert ShowsSome(text, n);
      }
    }
  }

  lemma FieldsAreValid(text: string, f: Fields)
    requires HasFields(text, f)
    ensures ValidLiteral(f.kind) && ValidLiteral(f.message)
  {
    hide Scan;
  }

  lemma NotBothFirst(f: Fields)
    ensures !(MessageFirst(f) && KindFirst(f))
  {
    hide LiteralText;
  }

  /** Some way of cutting a document makes the observer release something exactly when the document
      `Releases`. */
  lemma ReleasesExactly(d: Document)
    requires ValidDocument(d) && Utf8Len(DocumentText(d)) <= DECISION_LIMIT
    ensures ReleasesSome(DocumentText(d)) <==> Releases(d)
  {
    var text := DocumentText(d);
    ReleasedIsShown(text);
    MessageIsInFinal(d);
    hide DocumentText, Utf8Len, ReleasesSome, ShowsSome, KindOf, MessageOf, HasFinal, ReadsThrough, MessagePrecedesKind, FieldsOf, HasFields,
      MessageFirst, KindFirst;
    if n: nat :| ShowsSome(text, n) {
      SomeIsShown(text, n);
      ShownNeeds(d, n);
    }
    if KindOf(d).Some? && MessageOf(d).Some? && ReadsThrough(d) {
      DocumentHasFields(d);
      FieldsNamed(d);
      FieldsAreValid(text, FieldsOf(d));
      NotBothFirst(FieldsOf(d));
      if MessagePrecedesKind(d) {
        MessageFirstTells(d);
      } else {
        KindFirstTells(d);
      }
      FieldsRelease(text, FieldsOf(d));
    }
  }

  lemma SomeIsShown(text: string, n: nat)
    requires ShowsSome(text, n)
    ensures n <= |text| && Visible(text[..n]).Some?
  {
    hide Visible;
  }

  /** However the chunks cut a document, the outputs together are the first pieces of the message
      taken, and all of it when the whole text shows it. */
  lemma OutputsAreOfMessage(d: Document, chunks: seq<string>) returns (i: nat)
    requires ValidDocument(d) && After(chunks).raw == DocumentText(d) && Outputs(chunks) != []
    ensures MessageOf(d).Some? && ValidLiteral(MessageOf(d).value)
    ensures ShowsPieces(Some(Outputs(chunks)), MessageOf(d).value, i)
    ensures Visible(DocumentText(d)).Some? ==> Outputs(chunks) == MeaningBytes(MessageOf(d).value)
  {
    hide Visible, DocumentText, After, Outputs, KindOf, MessageOf, HasFinal, ReadsThrough, FieldsOf, HasFields, ShowsPieces,
      MeaningBytes, Shows;
    MessageIsInFinal(d);
    StreamIsMonotonic(chunks);
    var text, emitted := After(chunks).raw, After(chunks).emitted;
    var n :| 0 <= n <= |text| && Visible(text[..n]) == Some(emitted);
    ShownNeeds(d, n);
    DocumentHasFields(d);
    FieldsNamed(d);
    FieldsAreValid(text, FieldsOf(d));
    var j;
    i, j := FrontShows(text, FieldsOf(d), n);
    VisibleExactly(d);
  }

  // ---------------------------------------------------------------- only the message of final

  /** The bytes are nothing, or the first pieces of the string value. */
  ghost predicate FrontOf(bytes: seq<Byte>, v: Option<Value>) {
    bytes == [] || (v.Some? && v.value.Str? && ValidLiteral(v.value.literal) && exists i: nat :: ShowsPieces(Some(bytes), v.value.literal, i))
  }

  /** Whatever is cut how, only `final.message` is released. */
  ghost predicate OnlyFinalMessage(d: Document)
    requires ValidMembers(d.members)
  {
    forall chunks :: Concat(chunks) == DocumentText(d) ==> FrontOf(Outputs(chunks), FinalMessage(d))
  }

  /** Only `final.message` is ever released exactly if `final` holds a message or nothing is released
      at all. */
  lemma FinalMessageExactly(d: Document)
    requires ValidDocument(d) && Utf8Len(DocumentText(d)) <= DECISION_LIMIT
    ensures OnlyFinalMessage(d) <==> FinalMessage(d).Some? || !Releases(d)
  {
    hide DocumentText, Utf8Len, Releases, FinalMessage, FrontOf, Outputs, Concat;
    ReleasesExactly(d);
    if FinalMessage(d).Some? || !Releases(d) {
      forall chunks | Concat(chunks) == DocumentText(d) ensures FrontOf(Outputs(chunks), FinalMessage(d)) {
        OutputsAreFront(d, chunks);
      }
    } else {
      var chunks :| Concat(chunks) == DocumentText(d) && Outputs(chunks) != [];
      NoFront(Outputs(chunks));
    }
  }

  lemma NoFront(bytes: seq<Byte>)
    requires bytes != []
    ensures !FrontOf(bytes, None)
  {
  }

  lemma OutputsAreFront(d: Document, chunks: seq<string>)
    requires ValidDocument(d) && Utf8Len(DocumentText(d)) <= DECISION_LIMIT && Concat(chunks) == DocumentText(d)
    requires FinalMessage(d).Some? || !ReleasesSome(DocumentText(d))
    ensures FrontOf(Outputs(chunks), FinalMessage(d))
  {
    hide DocumentText, Utf8Len, Outputs, Concat, FinalMessage, ShowsPieces;
    if Outputs(chunks) != [] {
      ReadsEverything(chunks);
      var i := OutputsAreOfMessage(d, chunks);
      assert FinalMessage(d).Some?;
    }
  }

  /** Without a message in `final`, the document shows the message of the first later member that is
      an object with one, exactly when that is a string that decodes, the strings before decode and
      the kind means final. */
  lemma ForeignMessageExactly(d: Document)
    requires ValidDocument(d) && HasFinal(d) && FinalMessage(d).None?
    ensures var later := Later(d.members, "final");
            Visible(DocumentText(d)).Some? <==>
              && KindOf(d).Some? && ValidLiteral(KindOf(d).value) && Means(KindOf(d).value, "final")
              && DecodesUpTo(d.members, "kind") && DecodesUpTo(d.members, "final") && MembersDecode(FinalMembers(d))
              && NestedDecodes(later, "message") && Nested(later, "message").Some?
              && ValidValue(Nested(later, "message").value) && Nested(later, "message").value.Str?
              && AllDecode(Nested(later, "message").value.literal)
  {
    hide DocumentText, Visible, Lookup, AllDecode, Meaning, Nested, NestedDecodes, Later, DecodesUpTo, MembersDecode;
    VisibleExactly(d);
  }

  /** A final decision without a message of its own, and another member with one. */
  function Foreign(kind: Literal, final: Literal, other: Literal, inner: Members): Members {
    var last := Member("", other, "", "", Obj(inner), "", NoMember(""));
    Member("", kind, "", "", Str(final), "", Member("", final, "", "", Obj(NoMember("")), "", last))
  }

  lemma ForeignIsValid(kind: Literal, final: Literal, other: Literal, inner: Members)
    requires ValidLiteral(kind) && ValidLiteral(final) && ValidLiteral(other) && ValidMembers(inner)
    ensures ValidMembers(Foreign(kind, final, other, inner))
  {
    hide ValidLiteral;
    var ms := Foreign(kind, final, other, inner);
    assert ValidMembers(NoMember("")) && ValidValue(Obj(NoMember(""))) && ValidValue(Obj(inner));
    assert ValidMembers(ms.rest.rest);
    assert ValidMembers(ms.rest);
  }

  lemma ForeignLooksUp(kind: Literal, final: Literal, other: Literal, inner: Members)
    requires ValidMembers(Foreign(kind, final, other, inner)) && ValidMembers(inner)
    requires ValidLiteral(kind) && ValidLiteral(final) && ValidLiteral(other)
    requires Means(kind, "kind") && !Means(kind, "final") && Means(final, "final")
    ensures var ms := Foreign(kind, final, other, inner);
            && Lookup(ms, "kind") == Some(Str(final)) && Lookup(ms, "final") == Some(Obj(NoMember("")))
            && Later(ms, "final") == ms.rest.rest
            && DecodesUpTo(ms, "kind") && DecodesUpTo(ms, "final")
  {
    assert AllDecode(kind) && AllDecode(final);
    hide Means, AllDecode, ValidLiteral;
    var ms := Foreign(kind, final, other, inner);
    assert ValueDecodes(Str(final));
    assert Lookup(ms.rest, "final") == Some(Obj(NoMember(""))) && Later(ms.rest, "final") == ms.rest.rest && DecodesUpTo(ms.rest, "final");
  }

  lemma OtherHolds(other: Literal, inner: Members, message: Literal)
    requires ValidLiteral(other) && AllDecode(other) && ValidMembers(inner)
    requires Lookup(inner, "message") == Some(Str(message)) && DecodesUpTo(inner, "message")
    ensures var ms := Member("", other, "", "", Obj(inner), "", NoMember(""));
            ValidMembers(ms) && Nested(ms, "message") == Some(Str(message)) && NestedDecodes(ms, "message")
  {
    hide AllDecode, ValidLiteral, Lookup, DecodesUpTo;
    assert ValidMembers(NoMember("")) && ValidValue(Obj(inner));
  }

  lemma ForeignDocument(d: Document, kind: Literal, final: Literal, other: Literal, inner: Members, message: Literal)
    requires d == Document("", Foreign(kind, final, other, inner), "")
    requires ValidLiteral(kind) && ValidLiteral(final) && ValidLiteral(other) && ValidMembers(inner)
    requires Means(kind, "kind") && !Means(kind, "final") && Means(final, "final") && AllDecode(other)
    requires Lookup(inner, "message") == Some(Str(message)) && DecodesUpTo(inner, "message")
    requires ValidLiteral(message) && AllDecode(message)
    ensures ValidDocument(d) && HasFinal(d) && FinalMessage(d).None?
    ensures Visible(DocumentText(d)) == Some(Bytes(Meaning(message)))
  {
    ForeignIsValid(kind, final, other, inner);
    ForeignLooksUp(kind, final, other, inner);
    OtherHolds(other, inner, message);
    hide DocumentText, Visible, Means, AllDecode, Meaning, Bytes, DecodesUpTo, NestedDecodes, Nested, ValidLiteral, Later;
    assert ValidMembers(d.members);
    assert Lookup(NoMember(""), "message") == None;
    assert FinalMembers(d) == NoMember("") && MembersDecode(NoMember(""));
    VisibleExactly(d);
  }

  lemma ForeignKeys()
    ensures ValidLiteral(Plainly("kind")) && Means(Plainly("kind"), "kind") && !Means(Plainly("kind"), "final")
    ensures ValidLiteral(Plainly("final")) && Means(Plainly("final"), "final")
    ensures ValidLiteral(Plainly("other")) && AllDecode(Plainly("other"))
  {
    hide Plainly, LiteralText, Meaning, AllDecode, ValidLiteral;
    PlainlyMeans("kind");
    PlainlyMeans("final");
    PlainlyMeans("other");
    assert "kind" != "final";
  }

  /** The observer shows that other message. */
  lemma ForeignMessageIsShown(message: Literal) returns (d: Document)
    requires ValidLiteral(message) && AllDecode(message)
    ensures d == Document("", Foreign(Plainly("kind"), Plainly("final"), Plainly("other"), OnlyMessage(message)), "")
    ensures ValidDocument(d) && HasFinal(d) && FinalMessage(d).None?
    ensures Visible(DocumentText(d)) == Some(Bytes(Meaning(message)))
  {
    hide Plainly, OnlyMessage, AllDecode, ValidLiteral, DocumentText, Visible, Bytes, Meaning, Means, Lookup, DecodesUpTo,
      ValidMembers, Foreign;
    ForeignKeys();
    OnlyMessageIsValid(message);
    d := Document("", Foreign(Plainly("kind"), Plainly("final"), Plainly("other"), OnlyMessage(message)), "");
    ForeignDocument(d, Plainly("kind"), Plainly("final"), Plainly("other"), OnlyMessage(message), message);
  }

  /** So a message that is not the one of `final` is released. */
  lemma ForeignMessageIsReleased(message: Literal) returns (d: Document)
    requires ValidLiteral(message) && AllDecode(message) && message != []
    ensures d == Document("", Foreign(Plainly("kind"), Plainly("final"), Plainly("other"), OnlyMessage(message)), "")
    ensures ValidDocument(d) && (Utf8Len(DocumentText(d)) <= DECISION_LIMIT ==> !OnlyFinalMessage(d))
  {
    hide Visible, DocumentText, Utf8Len, Plainly, OnlyMessage, Bytes, Meaning, AllDecode, Releases, OnlyFinalMessage,
      ReleasesSome, Foreign, FinalMessage;
    d := ForeignMessageIsShown(message);
    var text := DocumentText(d);
    assert message[..|message|] == message && text[..|text|] == text;
    PiecesAreSome(message, |message|);
    assert ShowsSome(text, |text|);
    if Utf8Len(text) <= DECISION_LIMIT {
      ReleasedIsShown(text);
      ReleasesExactly(d);
      FinalMessageExactly(d);
    }
  }

  // ---------------------------------------------------------------- a kind that is not final

  /** What decodes up to a member decodes up to any earlier one, and its value too. */
  lemma {:induction false} EarlierDecodes(ms: Members, a: string, b: string)
    requires ValidMembers(ms) && a != b && Precedes(ms, a, b) && DecodesUpTo(ms, b) && Lookup(ms, a).Some?
    ensures DecodesUpTo(ms, a) && ValidValue(Lookup(ms, a).value) && ValueDecodes(Lookup(ms, a).value)
  {
    hide AllDecode, Meaning, ValueDecodes;
    if !Means(ms.key, a) {
      EarlierDecodes(ms.rest, a, b);
    }
  }

  lemma {:induction false} AllMembersDecode(ms: Members, key: string)
    requires ValidMembers(ms) && MembersDecode(ms) && Lookup(ms, key).Some?
    ensures DecodesUpTo(ms, key) && ValidValue(Lookup(ms, key).value) && ValueDecodes(Lookup(ms, key).value)
  {
    hide AllDecode, Meaning, ValueDecodes;
    if !Means(ms.key, key) {
      AllMembersDecode(ms.rest, key);
    }
  }

  /** Of a decision whose kind is not final, something is released under some cut exactly if the kind
      begins like final, `final` stands before it, the strings before it decode and the message is not
      empty. */
  lemma NotFinalReleasesExactly(d: Document, kind: Literal, final: Members, message: Literal)
    requires FinalDecision(d, kind, final, message) && !Means(kind, "final")
    requires Utf8Len(DocumentText(d)) <= DECISION_LIMIT
    ensures ReleasesSome(DocumentText(d)) <==>
            BeginsFinal(kind) && Precedes(d.members, "final", "kind") && DecodesUpTo(d.members, "kind") && message != []
  {
    hide DocumentText, Utf8Len, ReleasesSome, Lookup, AllDecode, Meaning, Precedes, DecodesUpTo, BeginsFinal, MembersDecode,
      Later, NestedPrecedes;
    ReleasesExactly(d);
    if Precedes(d.members, "final", "kind") && DecodesUpTo(d.members, "kind") {
      EarlierDecodes(d.members, "final", "kind");
      AllMembersDecode(final, "message");
    }
  }

  /** A document that writes its kind before `final` releases nothing unless the kind means final. */
  lemma KindFirstIsSafe(d: Document)
    requires ValidDocument(d) && Utf8Len(DocumentText(d)) <= DECISION_LIMIT
    requires Precedes(d.members, "kind", "final") && ReleasesSome(DocumentText(d))
    ensures KindOf(d).Some? && ValidLiteral(KindOf(d).value) && Means(KindOf(d).value, "final")
  {
    hide DocumentText, Utf8Len, ReleasesSome, Lookup, AllDecode, Meaning, Precedes, DecodesUpTo, BeginsFinal, MembersDecode,
      Later, NestedPrecedes;
    ReleasesExactly(d);
    OnePrecedes(d.members, "kind", "final");
  }
}
