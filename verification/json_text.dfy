/** JSON texts as in RFC 8259, and the string decoding of Go's `strconv.Unquote`. */
module JsonText {
  import opened Text

  type Byte = b: int | 0 <= b < 256

  /** The UTF-8 encoding of a character. */
  function Encode(c: char): seq<Byte> {
    var n := c as int;
    if n < 0x80 then [n]
    else if n < 0x800 then [0xC0 + n / 64, 0x80 + n % 64]
    else if n < 0x10000 then [0xE0 + n / 4096, 0x80 + n / 64 % 64, 0x80 + n % 64]
    else [0xF0 + n / 262144, 0x80 + n / 4096 % 64, 0x80 + n / 64 % 64, 0x80 + n % 64]
  }

  function Bytes(s: string): seq<Byte> {
    if s == "" then [] else Encode(s[0]) + Bytes(s[1..])
  }

  /** The byte length of a text is the length of its UTF-8 encoding. */
  lemma {:induction false} LengthInBytes(s: string)
    ensures |Bytes(s)| == Utf8Len(s)
  {
    if s != "" {
      LengthInBytes(s[1..]);
    }
  }

  predicate IsHex(c: char) {
    '0' <= c <= '9' || 'a' <= c <= 'f' || 'A' <= c <= 'F'
  }

  function HexDigit(c: char): nat
    requires IsHex(c)
  {
    if c <= '9' then c as int - '0' as int
    else if 'a' <= c then c as int - 'a' as int + 10
    else c as int - 'A' as int + 10
  }

  predicate AllHex(s: string) {
    forall i :: 0 <= i < |s| ==> IsHex(s[i])
  }

  function HexNumber(s: string): nat
    requires AllHex(s)
  {
    if s == "" then 0 else HexNumber(s[..|s| - 1]) * 16 + HexDigit(s[|s| - 1])
  }

  /** A Unicode scalar value: in range and no surrogate. */
  predicate ValidRune(n: nat) {
    n < 0xD800 || 0xE000 <= n < 0x110000
  }

  datatype Decoded = Decoded(bytes: seq<Byte>, length: nat)

  /** The letter escapes of Go. */
  function LetterEscape(c: char): Option<Byte> {
    match c
    case 'a' => Some(7)
    case 'b' => Some(8)
    case 'f' => Some(12)
    case 'n' => Some(10)
    case 'r' => Some(13)
    case 't' => Some(9)
    case 'v' => Some(11)
    case '\\' => Some(92)
    case '\"' => Some(34)
    case _ => None
  }

  function RuneEscape(digits: string): Option<seq<Byte>> {
    if AllHex(digits) && ValidRune(HexNumber(digits)) then Some(Encode(HexNumber(digits) as char)) else None
  }

  predicate IsOctal(c: char) {
    '0' <= c <= '7'
  }

  function OctalNumber(a: char, b: char, c: char): nat
    requires IsOctal(a) && IsOctal(b) && IsOctal(c)
  {
    (a as int - '0' as int) * 64 + (b as int - '0' as int) * 8 + (c as int - '0' as int)
  }

  lemma TwoHexDigits(s: string)
    requires |s| == 2 && AllHex(s)
    ensures HexNumber(s) < 256
  {
    assert s[..1][..0] == "";
    assert HexNumber(s[..1]) == HexDigit(s[0]);
  }

  function ByteEscape(digits: string): Option<Byte>
    requires |digits| == 2
  {
    if AllHex(digits) then TwoHexDigits(digits); Some(HexNumber(digits)) else None
  }

  /** Decodes one escape; the text starts behind the backslash. */
  function Escape(s: string): (r: Option<Decoded>)
    ensures r.Some? ==> 1 <= r.value.length <= |s|
  {
    if s == "" then None
    else if LetterEscape(s[0]).Some? then Some(Decoded([LetterEscape(s[0]).value], 1))
    else if s[0] == 'x' && |s| >= 3 && ByteEscape(s[1..3]).Some? then Some(Decoded([ByteEscape(s[1..3]).value], 3))
    else if s[0] == 'u' && |s| >= 5 && RuneEscape(s[1..5]).Some? then Some(Decoded(RuneEscape(s[1..5]).value, 5))
    else if s[0] == 'U' && |s| >= 9 && RuneEscape(s[1..9]).Some? then Some(Decoded(RuneEscape(s[1..9]).value, 9))
    else if |s| >= 3 && IsOctal(s[0]) && IsOctal(s[1]) && IsOctal(s[2]) && OctalNumber(s[0], s[1], s[2]) < 256
    then Some(Decoded([OctalNumber(s[0], s[1], s[2])], 3))
    else None
  }

  function Prepend(bytes: seq<Byte>, rest: Option<seq<Byte>>): Option<seq<Byte>> {
    if rest.Some? then Some(bytes + rest.value) else None
  }

  /** What `strconv.Unquote` makes of a text between double quotes. */
  function Unquote(s: string): Option<seq<Byte>> {
    if s == "" then Some([])
    else if s[0] == '\\' then
      var escape := Escape(s[1..]);
      if escape.None? then None else Prepend(escape.value.bytes, Unquote(s[1 + escape.value.length..]))
    else if s[0] == '\"' || s[0] == '\n' then None
    else Prepend(Encode(s[0]), Unquote(s[1..]))
  }

  lemma EscapeIsLocal(s: string, more: string)
    requires Escape(s).Some?
    ensures Escape(s + more) == Escape(s)
  {
    hide LetterEscape, RuneEscape, ByteEscape;
    var t := s + more;
    assert t[0] == s[0];
    assert |s| >= 3 ==> t[1..3] == s[1..3];
    assert |s| >= 5 ==> t[1..5] == s[1..5];
    assert |s| >= 9 ==> t[1..9] == s[1..9];
    LetterFirst(s[0]);
  }

  lemma LetterFirst(c: char)
    ensures LetterEscape(c).Some? ==> c != 'x' && c != 'u' && c != 'U' && !IsOctal(c)
  {
  }

  lemma PrependNothing(rest: Option<seq<Byte>>)
    ensures Prepend([], rest) == rest
  {
    if rest.Some? {
      var none: seq<Byte> := [];
      assert none + rest.value == rest.value;
    }
  }

  lemma PrependTwice(a: seq<Byte>, b: seq<Byte>, rest: Option<seq<Byte>>)
    ensures Prepend(a, Prepend(b, rest)) == Prepend(a + b, rest)
  {
    if rest.Some? {
      assert a + (b + rest.value) == (a + b) + rest.value;
    }
  }

  /** Decoding goes on where a decoded front part ends. */
  lemma {:induction false} UnquoteAppend(a: string, b: string)
    requires Unquote(a).Some?
    ensures Unquote(a + b) == Prepend(Unquote(a).value, Unquote(b))
    decreases |a|
  {
    hide Escape, Encode;
    if a == "" {
      assert a + b == b;
      PrependNothing(Unquote(b));
    } else if a[0] == '\\' {
      var n := Escape(a[1..]).value.length;
      EscapeIsLocal(a[1..], b);
      assert (a + b)[1..] == a[1..] + b;
      assert (a + b)[1 + n..] == a[1 + n..] + b;
      UnquoteAppend(a[1 + n..], b);
      PrependTwice(Escape(a[1..]).value.bytes, Unquote(a[1 + n..]).value, Unquote(b));
    } else {
      assert (a + b)[1..] == a[1..] + b;
      UnquoteAppend(a[1..], b);
      PrependTwice(Encode(a[0]), Unquote(a[1..]).value, Unquote(b));
    }
  }

  // ---------------------------------------------------------------- string literals

  /** A piece of a JSON string: a plain character, a two-character escape, or \u with four digits. */
  datatype Piece = Plain(c: char) | Short(c: char) | Unicode(digits: string)

  type Literal = seq<Piece>

  predicate ValidPiece(p: Piece) {
    match p
    case Plain(c) => c >= ' ' && c != '\"' && c != '\\'
    case Short(c) => c in ['\"', '\\', '/', 'b', 'f', 'n', 'r', 't']
    case Unicode(digits) => |digits| == 4 && AllHex(digits)
  }

  predicate ValidLiteral(l: Literal) {
    forall i :: 0 <= i < |l| ==> ValidPiece(l[i])
  }

  function PieceText(p: Piece): string {
    match p
    case Plain(c) => [c]
    case Short(c) => ['\\', c]
    case Unicode(digits) => ['\\', 'u'] + digits
  }

  function LiteralText(l: Literal): string {
    if l == [] then "" else PieceText(l[0]) + LiteralText(l[1..])
  }

  /** Go decodes every piece but the escaped slash and the surrogates. */
  predicate Decodes(p: Piece)
    requires ValidPiece(p)
  {
    match p
    case Plain(_) => true
    case Short(c) => c != '/'
    case Unicode(digits) => ValidRune(HexNumber(digits))
  }

  predicate AllDecode(l: Literal)
    requires ValidLiteral(l)
  {
    forall i :: 0 <= i < |l| ==> Decodes(l[i])
  }

  function ShortMeaning(c: char): char {
    match c
    case 'b' => 8 as char
    case 'f' => 12 as char
    case 'n' => '\n'
    case 'r' => '\r'
    case 't' => '\t'
    case _ => c
  }

  /** The character that a decodable piece stands for. */
  function PieceMeaning(p: Piece): char
    requires ValidPiece(p) && Decodes(p)
  {
    match p
    case Plain(c) => c
    case Short(c) => ShortMeaning(c)
    case Unicode(digits) => HexNumber(digits) as char
  }

  /** The text that a literal of decodable pieces stands for. */
  function Meaning(l: Literal): string
    requires ValidLiteral(l) && AllDecode(l)
  {
    if l == [] then "" else [PieceMeaning(l[0])] + Meaning(l[1..])
  }

  predicate Means(l: Literal, text: string)
    requires ValidLiteral(l)
  {
    AllDecode(l) && Meaning(l) == text
  }

  lemma PlainUnquotes(c: char, rest: string)
    requires ValidPiece(Plain(c))
    ensures Unquote([c] + rest) == Prepend(Encode(c), Unquote(rest))
  {
    hide Encode, Escape;
    assert ([c] + rest)[1..] == rest;
  }

  lemma ShortUnquotes(c: char, rest: string)
    requires ValidPiece(Short(c))
    ensures Unquote(['\\', c] + rest) == if c == '/' then None else Prepend(Encode(ShortMeaning(c)), Unquote(rest))
  {
    hide Encode, RuneEscape, ByteEscape;
    var s := ['\\', c] + rest;
    assert s[1..] == [c] + rest;
    assert s[1 + 1..] == rest;
    if c != '/' {
      ShortEncodes(c);
    }
  }

  lemma UnicodeUnquotes(digits: string, rest: string)
    requires ValidPiece(Unicode(digits))
    ensures Unquote((['\\', 'u'] + digits) + rest)
            == if ValidRune(HexNumber(digits)) then Prepend(Encode(HexNumber(digits) as char), Unquote(rest)) else None
  {
    hide Encode, HexNumber, ByteEscape;
    var s := (['\\', 'u'] + digits) + rest;
    assert s[1..] == ['u'] + digits + rest;
    assert s[1..][1..5] == digits;
    assert s[1 + 5..] == rest;
  }

  lemma PieceUnquotes(p: Piece, rest: string)
    requires ValidPiece(p)
    ensures Decodes(p) ==> Unquote(PieceText(p) + rest) == Prepend(Encode(PieceMeaning(p)), Unquote(rest))
    ensures !Decodes(p) ==> Unquote(PieceText(p) + rest) == None
  {
    hide Encode, HexNumber, Unquote;
    match p {
      case Plain(c) => PlainUnquotes(c, rest);
      case Short(c) => ShortUnquotes(c, rest);
      case Unicode(digits) => UnicodeUnquotes(digits, rest);
    }
  }

  lemma ShortEncodes(c: char)
    requires c in ['\"', '\\', '/', 'b', 'f', 'n', 'r', 't'] && c != '/'
    ensures LetterEscape(c).Some? && [LetterEscape(c).value] == Encode(ShortMeaning(c))
  {
  }

  /** Go's decoding agrees with JSON's on a literal exactly when it has no escaped slash and no
      surrogate escape; otherwise it fails. */
  lemma {:induction false} UnquoteExactly(l: Literal)
    requires ValidLiteral(l)
    ensures Unquote(LiteralText(l)) == if AllDecode(l) then Some(Bytes(Meaning(l))) else None
  {
    if l != [] {
      hide Unquote, PieceText, Encode, Decodes, PieceMeaning, ValidPiece;
      UnquoteExactly(l[1..]);
      PieceUnquotes(l[0], LiteralText(l[1..]));
      if AllDecode(l) {
        assert Meaning(l)[1..] == Meaning(l[1..]);
      } else if Decodes(l[0]) {
        assert !AllDecode(l[1..]) by {
          var i :| 0 <= i < |l| && !Decodes(l[i]);
          assert l[1..][i - 1] == l[i];
        }
      }
    }
  }

  // ---------------------------------------------------------------- values

  predicate IsBlank(c: char) {
    c == ' ' || c == '\n' || c == '\r' || c == '\t'
  }

  predicate AllBlank(s: string) {
    forall i :: 0 <= i < |s| ==> IsBlank(s[i])
  }

  /** A character of a number or of a literal name, among others. */
  predicate AtomChar(c: char) {
    !IsBlank(c) && c !in ['{', '}', '[', ']', '\"', ',', ':']
  }

  predicate ValidAtom(s: string) {
    s != "" && forall i :: 0 <= i < |s| ==> AtomChar(s[i])
  }

  // Values carry the blanks around their parts.
  datatype Value = Str(literal: Literal) | Atom(text: string) | Arr(items: Items) | Obj(members: Members)
  datatype Items = NoItem(blank: string) | Item(before: string, value: Value, after: string, rest: Items)
  datatype Members =
    | NoMember(blank: string)
    | Member(before: string, key: Literal, afterKey: string, beforeValue: string, value: Value, afterValue: string, rest: Members)

  predicate ValidValue(v: Value) {
    match v
    case Str(l) => ValidLiteral(l)
    case Atom(text) => ValidAtom(text)
    case Arr(items) => ValidItems(items)
    case Obj(members) => ValidMembers(members)
  }

  predicate ValidItems(items: Items) {
    match items
    case NoItem(blank) => AllBlank(blank)
    case Item(before, value, after, rest) => AllBlank(before) && ValidValue(value) && AllBlank(after) && ValidItems(rest)
  }

  predicate ValidMembers(ms: Members) {
    match ms
    case NoMember(blank) => AllBlank(blank)
    case Member(before, key, afterKey, beforeValue, value, afterValue, rest) =>
      && AllBlank(before) && ValidLiteral(key) && AllBlank(afterKey)
      && AllBlank(beforeValue) && ValidValue(value) && AllBlank(afterValue) && ValidMembers(rest)
  }

  function StringText(l: Literal): string {
    ['\"'] + LiteralText(l) + ['\"']
  }

  function ValueText(v: Value): string
    decreases v, 0
  {
    match v
    case Str(l) => StringText(l)
    case Atom(text) => text
    case Arr(items) => ['['] + ItemsText(items) + [']']
    case Obj(members) => ['{'] + MembersText(members) + ['}']
  }

  function ItemsText(items: Items): string
    decreases items, 0
  {
    match items
    case NoItem(blank) => blank
    case Item(before, value, after, rest) => before + ValueText(value) + after + MoreItemsText(rest)
  }

  function MoreItemsText(items: Items): string
    decreases items, 1
  {
    if items.NoItem? then items.blank else [','] + ItemsText(items)
  }

  function MembersText(ms: Members): string
    decreases ms, 0
  {
    match ms
    case NoMember(blank) => blank
    case Member(before, key, afterKey, beforeValue, value, afterValue, rest) =>
      before + StringText(key) + afterKey + [':'] + beforeValue + ValueText(value) + afterValue + MoreMembersText(rest)
  }

  function MoreMembersText(ms: Members): string
    decreases ms, 1
  {
    if ms.NoMember? then ms.blank else [','] + MembersText(ms)
  }

  /** Go decodes every string of the value. */
  predicate ValueDecodes(v: Value)
    requires ValidValue(v)
  {
    match v
    case Str(l) => AllDecode(l)
    case Atom(_) => true
    case Arr(items) => ItemsDecode(items)
    case Obj(members) => MembersDecode(members)
  }

  predicate ItemsDecode(items: Items)
    requires ValidItems(items)
  {
    items.NoItem? || (ValueDecodes(items.value) && ItemsDecode(items.rest))
  }

  predicate MembersDecode(ms: Members)
    requires ValidMembers(ms)
  {
    ms.NoMember? || (AllDecode(ms.key) && ValueDecodes(ms.value) && MembersDecode(ms.rest))
  }

  /** The value of the first member with this key. */
  function Lookup(ms: Members, key: string): Option<Value>
    requires ValidMembers(ms)
  {
    if ms.NoMember? then None
    else if Means(ms.key, key) then Some(ms.value)
    else Lookup(ms.rest, key)
  }

  /** Go decodes every string of the members before the first one with this key. */
  predicate DecodesUpTo(ms: Members, key: string)
    requires ValidMembers(ms)
  {
    ms.NoMember?
    || (AllDecode(ms.key) && (Means(ms.key, key) || (ValueDecodes(ms.value) && DecodesUpTo(ms.rest, key))))
  }

  /** What follows the value of the first member with this key, up to the end of the members. */
  function TextAfter(ms: Members, key: string): string
    requires ValidMembers(ms) && Lookup(ms, key).Some?
  {
    if Means(ms.key, key) then ms.afterValue + MoreMembersText(ms.rest) else TextAfter(ms.rest, key)
  }
}
