/** The tables behind the decoding of JSON strings: UTF-8, hexadecimal digits and escapes, by value. */
module JsonOutcomes {
  import opened Text
  import opened JsonText

  lemma Sextets(n: nat)
    ensures n == 64 * (n / 64) + n % 64
    ensures n / 64 == 64 * (n / 4096) + n / 64 % 64
    ensures n / 4096 == 64 * (n / 262144) + n / 4096 % 64
  {
    assert n / 64 / 64 == n / 4096;
    assert n / 4096 / 64 == n / 262144;
  }

  /** What a leading byte that announces so many others, and those others, stand for. */
  function Joined(lead: int, marks: int, others: seq<Byte>): int {
    if others == [] then lead - marks
    else 64 * Joined(lead, marks, others[..|others| - 1]) + (others[|others| - 1] as int - 0x80)
  }

  lemma JoinOthers(lead: int, marks: int, b: Byte, c: Byte, d: Byte)
    ensures Joined(lead, marks, [b]) == 64 * (lead - marks) + (b as int - 0x80)
    ensures Joined(lead, marks, [b, c]) == 64 * Joined(lead, marks, [b]) + (c as int - 0x80)
    ensures Joined(lead, marks, [b, c, d]) == 64 * Joined(lead, marks, [b, c]) + (d as int - 0x80)
  {
    assert [b][..0] == [] && [b, c][..1] == [b] && [b, c, d][..2] == [b, c];
  }

  /** A character is read back from its encoding, whose first byte tells how many follow; the shortest form
      is taken. */
  lemma EncodeExactly(c: char)
    ensures var e, n := Encode(c), c as int;
            && 1 <= |e| <= 4 && (forall i :: 1 <= i < |e| ==> 0x80 <= e[i] < 0xC0)
            && (|e| == 1 <==> n <= 0x7F) && (|e| <= 2 <==> n <= 0x7FF) && (|e| <= 3 <==> n <= 0xFFFF)
            && n == Joined(e[0] as int, [0, 0xC0, 0xE0, 0xF0][|e| - 1], e[1..])
  {
    var e, n := Encode(c), c as int;
    Sextets(n);
    if |e| > 1 {
      JoinOthers(e[0] as int, [0, 0xC0, 0xE0, 0xF0][|e| - 1], e[1], if |e| > 2 then e[2] else 0, if |e| > 3 then e[3] else 0);
      assert |e| == 2 ==> e[1..] == [e[1]];
      assert |e| == 3 ==> e[1..] == [e[1], e[2]];
      assert |e| == 4 ==> e[1..] == [e[1], e[2], e[3]];
    }
  }

  const LOWER := "0123456789abcdef"
  const UPPER := "0123456789ABCDEF"

  /** The k-th digit has the value k, in either case, and nothing else is a digit. */
  lemma HexExactly(c: char, k: nat)
    requires k < 16
    ensures IsHex(c) && HexDigit(c) == k <==> c == LOWER[k] || c == UPPER[k]
  {
  }

  /** Four digits count from the left, in steps of sixteen. */
  lemma FourDigits(a: char, b: char, c: char, d: char)
    requires IsHex(a) && IsHex(b) && IsHex(c) && IsHex(d)
    ensures HexNumber([a, b, c, d]) == 4096 * HexDigit(a) + 256 * HexDigit(b) + 16 * HexDigit(c) + HexDigit(d)
  {
    hide IsHex, HexDigit;
    DigitLast([], a);
    DigitLast([a], b);
    DigitLast([a, b], c);
    DigitLast([a, b, c], d);
    assert [a] + [b] == [a, b] && [a, b] + [c] == [a, b, c] && [a, b, c] + [d] == [a, b, c, d] && [] + [a] == [a];
  }

  lemma DigitLast(s: string, c: char)
    requires AllHex(s) && IsHex(c)
    ensures AllHex(s + [c]) && HexNumber("") == 0 && HexNumber(s + [c]) == HexNumber(s) * 16 + HexDigit(c)
  {
    assert (s + [c])[..|s|] == s;
  }

  /** A text that is one escape, or begins with something that is none. */
  lemma EscapeAlone(s: string, bytes: seq<Byte>)
    requires s != "" && s[0] == '\\'
    ensures Escape(s[1..]) == Some(Decoded(bytes, |s| - 1)) ==> Unquote(s) == Some(bytes)
    ensures Escape(s[1..]) == None ==> Unquote(s) == None
  {
    hide Escape;
    if Escape(s[1..]) == Some(Decoded(bytes, |s| - 1)) {
      assert s[1 + (|s| - 1)..] == "";
      assert Unquote("") == Some([]);
      assert bytes + [] == bytes;
    }
  }

  /** One character that is no quote, no backslash and no line feed stands for itself; a quote or a line
      feed is refused wherever it stands. */
  lemma PlainExactly(c: char, rest: string)
    ensures c !in ['\"', '\\', '\n'] ==> Unquote([c]) == Some(Encode(c))
    ensures c in ['\"', '\n'] ==> Unquote([c] + rest) == None
  {
    hide Encode, Escape;
    assert [c][1..] == "" && Unquote("") == Some([]);
    assert Encode(c) + [] == Encode(c);
    assert ([c] + rest)[0] == c;
  }

  /** The letters behind a backslash and the bytes they stand for. */
  lemma LetterExactly(c: char, b: Byte)
    requires (c, b as int) in [('a', 7), ('b', 8), ('t', 9), ('n', 10), ('v', 11), ('f', 12), ('r', 13), ('\"', 34), ('\\', 92)]
    ensures Unquote(['\\', c]) == Some([b])
  {
    var s := ['\\', c];
    assert s[1..] == [c];
    assert Escape([c]) == Some(Decoded([b], 1));
    EscapeAlone(s, [b]);
  }

  /** Two hexadecimal digits behind an x stand for one byte. */
  lemma HexByteExactly(a: char, b: char)
    requires IsHex(a) && IsHex(b)
    ensures 16 * HexDigit(a) + HexDigit(b) < 256
    ensures Unquote(['\\', 'x', a, b]) == Some([16 * HexDigit(a) + HexDigit(b)])
  {
    var s, digits := ['\\', 'x', a, b], [a, b];
    DigitLast([], a);
    DigitLast([a], b);
    assert [] + [a] == [a] && [a] + [b] == digits;
    assert s[1..] == ['x', a, b] && s[1..][1..3] == digits;
    assert ByteEscape(digits) == Some(16 * HexDigit(a) + HexDigit(b));
    hide HexDigit, HexNumber, IsHex, ByteEscape;
    assert Escape(s[1..]) == Some(Decoded([16 * HexDigit(a) + HexDigit(b)], 3));
    EscapeAlone(s, [16 * HexDigit(a) + HexDigit(b)]);
  }

  /** Three octal digits behind a backslash stand for one byte, if it is one. */
  lemma OctalByteExactly(a: char, b: char, c: char)
    requires '0' <= a <= '7' && '0' <= b <= '7' && '0' <= c <= '7'
    ensures var n := 64 * (a as int - 48) + 8 * (b as int - 48) + (c as int - 48);
            Unquote(['\\', a, b, c]) == if n < 256 then Some([n]) else None
  {
    var s, n := ['\\', a, b, c], 64 * (a as int - 48) + 8 * (b as int - 48) + (c as int - 48);
    assert s[1..] == [a, b, c];
    hide ByteEscape, RuneEscape;
    assert LetterEscape(a).None?;
    EscapeAlone(s, if n < 256 then [n] else []);
  }

  /** Four hexadecimal digits behind a u stand for the character they number, unless it is a surrogate. */
  lemma UnicodeExactly(a: char, b: char, c: char, d: char)
    requires IsHex(a) && IsHex(b) && IsHex(c) && IsHex(d)
    ensures var n := HexNumber([a, b, c, d]);
            && n <= 0xFFFF
            && Unquote(['\\', 'u', a, b, c, d]) == if 0xD800 <= n <= 0xDFFF then None else Some(Encode(n as char))
  {
    FourDigits(a, b, c, d);
    var s, digits := ['\\', 'u', a, b, c, d], [a, b, c, d];
    var n := HexNumber(digits);
    hide HexNumber, Encode, IsHex;
    assert s[1..] == ['u'] + digits && s[1..][1..5] == digits;
    assert RuneEscape(digits) == if 0xD800 <= n <= 0xDFFF then None else Some(Encode(n as char));
    hide RuneEscape;
    EscapeAlone(s, if 0xD800 <= n <= 0xDFFF then [] else Encode(n as char));
  }
}
