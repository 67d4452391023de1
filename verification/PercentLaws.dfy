/** Percent-encoding described from outside: which text stands for which, character by character. */
module PercentLaws {
  import opened Common
  import opened PercentEncoding

  const UPPER := "0123456789ABCDEF"
  const LOWER := "0123456789abcdef"

  const CAPITALS := "ABCDEFGHIJKLMNOPQRSTUVWXYZ"
  const SMALL := "abcdefghijklmnopqrstuvwxyz"

  /** c is the hexadecimal digit d, in either case. */
  ghost predicate Digit(c: char, d: int) {
    0 <= d < 16 && (c == UPPER[d] || c == LOWER[d])
  }

  lemma UpperDigits(d: nat)
    requires d < 16
    ensures HexDigit(d) == UPPER[d]
  {
  }

  lemma HexExactly(c: char, d: int)
    ensures HexValue(c) == Some(d) <==> Digit(c, d)
  {
    if '0' <= c <= '9' {
      assert UPPER[c as int - 48] == c;
    } else if 'A' <= c <= 'F' {
      assert UPPER[c as int - 55] == c;
    } else if 'a' <= c <= 'f' {
      assert LOWER[c as int - 87] == c;
    }
  }

  lemma CapitalsInOrder(c: char)
    ensures c in CAPITALS <==> 'A' <= c <= 'Z'
  {
    if 'A' <= c <= 'Z' { assert CAPITALS[c as int - 65] == c; }
  }

  lemma SmallInOrder(c: char)
    ensures c in SMALL <==> 'a' <= c <= 'z'
  {
    if 'a' <= c <= 'z' { assert SMALL[c as int - 97] == c; }
  }

  lemma DigitsInOrder(c: char)
    ensures c in "0123456789" <==> '0' <= c <= '9'
  {
    if '0' <= c <= '9' { assert "0123456789"[c as int - 48] == c; }
  }

  /** The characters that stay as they are, one by one. */
  lemma PlainExactly(c: char)
    ensures Plain(c) <==> c in CAPITALS || c in SMALL || c in "0123456789" || c in "-_.!~*'()"
  {
    CapitalsInOrder(c);
    SmallInOrder(c);
    DigitsInOrder(c);
    hide CAPITALS, SMALL;
  }

  // ----- UTF-8 -----------------------------------------------------------------------------

  ghost predicate Continues(b: int) {
    0x80 <= b < 0xC0
  }

  /** The bytes spell the code point v as section 3 of RFC 3629 lays it out, in the shortest form. */
  ghost predicate Spelled(bytes: seq<int>, v: int) {
    || (|bytes| == 1 && bytes[0] == v && 0 <= v < 0x80)
    || (|bytes| == 2 && 0xC0 <= bytes[0] < 0xE0 && Continues(bytes[1]) && 0x80 <= v < 0x800
        && v == (bytes[0] - 0xC0) * 64 + (bytes[1] - 0x80))
    || (|bytes| == 3 && 0xE0 <= bytes[0] < 0xF0 && Continues(bytes[1]) && Continues(bytes[2]) && 0x800 <= v < 0x1_0000
        && v == (bytes[0] - 0xE0) * 4096 + (bytes[1] - 0x80) * 64 + (bytes[2] - 0x80))
    || (|bytes| == 4 && 0xF0 <= bytes[0] < 0xF8 && Continues(bytes[1]) && Continues(bytes[2]) && Continues(bytes[3])
        && 0x1_0000 <= v
        && v == (bytes[0] - 0xF0) * 262144 + (bytes[1] - 0x80) * 4096 + (bytes[2] - 0x80) * 64 + (bytes[3] - 0x80))
  }

  lemma Utf8Spells(c: char)
    ensures Spelled(Utf8(c), c as int)
  {
    var v := c as int;
    SixBits(v);
    SixBits(v / 64);
    SixBits(v / 4096);
    Nested(v);
  }

  /** The bytes of a code point are its only spelling. */
  lemma SpelledOnce(xs: seq<int>, ys: seq<int>, v: int)
    requires Spelled(xs, v) && Spelled(ys, v)
    ensures xs == ys
  {
    assert |xs| == |ys|;
    if |xs| == 2 {
      SixtyFour(xs[0], ys[0], xs[1], ys[1]);
    } else if |xs| == 3 {
      SixtyFour((xs[0] - 0xE0) * 64 + xs[1] - 0x80, (ys[0] - 0xE0) * 64 + ys[1] - 0x80, xs[2], ys[2]);
      SixtyFour(xs[0], ys[0], xs[1], ys[1]);
    } else if |xs| == 4 {
      SixtyFour(((xs[0] - 0xF0) * 64 + xs[1] - 0x80) * 64 + xs[2] - 0x80,
                ((ys[0] - 0xF0) * 64 + ys[1] - 0x80) * 64 + ys[2] - 0x80, xs[3], ys[3]);
      SixtyFour((xs[0] - 0xF0) * 64 + xs[1] - 0x80, (ys[0] - 0xF0) * 64 + ys[1] - 0x80, xs[2], ys[2]);
      SixtyFour(xs[0], ys[0], xs[1], ys[1]);
    }
  }

  lemma SixtyFour(x: int, y: int, a: int, b: int)
    requires Continues(a) && Continues(b) && x * 64 + a == y * 64 + b
    ensures x == y && a == b
  {
  }

  /** The bytes of every character, exactly. */
  lemma Utf8Exactly(c: char, bytes: seq<int>)
    ensures bytes == Utf8(c) <==> Spelled(bytes, c as int)
  {
    Utf8Spells(c);
    if Spelled(bytes, c as int) {
      SpelledOnce(bytes, Utf8(c), c as int);
    }
  }

  lemma FromUtf8Exactly(bytes: seq<int>, c: char)
    requires 1 <= |bytes| <= 4 && (forall b | b in bytes :: IsByte(b)) && |bytes| == SequenceLength(bytes[0])
    ensures FromUtf8(bytes) == Some(c) <==> bytes == Utf8(c)
  {
    Utf8RoundTrip(c);
    if FromUtf8(bytes) == Some(c) {
      CameFrom(bytes, c);
      Utf8Exactly(c, bytes);
    }
  }

  lemma CameFrom(bytes: seq<int>, c: char)
    requires 1 <= |bytes| <= 4 && (forall b | b in bytes :: IsByte(b)) && |bytes| == SequenceLength(bytes[0])
    requires FromUtf8(bytes) == Some(c)
    ensures Spelled(bytes, c as int)
  {
    forall i | 0 < i < |bytes| ensures Continues(bytes[i]) {
    }
    assert IsByte(bytes[0]);
  }

  // ----- decoding --------------------------------------------------------------------------

  /** At position p stands a percent sign and the two digits of b, in either case. */
  ghost predicate Triple(s: string, p: nat, b: int) {
    && p + 3 <= |s| && IsByte(b) && s[p] == '%'
    && Digit(s[p + 1], b / 16) && Digit(s[p + 2], b % 16)
  }

  /** The first n triples of s are those of the bytes. */
  ghost predicate Triples(s: string, bytes: seq<int>, n: nat) {
    |bytes| == n && forall i: nat | i < n :: Triple(s, 3 * i, bytes[i])
  }

  /** u is the character itself, unless that is a percent sign, or the escaped bytes of the character. */
  ghost predicate Stands(u: string, c: char) {
    || (u == [c] && c != '%')
    || (|u| == 3 * |Utf8(c)| && Triples(u, Utf8(c), |Utf8(c)|))
  }

  /** s consists of what stands for the characters of t, one after the other. */
  ghost predicate Writes(s: string, t: string)
    decreases |t|
  {
    if t == [] then s == []
    else exists n: nat :: n <= |s| && Stands(s[..n], t[0]) && Writes(s[n..], t[1..])
  }

  lemma UnescapeExactly(s: string, b: int)
    ensures Unescape(s) == Some(b) <==> Triple(s, 0, b)
  {
    hide HexValue, Digit;
    if |s| >= 3 {
      forall c, d ensures HexValue(c) == Some(d) <==> Digit(c, d) {
        HexExactly(c, d);
      }
      if Unescape(s) == Some(b) {
        var x, y := HexValue(s[1]).value, HexValue(s[2]).value;
        assert Digit(s[1], x) && Digit(s[2], y);
        DigitRange(s[1], x);
        DigitRange(s[2], y);
        assert b / 16 == x && b % 16 == y;
      }
      if Triple(s, 0, b) {
        assert HexValue(s[1]) == Some(b / 16) && HexValue(s[2]) == Some(b % 16);
      }
    }
  }

  lemma DigitRange(c: char, d: int)
    requires Digit(c, d)
    ensures 0 <= d < 16
  {
  }

  lemma {:induction false} UnescapesExactly(s: string, n: nat, bytes: seq<int>)
    ensures Unescapes(s, n) == Some(bytes) <==> Triples(s, bytes, n)
    decreases n
  {
    if n > 0 && bytes != [] {
      UnescapeExactly(s, bytes[0]);
      hide Unescape;
      if |s| >= 3 {
        UnescapesExactly(s[3..], n - 1, bytes[1..]);
        TriplesFromFirst(s, bytes, n);
        assert bytes == [bytes[0]] + bytes[1..];
      }
    }
  }

  lemma TriplesFromFirst(s: string, bytes: seq<int>, n: nat)
    requires n > 0 && bytes != [] && |s| >= 3
    ensures Triples(s, bytes, n) <==> Triple(s, 0, bytes[0]) && Triples(s[3..], bytes[1..], n - 1)
  {
    forall i: nat, b ensures Triple(s[3..], 3 * i, b) <==> Triple(s, 3 * (i + 1), b) {
    }
    if Triples(s, bytes, n) {
      assert Triple(s, 3 * 0, bytes[0]);
      forall i: nat | i < n - 1 ensures Triple(s[3..], 3 * i, bytes[1..][i]) {
        assert Triple(s, 3 * (i + 1), bytes[i + 1]);
      }
    }
    if Triple(s, 0, bytes[0]) && Triples(s[3..], bytes[1..], n - 1) {
      forall i: nat | i < n ensures Triple(s, 3 * i, bytes[i]) {
        if i > 0 { assert Triple(s[3..], 3 * (i - 1), bytes[1..][i - 1]); }
      }
    }
  }

  lemma TriplesOfFront(s: string, bytes: seq<int>, n: nat)
    requires 3 * n <= |s|
    ensures Triples(s, bytes, n) <==> Triples(s[..3 * n], bytes, n)
  {
    forall i: nat, b | i < n ensures Triple(s, 3 * i, b) <==> Triple(s[..3 * n], 3 * i, b) {
    }
  }

  lemma TriplesFit(s: string, bytes: seq<int>, n: nat)
    requires Triples(s, bytes, n)
    ensures 3 * n <= |s|
  {
    if n > 0 { assert Triple(s, 3 * (n - 1), bytes[n - 1]); }
  }

  /** Whatever is decoded first stood at the front of the text. */
  lemma {:induction false} DecodedWrites(s: string, t: string)
    requires Decode(s) == Some(t)
    ensures Writes(s, t)
    decreases |s|
  {
    hide Unescape, Unescapes, FromUtf8, Utf8, Triples;
    if s == [] {
    } else if s[0] != '%' {
      DecodedWrites(s[1..], t[1..]);
      assert s[..1] == [t[0]];
      assert Stands(s[..1], t[0]);
    } else {
      var b := Unescape(s).value;
      var n := SequenceLength(b);
      var bytes := Unescapes(s, n).value;
      UnescapesExactly(s, n, bytes);
      TriplesFit(s, bytes, n);
      TriplesOfFront(s, bytes, n);
      TriplesAreBytes(s, bytes, n);
      FromUtf8Exactly(bytes, t[0]);
      assert Stands(s[..3 * n], t[0]);
      DecodedWrites(s[3 * n..], t[1..]);
    }
  }

  lemma TriplesAreBytes(s: string, bytes: seq<int>, n: nat)
    requires Triples(s, bytes, n)
    ensures forall b | b in bytes :: IsByte(b)
  {
    forall b | b in bytes ensures IsByte(b) {
      var i :| 0 <= i < |bytes| && bytes[i] == b;
      assert Triple(s, 3 * i, bytes[i]);
    }
  }

  lemma {:induction false} WrittenDecodes(s: string, t: string)
    requires Writes(s, t)
    ensures Decode(s) == Some(t)
    decreases |t|
  {
    hide Unescape, Unescapes, FromUtf8, Utf8, Triples;
    if t != [] {
      var n: nat :| n <= |s| && Stands(s[..n], t[0]) && Writes(s[n..], t[1..]);
      WrittenDecodes(s[n..], t[1..]);
      assert t == [t[0]] + t[1..];
      if s[..n] == [t[0]] && t[0] != '%' {
        assert n == 1 && s[0] == t[0];
      } else {
        EscapedDecodes(s, t[0], n);
      }
    }
  }

  lemma EscapedDecodes(s: string, c: char, n: nat)
    requires n <= |s| && n == 3 * |Utf8(c)| && Triples(s[..n], Utf8(c), |Utf8(c)|)
    ensures s != [] && Decode(s) == Prepend(c, Decode(s[n..]))
  {
    var bytes := Utf8(c);
    Utf8RoundTrip(c);
    hide Utf8, FromUtf8;
    TriplesOfFront(s, bytes, |bytes|);
    UnescapesExactly(s, |bytes|, bytes);
    assert Triple(s, 3 * 0, bytes[0]);
    UnescapeExactly(s, bytes[0]);
    hide Unescape, Unescapes, Triples;
  }

  /** What decodes to what, exactly: text decodes to t if it consists of what stands for the
      characters of t, and to an error if it stands for no text at all. */
  lemma DecodeExactly(s: string)
    ensures forall t :: Decode(s) == Some(t) <==> Writes(s, t)
    ensures Decode(s) == None <==> forall t :: !Writes(s, t)
  {
    forall t ensures Decode(s) == Some(t) <==> Writes(s, t) {
      if Decode(s) == Some(t) { DecodedWrites(s, t); }
      if Writes(s, t) { WrittenDecodes(s, t); }
    }
  }

  /** Text before the first percent sign, a plus sign included, comes through as it is. */
  lemma {:induction false} DecodeVerbatim(s: string, t: string)
    requires '%' !in s
    ensures Decode(s + t) == if Decode(t) == None then None else Some(s + Decode(t).value)
    ensures Decode(s) == Some(s)
    decreases |s|
  {
    if s == [] {
      assert s + t == t;
      if Decode(t) != None { assert s + Decode(t).value == Decode(t).value; }
    } else {
      assert (s + t)[1..] == s[1..] + t;
      DecodeVerbatim(s[1..], t);
      assert s == [s[0]] + s[1..];
      if Decode(t) != None { assert [s[0]] + (s[1..] + Decode(t).value) == s + Decode(t).value; }
    }
  }

  // ----- encoding --------------------------------------------------------------------------

  lemma {:induction false} EncodeAppend(s: string, t: string)
    ensures Encode(s + t) == Encode(s) + Encode(t)
    decreases |s|
  {
    hide EncodeChar;
    if s == [] {
      assert s + t == t;
    } else {
      assert (s + t)[1..] == s[1..] + t;
      EncodeAppend(s[1..], t);
    }
  }

  /** A character that stays is encoded by itself. */
  lemma EncodeKept(c: char)
    requires Plain(c)
    ensures Encode([c]) == [c]
  {
  }

  /** At position p stand a percent sign and the two digits of b in upper case. */
  ghost predicate UpperTriple(e: string, p: nat, b: int) {
    IsByte(b) && p + 3 <= |e| && e[p] == '%' && e[p + 1] == UPPER[b / 16] && e[p + 2] == UPPER[b % 16]
  }

  /** Any other character becomes its bytes, each a percent sign and two digits in upper case. */
  lemma EncodeEscaped(c: char)
    requires !Plain(c)
    ensures |Encode([c])| == 3 * |Utf8(c)|
    ensures forall i: nat | i < |Utf8(c)| :: UpperTriple(Encode([c]), 3 * i, Utf8(c)[i])
  {
    var bytes := Utf8(c);
    hide Utf8, UpperTriple;
    EscapesAt(bytes);
    assert Encode([c]) == Escapes(bytes);
  }

  lemma {:induction false} EscapesAt(bytes: seq<int>)
    requires forall b | b in bytes :: IsByte(b)
    ensures |Escapes(bytes)| == 3 * |bytes|
    ensures forall i: nat | i < |bytes| :: UpperTriple(Escapes(bytes), 3 * i, bytes[i])
  {
    if bytes != [] {
      assert IsByte(bytes[0]);
      UpperDigits(bytes[0] / 16);
      UpperDigits(bytes[0] % 16);
      EscapesAt(bytes[1..]);
      var e, rest := Escapes(bytes), Escapes(bytes[1..]);
      assert e == Escape(bytes[0]) + rest;
      forall i: nat | i < |bytes| ensures UpperTriple(e, 3 * i, bytes[i]) {
        if i > 0 { assert UpperTriple(rest, 3 * (i - 1), bytes[1..][i - 1]); }
      }
    }
  }
}
