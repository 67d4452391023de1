/** The Base 64 encoding of section 4 of RFC 4648, for input in whole groups of three bytes. */
module Base64 {
  import opened Common

  type Byte = b: int | 0 <= b < 256

  /** The string constant of the program, in three pieces. */
  const UPPER := "ABCDEFGHIJKLMNOPQRSTUVWXYZ"
  const LOWER := "abcdefghijklmnopqrstuvwxyz"
  const OTHERS := "0123456789+/="

  // ----- decoding, as the standard defines it -----------------------------------

  /** Table 1 of RFC 4648: the value of an alphabet character, 64 for any other. */
  function CharValue(c: char): (v: nat)
    ensures v <= 64
  {
    if 'A' <= c <= 'Z' then c as int - 65
    else if 'a' <= c <= 'z' then c as int - 71
    else if '0' <= c <= '9' then c as int + 4
    else if c == '+' then 62
    else if c == '/' then 63
    else 64
  }

  /** Four characters stand for a 24-bit group, most significant first. */
  function Group(s: seq<char>): nat
    requires |s| == 4
  {
    ((CharValue(s[0]) * 64 + CharValue(s[1])) * 64 + CharValue(s[2])) * 64 + CharValue(s[3])
  }

  function GroupBytes(v: nat): (bs: seq<Byte>)
    requires v < 0x100_0000
  {
    [v / 0x1_0000, v / 0x100 % 0x100, v % 0x100]
  }

  predicate InAlphabet(s: seq<char>) {
    forall i | 0 <= i < |s| :: CharValue(s[i]) < 64
  }

  /** Whole groups of alphabet characters decode; anything else does not. */
  function Decode(s: seq<char>): Option<seq<Byte>> {
    if s == [] then Some([])
    else if |s| < 4 || !InAlphabet(s[..4]) then None
    else match Decode(s[4..])
      case None => None
      case Some(rest) => Some(GroupBytes(Group(s[..4])) + rest)
  }

  // ----- encoding ------------------------------------------------------------------

  /** Indexing the string constant of the program inverts Table 1. */
  function Letter(k: nat): (c: char)
    requires k < 64
    ensures CharValue(c) == k
  {
    if k < 26 then Upper(k) else if k < 52 then Lower(k - 26) else Other(k - 52)
  }

  function Upper(k: nat): (c: char)
    requires k < 26
    ensures CharValue(c) == k
  {
    UPPER[k]
  }

  function Lower(k: nat): (c: char)
    requires k < 26
    ensures CharValue(c) == 26 + k
  {
    LOWER[k]
  }

  function Other(k: nat): (c: char)
    requires k < 12
    ensures CharValue(c) == 52 + k
  {
    OTHERS[k]
  }

  /** The four characters of a triplet, with the six-bit groups in arithmetic. */
  function Quad(d1: Byte, d2: Byte, d3: Byte): (q: seq<char>)
    ensures |q| == 4
  {
    [Letter(d1 / 4), Letter(d1 % 4 * 16 + d2 / 16), Letter(d2 % 16 * 4 + d3 / 64), Letter(d3 % 64)]
  }

  /** The index expressions of the program, on unsigned bytes: they pick the six-bit groups. */
  function Indices(d1: Byte, d2: Byte, d3: Byte): (k: seq<int>)
    ensures k == [d1 / 4, d1 % 4 * 16 + d2 / 16, d2 % 16 * 4 + d3 / 64, d3 % 64]
  {
    BitFields(d1, d2, d3);
    BitIndices(d1 as bv8, d2 as bv8, d3 as bv8)
  }

  function BitIndices(d1: bv8, d2: bv8, d3: bv8): seq<int> {
    [(d1 >> 2) as int, (((d1 & 0x03) << 4) | (d2 >> 4)) as int,
     (((d2 & 0x0f) << 2) | (d3 >> 6)) as int, (d3 & 0x3f) as int]
  }

  /** Shifts, masks and ors are division, remainder and addition. */
  lemma BitFields(d1: Byte, d2: Byte, d3: Byte)
    ensures BitIndices(d1 as bv8, d2 as bv8, d3 as bv8)
         == [d1 / 4, d1 % 4 * 16 + d2 / 16, d2 % 16 * 4 + d3 / 64, d3 % 64]
  {
    hide BitIndices;
    var b1 := ByteBits(d1);
    var b2 := ByteBits(d2);
    var b3 := ByteBits(d3);
    FieldsOf(b1, b2, b3);
  }

  lemma FieldsOf(a: bv8, b: bv8, c: bv8)
    ensures BitIndices(a, b, c) == [a as int / 4, a as int % 4 * 16 + b as int / 16, b as int % 16 * 4 + c as int / 64,
                                    c as int % 64]
  {
    OuterFields(a, c);
    SecondField(a, b);
    ThirdField(b, c);
  }

  lemma OuterFields(a: bv8, c: bv8)
    ensures (a >> 2) as int == a as int / 4
    ensures (c & 0x3f) as int == c as int % 64
  {
  }

  lemma SecondField(a: bv8, b: bv8)
    ensures (((a & 0x03) << 4) | (b >> 4)) as int == a as int % 4 * 16 + b as int / 16
  {
    LowTwo(a);
    HighFour(b);
    ShiftFour(a & 0x03);
    JoinFour((a & 0x03) << 4, b >> 4);
  }

  lemma ThirdField(b: bv8, c: bv8)
    ensures (((b & 0x0f) << 2) | (c >> 6)) as int == b as int % 16 * 4 + c as int / 64
  {
    LowFour(b);
    HighTwo(c);
    ShiftTwo(b & 0x0f);
    JoinTwo((b & 0x0f) << 2, c >> 6);
  }

  lemma LowTwo(a: bv8)
    ensures (a & 0x03) as int == a as int % 4
  {
  }

  lemma LowFour(a: bv8)
    ensures (a & 0x0f) as int == a as int % 16
  {
  }

  lemma HighFour(a: bv8)
    ensures (a >> 4) as int == a as int / 16
  {
  }

  lemma HighTwo(a: bv8)
    ensures (a >> 6) as int == a as int / 64
  {
  }

  lemma ShiftFour(a: bv8)
    requires a < 4
    ensures (a << 4) as int == a as int * 16
  {
  }

  lemma ShiftTwo(a: bv8)
    requires a < 16
    ensures (a << 2) as int == a as int * 4
  {
  }

  /** Disjoint bit fields add up. */
  lemma JoinFour(x: bv8, y: bv8)
    requires x & 0x0f == 0 && y < 16
    ensures (x | y) as int == x as int + y as int
  {
  }

  lemma JoinTwo(x: bv8, y: bv8)
    requires x & 0x03 == 0 && y < 4
    ensures (x | y) as int == x as int + y as int
  {
  }

  lemma {:induction false} ByteBits(b: Byte) returns (x: bv8)
    ensures x == b as bv8 && x as int == b
  {
    if b == 0 {
      x := 0;
    } else {
      x := ByteBits(b - 1);
      NextByte(x);
      x := x + 1;
    }
    SameBits(b, x);
  }

  lemma NextByte(x: bv8)
    requires x as int < 255
    ensures (x + 1) as int == x as int + 1
  {
  }

  lemma SameBits(b: Byte, x: bv8)
    requires x as int == b
    ensures b as bv8 == x
  {
  }

  lemma QuadDecodes(d1: Byte, d2: Byte, d3: Byte)
    ensures InAlphabet(Quad(d1, d2, d3))
    ensures GroupBytes(Group(Quad(d1, d2, d3))) == [d1, d2, d3]
  {
    hide Letter, CharValue;
    GroupValue(d1, d2, d3);
    GroupSplit(d1, d2, d3);
  }

  lemma GroupValue(d1: Byte, d2: Byte, d3: Byte)
    ensures Group(Quad(d1, d2, d3)) == d1 * 0x1_0000 + d2 * 0x100 + d3
  {
    hide Letter, CharValue;
  }

  lemma GroupSplit(d1: Byte, d2: Byte, d3: Byte)
    ensures GroupBytes(d1 * 0x1_0000 + d2 * 0x100 + d3) == [d1, d2, d3]
  {
    var v := d1 * 0x1_0000 + d2 * 0x100 + d3;
    assert v / 0x1_0000 == d1;
    assert v / 0x100 == d1 * 0x100 + d2;
    assert (d1 * 0x100 + d2) % 0x100 == d2;
    assert v % 0x100 == d3;
  }

  function Encode(bs: seq<Byte>): (s: seq<char>)
    requires |bs| % 3 == 0
    ensures |s| == |bs| / 3 * 4
  {
    if bs == [] then [] else Quad(bs[0], bs[1], bs[2]) + Encode(bs[3..])
  }

  lemma DecodeGroup(d1: Byte, d2: Byte, d3: Byte, rest: seq<char>)
    requires Decode(rest).Some?
    ensures Decode(Quad(d1, d2, d3) + rest) == Some([d1, d2, d3] + Decode(rest).value)
  {
    var s := Quad(d1, d2, d3) + rest;
    QuadDecodes(d1, d2, d3);
    assert s[..4] == Quad(d1, d2, d3) && s[4..] == rest;
  }

  lemma {:induction false} DecodeEncode(bs: seq<Byte>)
    requires |bs| % 3 == 0
    ensures Decode(Encode(bs)) == Some(bs)
    decreases |bs|
  {
    if bs != [] {
      DecodeEncode(bs[3..]);
      DecodeGroup(bs[0], bs[1], bs[2], Encode(bs[3..]));
      assert bs == [bs[0], bs[1], bs[2]] + bs[3..];
    }
  }

  lemma {:induction false} EncodeConcat(bs: seq<Byte>, more: seq<Byte>)
    requires |bs| % 3 == 0 && |more| % 3 == 0
    ensures Encode(bs + more) == Encode(bs) + Encode(more)
    decreases |bs|
  {
    if bs == [] {
      assert bs + more == more;
    } else {
      assert (bs + more)[3..] == bs[3..] + more;
      EncodeConcat(bs[3..], more);
    }
  }

  lemma EncodeAppend(bs: seq<Byte>, d1: Byte, d2: Byte, d3: Byte)
    requires |bs| % 3 == 0
    ensures Encode(bs + [d1, d2, d3]) == Encode(bs) + Quad(d1, d2, d3)
  {
    EncodeConcat(bs, [d1, d2, d3]);
    assert [d1, d2, d3][3..] == [];
    assert Encode([d1, d2, d3]) == Quad(d1, d2, d3);
  }

  /** Writes one triplet at a position of an output buffer, by shifts, masks and ors; written is
      the record of the positions written so far. */
  method EncodeTriplet(out: array<char>, pos: nat, d1: Byte, d2: Byte, d3: Byte, ghost written: seq<nat>)
    returns (ghost written': seq<nat>)
    requires pos + 4 <= out.Length
    modifies out
    ensures out[..] == old(out[..pos]) + Quad(d1, d2, d3) + old(out[pos + 4..])
    ensures written' == written + [pos, pos + 1, pos + 2, pos + 3]
  {
    hide Indices, Letter;
    var k := Indices(d1, d2, d3);
    out[pos] := Letter(k[0]);
    out[pos + 1] := Letter(k[1]);
    out[pos + 2] := Letter(k[2]);
    out[pos + 3] := Letter(k[3]);
    written' := written + [pos, pos + 1, pos + 2, pos + 3];
  }
}
