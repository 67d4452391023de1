/** Encoded maps described from outside: which source pixel the decoded bytes of an output pixel
    belong to, and what depth, label and colour are in terms of it. */
module MapLaws {
  import opened Common
  import opened Base64
  import opened SensorMaps

  // ----- base64 ------------------------------------------------------------------------------

  /** Two of the test vectors in section 10 of RFC 4648, and the two letters outside the alphanumeric ones. */
  lemma Vectors()
    ensures Encode([102, 111, 111]) == "Zm9v"
    ensures Encode([102, 111, 111, 98, 97, 114]) == "Zm9v" + "YmFy"
    ensures Encode([255, 255, 191]) == "//+/"
  {
    VectorQuads();
    hide Quad;
    var all: seq<Byte> := [102, 111, 111, 98, 97, 114];
    OneQuad(102, 111, 111);
    OneQuad(98, 97, 114);
    OneQuad(255, 255, 191);
    EncodeAppend([102, 111, 111], 98, 97, 114);
    assert [102, 111, 111] + [98, 97, 114] == all;
  }

  lemma VectorQuads()
    ensures Quad(102, 111, 111) == "Zm9v" && Quad(98, 97, 114) == "YmFy" && Quad(255, 255, 191) == "//+/"
  {
    hide Letter;
    LetterIs(25, 'Z');
    LetterIs(38, 'm');
    LetterIs(61, '9');
    LetterIs(47, 'v');
    LetterIs(24, 'Y');
    LetterIs(5, 'F');
    LetterIs(50, 'y');
    LetterIs(63, '/');
    LetterIs(62, '+');
  }

  lemma LetterIs(k: nat, c: char)
    requires k < 64 && CharValue(c) == k
    ensures Letter(k) == c
  {
    hide Letter;
  }

  lemma OneQuad(d1: Byte, d2: Byte, d3: Byte)
    ensures Encode([d1, d2, d3]) == Quad(d1, d2, d3)
  {
    var bs := [d1, d2, d3];
    assert bs[3..] == [];
    hide Quad;
  }

  /** The four characters from position p on carry the three bytes, the first byte highest. */
  ghost predicate GroupAt(e: seq<char>, p: nat, d1: int, d2: int, d3: int) {
    && p + 4 <= |e|
    && CharValue(e[p]) < 64 && CharValue(e[p + 1]) < 64 && CharValue(e[p + 2]) < 64 && CharValue(e[p + 3]) < 64
    && CharValue(e[p]) * 262144 + CharValue(e[p + 1]) * 4096 + CharValue(e[p + 2]) * 64 + CharValue(e[p + 3])
       == d1 * 65536 + d2 * 256 + d3
  }

  /** Each group of three bytes is in the four characters at its place. */
  lemma {:induction false} EncodeAt(bs: seq<Byte>, k: nat)
    requires |bs| % 3 == 0 && 3 * k + 2 < |bs|
    ensures GroupAt(Encode(bs), 4 * k, bs[3 * k], bs[3 * k + 1], bs[3 * k + 2])
    decreases k
  {
    hide CharValue, Quad;
    var q, rest := Quad(bs[0], bs[1], bs[2]), Encode(bs[3..]);
    assert Encode(bs) == q + rest;
    if k == 0 {
      QuadValue(bs[0], bs[1], bs[2]);
    } else {
      EncodeAt(bs[3..], k - 1);
      GroupFurther(q, rest, 4 * (k - 1), bs[3 * k], bs[3 * k + 1], bs[3 * k + 2]);
    }
  }

  lemma GroupFurther(q: seq<char>, rest: seq<char>, p: nat, d1: int, d2: int, d3: int)
    requires |q| == 4 && GroupAt(rest, p, d1, d2, d3)
    ensures GroupAt(q + rest, p + 4, d1, d2, d3)
  {
    hide CharValue;
    var e := q + rest;
    assert e[p + 4] == rest[p] && e[p + 5] == rest[p + 1] && e[p + 6] == rest[p + 2] && e[p + 7] == rest[p + 3];
  }

  lemma QuadValue(d1: Byte, d2: Byte, d3: Byte)
    ensures GroupAt(Quad(d1, d2, d3), 0, d1, d2, d3)
  {
    hide Letter, CharValue;
  }

  // ----- words ---------------------------------------------------------------------------------

  /** Two bytes, the low one first, rebuild each word. */
  lemma {:induction false} BytesAt(ws: seq<Word>, k: nat)
    requires k < |ws|
    ensures Bytes(ws)[2 * k] as int + 256 * (Bytes(ws)[2 * k + 1] as int) == ws[k]
    decreases |ws|
  {
    var front := ws[..|ws| - 1];
    if k < |front| {
      BytesAt(front, k);
    }
  }

  /** The place of pixel x, y in the output is y rows of pixels and x more. */
  lemma {:induction false} SampledAt(data: seq<Word>, s: Scale, f: Word -> Word, rows: nat, x: nat, y: nat)
    requires s.Fits(|data|) && rows <= s.height && x < s.width && y < rows
    ensures y * s.width + x < |Sampled(data, s, f, rows)|
    ensures 0 <= y * s.yRatio * s.stride + x * s.xRatio < |data|
    ensures Sampled(data, s, f, rows)[y * s.width + x] == f(data[y * s.yRatio * s.stride + x * s.xRatio])
    decreases rows
  {
    assert s.At(x, y) < |data|;
    MultiplyMonotone(y + 1, rows, s.width);
    StepScaled(y, 1, s.width);
    if y < rows - 1 {
      SampledAt(data, s, f, rows - 1, x, y);
    } else {
      StepScaled(rows - 1, 1, s.width);
      assert |Sampled(data, s, f, rows - 1)| == y * s.width;
    }
  }

  lemma WordOf(out: seq<char>, ws: seq<Word>, bs: seq<Byte>, k: int)
    requires Carries(out, Bytes(ws)) && Decode(out) == Some(bs) && 0 <= k < |ws|
    ensures |bs| == 2 * |ws| && bs[2 * k] as int + 256 * (bs[2 * k + 1] as int) == ws[k]
  {
    hide Decode, Encode, Bytes;
    BytesAt(ws, k);
  }

  /** A map that carries the samples decodes to two bytes a pixel, which rebuild what f takes from
      the source pixel x steps to the right in the row y steps down. */
  lemma PixelOfMap(out: seq<char>, data: seq<Word>, s: Scale, f: Word -> Word, x: nat, y: nat, bs: seq<Byte>, k: int, p: int)
    requires s.Fits(|data|) && x < s.width && y < s.height
    requires Carries(out, Bytes(Sampled(data, s, f, s.height))) && Decode(out) == Some(bs)
    requires k == y * s.width + x && p == y * s.yRatio * s.stride + x * s.xRatio
    ensures |bs| == 2 * (s.height * s.width) && 0 <= 2 * k && 2 * k + 1 < |bs| && 0 <= p < |data|
    ensures bs[2 * k] as int + 256 * (bs[2 * k + 1] as int) == f(data[p])
  {
    hide *;
    SampledAt(data, s, f, s.height, x, y);
    WordOf(out, Sampled(data, s, f, s.height), bs, k);
  }

  // ----- depth and label ---------------------------------------------------------------------------

  /** The upper thirteen bits are the depth. */
  lemma DepthExactly(w: Word, d: int)
    ensures d == DepthOf(w) <==> 8 * d <= w < 8 * d + 8
  {
  }

  /** The lower three bits choose the label: none for 0 and 7, and else the tracking id of one of
      the six users, cut to sixteen bits. */
  lemma LabelExactly(tracking: seq<nat>, w: Word)
    requires |tracking| == 6
    ensures w % 8 == 0 || w % 8 == 7 ==> LabelOf(UserIds(tracking))(w) == 0
    ensures 1 <= w % 8 <= 6 ==> LabelOf(UserIds(tracking))(w) == tracking[w % 8 - 1] % 65536
  {
  }

  // ----- colours -----------------------------------------------------------------------------------

  lemma {:induction false} ColoursAt(data: seq<Byte>, s: Scale, rows: nat, x: nat, y: nat, c: nat)
    requires s.Fits(|data| - 2) && rows <= s.height && x < s.width && y < rows && c < 3
    ensures 3 * (y * s.width + x) + c < |Colours(data, s, rows)|
    ensures 0 <= y * s.yRatio * s.stride + x * s.xRatio + c < |data|
    ensures Colours(data, s, rows)[3 * (y * s.width + x) + c] == data[y * s.yRatio * s.stride + x * s.xRatio + c]
    decreases rows
  {
    assert s.At(x, y) < |data| - 2;
    MultiplyMonotone(y + 1, rows, s.width);
    StepScaled(y, 1, s.width);
    if y < rows - 1 {
      ColoursAt(data, s, rows - 1, x, y, c);
    } else {
      StepScaled(rows - 1, 1, s.width);
      assert |Colours(data, s, rows - 1)| == 3 * (y * s.width);
      ColourRowAt(data, s, y, x, c);
    }
  }

  lemma ColourRowAt(data: seq<Byte>, s: Scale, y: nat, x: nat, c: nat)
    requires s.Fits(|data| - 2) && y < s.height && x < s.width && c < 3
    ensures s.At(x, y) + c < |data| && ColourRow(data, s, y, s.width)[3 * x + c] == data[s.At(x, y) + c]
  {
    assert (3 * x + c) / 3 == x && (3 * x + c) % 3 == c;
    assert s.At(x, y) < |data| - 2;
  }

  /** An image that carries the colours decodes to three bytes a pixel, those of the source pixel
      x steps to the right in the row y steps down. */
  lemma PixelOfImage(out: seq<char>, data: seq<Byte>, s: Scale, x: nat, y: nat, c: nat, bs: seq<Byte>, k: int, p: int)
    requires s.Fits(|data| - 2) && x < s.width && y < s.height && c < 3
    requires Carries(out, Colours(data, s, s.height)) && Decode(out) == Some(bs)
    requires k == y * s.width + x && p == y * s.yRatio * s.stride + x * s.xRatio
    ensures |bs| == 3 * (s.height * s.width) && 0 <= 3 * k && 3 * k + c < |bs| && 0 <= p + c < |data|
    ensures bs[3 * k + c] == data[p + c]
  {
    hide Decode, Encode, Colours, Scale.Fits;
    ColoursAt(data, s, s.height, x, y, c);
  }
}
