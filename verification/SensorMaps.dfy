/** Downscaling a sensor map and streaming it into a base64 buffer, one pixel at a time.
    A 16-bit pixel is two bytes, so triplets straddle pixels and rows; up to two bytes are
    carried from one pixel to the next. */
module SensorMaps {
  import opened Common
  import opened Base64

  type Word = w: int | 0 <= w < 65536

  // ----- what a map should contain -----------------------------------------------

  /** How a map is read: row stride and steps in the source, width and height of the output. */
  datatype Scale = Scale(stride: nat, xRatio: nat, yRatio: nat, width: nat, height: nat) {

    /** Index in the source of output pixel x, y. */
    function At(x: nat, y: nat): nat {
      y * yRatio * stride + x * xRatio
    }

    ghost predicate Fits(size: int) {
      forall x, y | 0 <= x < width && 0 <= y < height :: At(x, y) < size
    }
  }

  /** The ratios are integer quotients, so every read stays inside a source of the stated
      resolution, whatever the resolution is. */
  lemma RatiosFit(resX: nat, resY: nat, width: nat, height: nat)
    requires resX > 0 && resY > 0 && width > 0 && height > 0
    ensures Scale(resX, resX / width, resY / height, width, height).Fits(resX * resY)
  {
    var s := Scale(resX, resX / width, resY / height, width, height);
    forall x, y | 0 <= x < width && 0 <= y < height ensures s.At(x, y) < resX * resY {
      Quotient(resX, width, x);
      Quotient(resY, height, y);
      var row := y * s.yRatio;
      assert row * resX <= (resY - 1) * resX;
    }
  }

  lemma Quotient(n: nat, d: nat, k: nat)
    requires n > 0 && k < d
    ensures k * (n / d) < n
  {
  }

  lemma MultiplyMonotone(a: nat, b: nat, q: nat)
    requires a <= b
    ensures a * q <= b * q
  {
  }

  /** The first n pixels of output row y. */
  function SampledRow(data: seq<Word>, s: Scale, f: Word -> Word, y: nat, n: nat): (ws: seq<Word>)
    requires s.Fits(|data|) && y < s.height && n <= s.width
    ensures |ws| == n
  {
    seq(n, x requires 0 <= x < n => f(data[s.At(x, y)]))
  }

  /** The first rows output rows, one after the other. */
  function Sampled(data: seq<Word>, s: Scale, f: Word -> Word, rows: nat): (ws: seq<Word>)
    requires s.Fits(|data|) && rows <= s.height
    ensures |ws| == rows * s.width
  {
    if rows == 0 then []
    else Sampled(data, s, f, rows - 1) + SampledRow(data, s, f, rows - 1, s.width)
  }

  function Low(w: Word): Byte {
    w % 256
  }

  function High(w: Word): Byte {
    w / 256
  }

  /** Little-endian bytes of a sequence of words. */
  function Bytes(ws: seq<Word>): (bs: seq<Byte>)
    ensures |bs| == 2 * |ws|
  {
    if ws == [] then [] else Bytes(ws[..|ws| - 1]) + [Low(ws[|ws| - 1]), High(ws[|ws| - 1])]
  }

  // ----- the three-state encoder ----------------------------------------------------

  /** The bytes carried after n pixels: none, two or one. */
  function Carried(n: nat, b1: Byte, b2: Byte): (carry: seq<Byte>) {
    if n % 3 == 0 then [] else if n % 3 == 1 then [b1, b2] else [b1]
  }

  /** The locals of the loop: write index, pixel count and the two carried bytes. */
  datatype Cursor = Cursor(index: nat, state: nat, b1: Byte, b2: Byte)

  /** The positions 0 to n - 1, each once and in order. */
  function Upto(n: nat): seq<nat> {
    seq(n, i requires 0 <= i < n => i)
  }

  lemma UptoTriplet(n: nat)
    ensures Upto(n) + [n, n + 1, n + 2, n + 3] == Upto(n + 4)
  {
  }

  /** What a buffer has received: the bytes of the triplets in it, and the positions written. */
  datatype Trail = Trail(head: seq<Byte>, written: seq<nat>)

  lemma StateAfter(n: nat)
    ensures (n + 1) % 3 == if n % 3 == 0 then 1 else if n % 3 == 1 then 2 else 0
  {
  }

  /** The stream after the words ws: their bytes are the triplets already in the buffer
      followed by the carried bytes, and every position up to the index was written once. */
  ghost predicate Streaming(out: seq<char>, ws: seq<Word>, c: Cursor, t: Trail) {
    && c.state == |ws|
    && |t.head| % 3 == 0
    && Bytes(ws) == t.head + Carried(c.state, c.b1, c.b2)
    && c.index == |t.head| / 3 * 4 <= |out|
    && out[..c.index] == Encode(t.head)
    && t.written == Upto(c.index)
  }

  lemma BytesAppend(ws: seq<Word>, w: Word)
    ensures Bytes(ws + [w]) == Bytes(ws) + [Low(w), High(w)]
  {
  }

  /** The bytes of one more pixel complete a triplet d, or none, and leave a new carry. */
  lemma BytesMove(ws: seq<Word>, w: Word, head: seq<Byte>, pending: seq<Byte>, d: seq<Byte>, carry: seq<Byte>)
    requires Bytes(ws) == head + pending && pending + [Low(w), High(w)] == d + carry
    ensures Bytes(ws + [w]) == head + d + carry
  {
    BytesAppend(ws, w);
    assert head + pending + [Low(w), High(w)] == head + (pending + [Low(w), High(w)]);
    assert head + (d + carry) == head + d + carry;
  }

  /** The switch on the pixel count: keep the first pixel, join it with the low byte of the
      second, and join the high byte of the second with the third. */
  method PushWord(out: array<char>, c: Cursor, w: Word, ghost ws: seq<Word>, ghost t: Trail)
    returns (c': Cursor, ghost t': Trail)
    requires Streaming(out[..], ws, c, t)
    requires c.state % 3 != 0 ==> c.index + 4 <= out.Length
    modifies out
    ensures Streaming(out[..], ws + [w], c', t')
    ensures c'.index == if c.state % 3 == 0 then c.index else c.index + 4
  {
    hide Bytes, Encode, Low, High;
    var lo: Byte, hi: Byte := Low(w), High(w);
    ghost var head := t.head;
    StateAfter(c.state);
    if c.state % 3 == 0 {
      BytesMove(ws, w, head, [], [], [lo, hi]);
      t' := t;
      assert head + [] == head;
      c' := Cursor(c.index, c.state + 1, lo, hi);
    } else if c.state % 3 == 1 {
      BytesMove(ws, w, head, [c.b1, c.b2], [c.b1, c.b2, lo], [hi]);
      t' := Emit(out, c.index, t, c.b1, c.b2, lo);
      c' := Cursor(c.index + 4, c.state + 1, hi, c.b2);
    } else {
      BytesMove(ws, w, head, [c.b1], [c.b1, lo, hi], []);
      t' := Emit(out, c.index, t, c.b1, lo, hi);
      c' := Cursor(c.index + 4, c.state + 1, c.b1, c.b2);
    }
  }

  /** Writes a triplet at the index, extending the encoded prefix of the buffer. */
  method Emit(out: array<char>, index: nat, ghost t: Trail, d1: Byte, d2: Byte, d3: Byte) returns (ghost t': Trail)
    requires |t.head| % 3 == 0 && index == |t.head| / 3 * 4 && index + 4 <= out.Length
    requires out[..][..index] == Encode(t.head) && t.written == Upto(index)
    modifies out
    ensures t'.head == t.head + [d1, d2, d3] && |t'.head| % 3 == 0 && index + 4 == |t'.head| / 3 * 4
    ensures out[..][..index + 4] == Encode(t'.head) && t'.written == Upto(index + 4)
  {
    ghost var written := EncodeTriplet(out, index, d1, d2, d3, t.written);
    EncodeAppend(t.head, d1, d2, d3);
    UptoTriplet(index);
    t' := Trail(t.head + [d1, d2, d3], written);
  }

  /** A triplet still fits whenever one is due. */
  lemma RoomForTriplet(out: seq<char>, ws: seq<Word>, c: Cursor, t: Trail, total: nat)
    requires Streaming(out, ws, c, t) && |ws| < total && total % 3 == 0
    ensures c.state % 3 != 0 ==> c.index + 4 <= total * 2 * 4 / 3
  {
    assert |Bytes(ws)| == |t.head| + |Carried(|ws|, c.b1, c.b2)|;
  }

  /** The buffer is the encoding of these bytes, and decodes to them. */
  ghost predicate Carries(out: seq<char>, bs: seq<Byte>) {
    |bs| % 3 == 0 && out == Encode(bs) && Decode(out) == Some(bs)
  }

  lemma StreamComplete(out: seq<char>, ws: seq<Word>, c: Cursor, t: Trail)
    requires Streaming(out, ws, c, t) && |ws| % 3 == 0 && |out| == |ws| * 2 * 4 / 3
    ensures c.index == |out| && Carries(out, Bytes(ws)) && t.written == Upto(|out|)
  {
    assert t.head == Bytes(ws);
    assert out[..c.index] == out;
    DecodeEncode(t.head);
  }

  lemma PixelCount(s: Scale, x: nat, y: nat)
    requires x < s.width && y < s.height
    ensures y * s.width + x < s.height * s.width
    ensures s.At(x + 1, y) == s.At(x, y) + s.xRatio
  {
    MultiplyMonotone(y + 1, s.height, s.width);
  }

  lemma SampledRowStep(data: seq<Word>, s: Scale, f: Word -> Word, y: nat, x: nat, p: nat)
    requires s.Fits(|data|) && y < s.height && x < s.width && p == s.At(x, y)
    ensures p < |data| && SampledRow(data, s, f, y, x + 1) == SampledRow(data, s, f, y, x) + [f(data[p])]
  {
  }

  ghost predicate BufferFor(out: array<char>, s: Scale) {
    s.height * s.width % 3 == 0 && out.Length == s.height * s.width * 2 * 4 / 3
  }

  // ----- the loops ------------------------------------------------------------------------

  /** One row: the read position moves right by the horizontal ratio. */
  method EncodeRow(data: seq<Word>, s: Scale, f: Word -> Word, out: array<char>, y: nat,
                   c: Cursor, ghost t: Trail)
    returns (c': Cursor, ghost t': Trail)
    requires s.Fits(|data|) && y < s.height && BufferFor(out, s)
    requires Streaming(out[..], Sampled(data, s, f, y), c, t)
    modifies out
    ensures Streaming(out[..], Sampled(data, s, f, y + 1), c', t')
  {
    c', t' := c, t;
    var p := y * s.yRatio * s.stride;
    var x := 0;
    ghost var above := Sampled(data, s, f, y);
    ghost var ws := above;
    while x < s.width
      invariant 0 <= x <= s.width && p == s.At(x, y)
      invariant ws == above + SampledRow(data, s, f, y, x)
      invariant Streaming(out[..], ws, c', t')
    {
      PixelCount(s, x, y);
      RoomForTriplet(out[..], ws, c', t', s.height * s.width);
      SampledRowStep(data, s, f, y, x, p);
      c', t' := PushWord(out, c', f(data[p]), ws, t');
      ws := ws + [f(data[p])];
      x := x + 1;
      p := p + s.xRatio;
    }
  }

  /** The row and column loops around the encoder. Decoding the buffer gives back the
      little-endian bytes of every sampled pixel in row order, and the write index ends at
      the end of the buffer, every position of which was written once. f is what is taken from a pixel: the identity for the OpenNI
      depth and label maps, the depth or the user label for Kinect. */
  method EncodeMap(data: seq<Word>, s: Scale, f: Word -> Word, out: array<char>)
    returns (index: nat, ghost written: seq<nat>)
    requires s.Fits(|data|) && BufferFor(out, s)
    modifies out
    ensures index == out.Length
    ensures Carries(out[..], Bytes(Sampled(data, s, f, s.height)))
    ensures written == Upto(out.Length)
  {
    var c := Cursor(0, 0, 0, 0);
    ghost var t := Trail([], []);
    var y := 0;
    while y < s.height
      invariant 0 <= y <= s.height
      invariant Streaming(out[..], Sampled(data, s, f, y), c, t)
    {
      c, t := EncodeRow(data, s, f, out, y, c, t);
      y := y + 1;
    }
    StreamComplete(out[..], Sampled(data, s, f, y), c, t);
    index, written := c.index, t.written;
  }

  // ----- Kinect: depth and user label packed in one word ------------------------------------

  /** The table from the low three bits of a pixel to a tracking id, cut to 16 bits. */
  function UserIds(tracking: seq<nat>): (ids: seq<Word>)
    requires |tracking| == 6
    ensures |ids| == 8 && ids[0] == 0 && ids[7] == 0
  {
    [0] + seq(6, i requires 0 <= i < 6 => tracking[i] % 65536) + [0]
  }

  function DepthOf(w: Word): Word {
    w / 8
  }

  function LabelOf(ids: seq<Word>): (f: Word -> Word)
    requires |ids| == 8
  {
    w => ids[w % 8]
  }

  /** Both streams after the depth words dws and the label words lws, in lock step. */
  ghost predicate StreamingBoth(depth: seq<char>, labels: seq<char>, dws: seq<Word>, lws: seq<Word>,
                                d: Cursor, l: Cursor, dt: Trail, lt: Trail) {
    && d.index == l.index && d.state == l.state
    && Streaming(depth, dws, d, dt) && Streaming(labels, lws, l, lt)
  }

  /** Sampled pixels of the rows above y and of the first x columns of row y. */
  ghost function SoFar(data: seq<Word>, s: Scale, f: Word -> Word, y: nat, x: nat): seq<Word>
    requires s.Fits(|data|) && y < s.height && x <= s.width
  {
    Sampled(data, s, f, y) + SampledRow(data, s, f, y, x)
  }

  lemma SoFarStep(data: seq<Word>, s: Scale, f: Word -> Word, y: nat, x: nat, p: nat)
    requires s.Fits(|data|) && y < s.height && x < s.width && p == s.At(x, y)
    ensures p < |data| && SoFar(data, s, f, y, x + 1) == SoFar(data, s, f, y, x) + [f(data[p])]
  {
  }

  lemma SoFarRow(data: seq<Word>, s: Scale, f: Word -> Word, y: nat)
    requires s.Fits(|data|) && y < s.height
    ensures SoFar(data, s, f, y, 0) == Sampled(data, s, f, y)
    ensures SoFar(data, s, f, y, s.width) == Sampled(data, s, f, y + 1)
  {
  }

  /** One pixel of the loop that fills both buffers. */
  method PushBoth(data: seq<Word>, s: Scale, f: Word -> Word, g: Word -> Word,
                  depth: array<char>, labels: array<char>, ghost y: nat, ghost x: nat, p: nat,
                  d: Cursor, l: Cursor, ghost dt: Trail, ghost lt: Trail)
    returns (d': Cursor, l': Cursor, ghost dt': Trail, ghost lt': Trail)
    requires depth != labels && s.Fits(|data|) && BufferFor(depth, s) && BufferFor(labels, s)
    requires y < s.height && x < s.width && p == s.At(x, y)
    requires StreamingBoth(depth[..], labels[..], SoFar(data, s, f, y, x), SoFar(data, s, g, y, x),
                           d, l, dt, lt)
    modifies depth, labels
    ensures StreamingBoth(depth[..], labels[..], SoFar(data, s, f, y, x + 1), SoFar(data, s, g, y, x + 1),
                          d', l', dt', lt')
  {
    ghost var dws, lws := SoFar(data, s, f, y, x), SoFar(data, s, g, y, x);
    PixelCount(s, x, y);
    SoFarStep(data, s, f, y, x, p);
    SoFarStep(data, s, g, y, x, p);
    RoomForTriplet(depth[..], dws, d, dt, s.height * s.width);
    l', lt' := PushWord(labels, l, g(data[p]), lws, lt);
    d', dt' := PushWord(depth, d, f(data[p]), dws, dt);
  }

  /** One row of the loop that fills both buffers; the index and the pixel count are shared. */
  method EncodeRowBoth(data: seq<Word>, s: Scale, f: Word -> Word, g: Word -> Word,
                       depth: array<char>, labels: array<char>, y: nat,
                       d: Cursor, l: Cursor, ghost dt: Trail, ghost lt: Trail)
    returns (d': Cursor, l': Cursor, ghost dt': Trail, ghost lt': Trail)
    requires depth != labels && y < s.height
    requires s.Fits(|data|) && BufferFor(depth, s) && BufferFor(labels, s)
    requires StreamingBoth(depth[..], labels[..], SoFar(data, s, f, y, 0), SoFar(data, s, g, y, 0),
                           d, l, dt, lt)
    modifies depth, labels
    ensures StreamingBoth(depth[..], labels[..], SoFar(data, s, f, y, s.width), SoFar(data, s, g, y, s.width),
                          d', l', dt', lt')
  {
    d', l', dt', lt' := d, l, dt, lt;
    var p := y * s.yRatio * s.stride;
    var x := 0;
    while x < s.width
      invariant 0 <= x <= s.width && p == s.At(x, y)
      invariant StreamingBoth(depth[..], labels[..], SoFar(data, s, f, y, x), SoFar(data, s, g, y, x),
                              d', l', dt', lt')
    {
      d', l', dt', lt' := PushBoth(data, s, f, g, depth, labels, y, x, p, d', l', dt', lt');
      PixelCount(s, x, y);
      x := x + 1;
      p := p + s.xRatio;
    }
  }

  method EncodeBoth(data: seq<Word>, s: Scale, f: Word -> Word, g: Word -> Word, depth: array<char>, labels: array<char>)
    returns (ghost writtenDepth: seq<nat>, ghost writtenLabels: seq<nat>)
    requires depth != labels && s.Fits(|data|) && BufferFor(depth, s) && BufferFor(labels, s)
    modifies depth, labels
    ensures Carries(depth[..], Bytes(Sampled(data, s, f, s.height)))
    ensures Carries(labels[..], Bytes(Sampled(data, s, g, s.height)))
    ensures writtenDepth == Upto(depth.Length) && writtenLabels == Upto(labels.Length)
  {
    var d, l := Cursor(0, 0, 0, 0), Cursor(0, 0, 0, 0);
    ghost var dt, lt := Trail([], []), Trail([], []);
    var y := 0;
    while y < s.height
      invariant 0 <= y <= s.height
      invariant StreamingBoth(depth[..], labels[..], Sampled(data, s, f, y), Sampled(data, s, g, y),
                              d, l, dt, lt)
    {
      SoFarRow(data, s, f, y);
      SoFarRow(data, s, g, y);
      d, l, dt, lt := EncodeRowBoth(data, s, f, g, depth, labels, y, d, l, dt, lt);
      y := y + 1;
    }
    StreamComplete(depth[..], Sampled(data, s, f, y), d, dt);
    StreamComplete(labels[..], Sampled(data, s, g, y), l, lt);
    writtenDepth, writtenLabels := dt.written, lt.written;
  }

  /** The three-way choice of loops. A buffer that is asked for gets the same contents whether
      or not the other one is asked for too; one that is not asked for keeps its contents. */
  method ReadKinectMaps(data: seq<Word>, s: Scale, tracking: seq<nat>, updateDepth: bool, updateLabelMap: bool,
                        depth: array<char>, labels: array<char>)
    requires |tracking| == 6 && depth != labels
    requires s.Fits(|data|) && BufferFor(depth, s) && BufferFor(labels, s)
    modifies depth, labels
    ensures updateDepth ==> Carries(depth[..], Bytes(Sampled(data, s, DepthOf, s.height)))
    ensures !updateDepth ==> depth[..] == old(depth[..])
    ensures updateLabelMap ==> Carries(labels[..], Bytes(Sampled(data, s, LabelOf(UserIds(tracking)), s.height)))
    ensures !updateLabelMap ==> labels[..] == old(labels[..])
  {
    if updateDepth || updateLabelMap {
      var ids := UserIds(tracking);
      var index;
      ghost var written, writtenLabels;
      if !updateLabelMap {
        index, written := EncodeMap(data, s, DepthOf, depth);
      } else if !updateDepth {
        index, written := EncodeMap(data, s, LabelOf(ids), labels);
      } else {
        written, writtenLabels := EncodeBoth(data, s, DepthOf, LabelOf(ids), depth, labels);
      }
    }
  }

  // ----- images: three colour bytes a pixel, written by position ----------------------------

  /** With bpp bytes a pixel, stride and horizontal step measured in bytes, the three colour
      bytes of every sampled pixel lie inside the source. */
  lemma ImageFits(resX: nat, resY: nat, width: nat, height: nat, bpp: nat)
    requires resX > 0 && resY > 0 && width > 0 && height > 0 && bpp >= 3
    ensures Scale(resX * bpp, resX / width * bpp, resY / height, width, height).Fits(resX * resY * bpp - 2)
  {
    RatiosFit(resX, resY, width, height);
    var s := Scale(resX, resX / width, resY / height, width, height);
    var t := Scale(resX * bpp, s.xRatio * bpp, s.yRatio, width, height);
    forall x, y | 0 <= x < width && 0 <= y < height ensures t.At(x, y) < resX * resY * bpp - 2 {
      assert t.At(x, y) == s.At(x, y) * bpp by {
        var row := y * s.yRatio;
        assert row * (resX * bpp) == row * resX * bpp;
        assert x * (s.xRatio * bpp) == x * s.xRatio * bpp;
        assert (row * resX + x * s.xRatio) * bpp == row * resX * bpp + x * s.xRatio * bpp;
      }
      MultiplyMonotone(s.At(x, y) + 1, resX * resY, bpp);
    }
  }

  /** The colour bytes of the first n pixels of output row y. */
  function ColourRow(data: seq<Byte>, s: Scale, y: nat, n: nat): (bs: seq<Byte>)
    requires y < s.height && n <= s.width && s.Fits(|data| - 2)
    ensures |bs| == 3 * n
  {
    seq(3 * n, i requires 0 <= i < 3 * n => data[s.At(i / 3, y) + i % 3])
  }

  function Colours(data: seq<Byte>, s: Scale, rows: nat): (bs: seq<Byte>)
    requires rows <= s.height && s.Fits(|data| - 2)
    ensures |bs| == 3 * (rows * s.width)
  {
    if rows == 0 then []
    else
      StepScaled(rows - 1, 1, s.width);
      Colours(data, s, rows - 1) + ColourRow(data, s, rows - 1, s.width)
  }

  lemma StepScaled(a: nat, b: nat, c: nat)
    ensures (a + b) * c == a * c + b * c
  {
  }

  /** Row y of the output occupies the characters from y * width * 4 on. */
  lemma RowPlace(bs: seq<Byte>, y: nat, width: nat, height: nat)
    requires y < height && |bs| == 3 * (y * width)
    ensures y * width * 4 == |Encode(bs)| && y * width * 4 + 4 * width <= height * width * 4
    ensures (y + 1) * width * 4 == y * width * 4 + 4 * width
  {
    var n, m := y * width, height * width;
    StepScaled(y, 1, width);
    MultiplyMonotone(y + 1, height, width);
    assert n + width <= m;
    assert |bs| / 3 == n;
  }

  /** The image loop of both sensors, for 3 (OpenNI) or 4 (Kinect) source bytes a pixel. Every
      character position is written once, from the pixel it belongs to. */
  method EncodeImage(data: seq<Byte>, s: Scale, out: array<char>) returns (ghost written: seq<nat>)
    requires s.Fits(|data| - 2) && out.Length == s.height * s.width * 4
    modifies out
    ensures Carries(out[..], Colours(data, s, s.height)) && written == Upto(out.Length)
  {
    written := [];
    var y := 0;
    while y < s.height
      invariant 0 <= y <= s.height && written == Upto(y * s.width * 4)
      invariant ImagePrefix(out[..], Colours(data, s, y))
    {
      RowPlace(Colours(data, s, y), y, s.width, s.height);
      ColoursSoFarRow(data, s, y);
      written := EncodeImageRow(data, s, out, y, y * s.width * 4, written);
      y := y + 1;
    }
    ImageComplete(out[..], Colours(data, s, y), s.height * s.width);
  }

  /** The encoded bytes fill the buffer from its start. */
  ghost predicate ImagePrefix(out: seq<char>, bs: seq<Byte>) {
    |bs| % 3 == 0 && Encode(bs) <= out
  }

  lemma ImageComplete(out: seq<char>, bs: seq<Byte>, pixels: nat)
    requires ImagePrefix(out, bs) && |bs| == 3 * pixels && |out| == pixels * 4
    ensures Carries(out, bs)
  {
    assert Encode(bs) == out;
    DecodeEncode(bs);
  }

  /** The buffer holds everything up to pixel n of row y, ending at position pos. */
  ghost predicate InRow(data: seq<Byte>, s: Scale, out: seq<char>, y: nat, n: nat, pos: nat)
    requires s.Fits(|data| - 2) && y < s.height && n <= s.width
  {
    ImagePrefix(out, ColoursSoFar(data, s, y, n)) && pos == |Encode(ColoursSoFar(data, s, y, n))|
  }

  method EncodeImageRow(data: seq<Byte>, s: Scale, out: array<char>, y: nat, start: nat, ghost before: seq<nat>)
    returns (ghost written: seq<nat>)
    requires s.Fits(|data| - 2) && y < s.height
    requires InRow(data, s, out[..], y, 0, start) && start + 4 * s.width <= out.Length && before == Upto(start)
    modifies out
    ensures InRow(data, s, out[..], y, s.width, start + 4 * s.width) && written == Upto(start + 4 * s.width)
  {
    hide InRow;
    var p := y * s.yRatio * s.stride;
    var x := 0;
    ghost var n: nat := 0;
    written := before;
    while x < s.width * 4
      invariant x == 4 * n && n <= s.width && p == s.At(n, y)
      invariant InRow(data, s, out[..], y, n, start + x) && written == Upto(start + x)
    {
      written := EncodePixel(data, s, out, y, n, p, x + start, written);
      UptoTriplet(start + x);
      n := n + 1;
      x := x + 4;
      p := p + s.xRatio;
    }
  }

  /** Colour bytes of the rows above y and of the first n columns of row y. */
  ghost function ColoursSoFar(data: seq<Byte>, s: Scale, y: nat, n: nat): (bs: seq<Byte>)
    requires s.Fits(|data| - 2) && y < s.height && n <= s.width
    ensures |bs| % 3 == 0
  {
    Colours(data, s, y) + ColourRow(data, s, y, n)
  }

  lemma ColoursStep(data: seq<Byte>, s: Scale, y: nat, n: nat, p: nat)
    requires s.Fits(|data| - 2) && y < s.height && n < s.width && p == s.At(n, y)
    ensures p + 2 < |data|
    ensures ColoursSoFar(data, s, y, n + 1) == ColoursSoFar(data, s, y, n) + [data[p], data[p + 1], data[p + 2]]
  {
  }

  lemma ColoursSoFarRow(data: seq<Byte>, s: Scale, y: nat)
    requires s.Fits(|data| - 2) && y < s.height
    ensures ColoursSoFar(data, s, y, 0) == Colours(data, s, y)
    ensures ColoursSoFar(data, s, y, s.width) == Colours(data, s, y + 1)
  {
  }

  method EncodePixel(data: seq<Byte>, s: Scale, out: array<char>, ghost y: nat, ghost n: nat, p: nat, pos: nat,
                     ghost before: seq<nat>)
    returns (ghost written: seq<nat>)
    requires s.Fits(|data| - 2) && y < s.height && n < s.width && p == s.At(n, y)
    requires InRow(data, s, out[..], y, n, pos) && pos + 4 <= out.Length
    modifies out
    ensures InRow(data, s, out[..], y, n + 1, pos + 4)
    ensures p + s.xRatio == s.At(n + 1, y)
    ensures written == before + [pos, pos + 1, pos + 2, pos + 3]
  {
    var r, g, b := data[p], data[p + 1], data[p + 2];
    PixelCount(s, n, y);
    ColoursStep(data, s, y, n, p);
    EncodeAppend(ColoursSoFar(data, s, y, n), r, g, b);
    written := EncodeTriplet(out, pos, r, g, b, before);
  }
}
