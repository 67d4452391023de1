/** Polygon triangulation by clipping ears off a ring of vertex indices. */
module EarClipping {
  import opened Common

  datatype Point = Point(x: real, y: real)

  datatype Triangle = Triangle(a: nat, b: nat, c: nat)

  datatype Triangulation =
    | NoPolygon
    | Points(corners: seq<(Point, Point, Point)>)
    | Indices(triangles: seq<Triangle>)

  const EPSILON: real := 0.0000000001

  // ----- geometry ---------------------------------------------------------------

  function Cross(p: Point, q: Point): real {
    p.x * q.y - q.x * p.y
  }

  /** Twice the signed area of the triangle p q r. */
  function Doubled(p: Point, q: Point, r: Point): real {
    (q.x - p.x) * (r.y - p.y) - (q.y - p.y) * (r.x - p.x)
  }

  /** z is to the left of, or on, each of the three directed sides. */
  predicate Inside(z: Point, p: Point, q: Point, r: Point) {
    && (r.x - q.x) * (z.y - q.y) - (r.y - q.y) * (z.x - q.x) >= 0.0
    && (p.x - r.x) * (z.y - r.y) - (p.y - r.y) * (z.x - r.x) >= 0.0
    && (q.x - p.x) * (z.y - p.y) - (q.y - p.y) * (z.x - p.x) >= 0.0
  }

  /** z is the weighted mean of p, q and r with weights s, t, u. */
  ghost predicate Mean(z: Point, p: Point, q: Point, r: Point, s: real, t: real, u: real) {
    && s >= 0.0 && t >= 0.0 && u >= 0.0 && s + t + u == 1.0
    && z.x == s * p.x + t * q.x + u * r.x
    && z.y == s * p.y + t * q.y + u * r.y
  }

  lemma DoubledIsCrossSum(p: Point, q: Point, r: Point)
    ensures Doubled(p, q, r) == Cross(p, q) + Cross(q, r) + Cross(r, p)
  {
  }

  /** The three side tests of a positively oriented triangle hold exactly for the points of
      the closed triangle, the convex hull of its corners. */
  lemma InsideIsClosedTriangle(z: Point, p: Point, q: Point, r: Point)
    requires Doubled(p, q, r) > 0.0
    ensures Inside(z, p, q, r) <==> exists s, t, u :: Mean(z, p, q, r, s, t, u)
  {
    if Inside(z, p, q, r) {
      var d := Doubled(p, q, r);
      var s, t, u := Doubled(q, r, z) / d, Doubled(r, p, z) / d, Doubled(p, q, z) / d;
      Barycentric(z, p, q, r);
      Quotients(Doubled(q, r, z), Doubled(r, p, z), Doubled(p, q, z), d, p.x, q.x, r.x, z.x);
      Quotients(Doubled(q, r, z), Doubled(r, p, z), Doubled(p, q, z), d, p.y, q.y, r.y, z.y);
      assert Mean(z, p, q, r, s, t, u);
    }
    if s, t, u :| Mean(z, p, q, r, s, t, u) {
      MeanSides(z, p, q, r, s, t, u);
    }
  }

  lemma Barycentric(z: Point, p: Point, q: Point, r: Point)
    ensures Doubled(q, r, z) + Doubled(r, p, z) + Doubled(p, q, z) == Doubled(p, q, r)
    ensures Doubled(q, r, z) * p.x + Doubled(r, p, z) * q.x + Doubled(p, q, z) * r.x == Doubled(p, q, r) * z.x
    ensures Doubled(q, r, z) * p.y + Doubled(r, p, z) * q.y + Doubled(p, q, z) * r.y == Doubled(p, q, r) * z.y
  {
  }

  lemma Quotients(a: real, b: real, c: real, d: real, x: real, y: real, w: real, z: real)
    requires d > 0.0 && a >= 0.0 && b >= 0.0 && c >= 0.0 && a + b + c == d
    requires a * x + b * y + c * w == d * z
    ensures a / d >= 0.0 && b / d >= 0.0 && c / d >= 0.0 && a / d + b / d + c / d == 1.0
    ensures (a / d) * x + (b / d) * y + (c / d) * w == z
  {
  }

  lemma MeanSides(z: Point, p: Point, q: Point, r: Point, s: real, t: real, u: real)
    requires Mean(z, p, q, r, s, t, u) && Doubled(p, q, r) > 0.0
    ensures Inside(z, p, q, r)
  {
    var d := Doubled(p, q, r);
    MeanSide(z, p, q, r, s, t, u);
    MeanSide(z, q, r, p, t, u, s);
    MeanSide(z, r, p, q, u, s, t);
    DoubledIsCrossSum(p, q, r);
    DoubledIsCrossSum(q, r, p);
    DoubledIsCrossSum(r, p, q);
    assert s * d >= 0.0 && t * d >= 0.0 && u * d >= 0.0;
  }

  lemma MeanSide(z: Point, p: Point, q: Point, r: Point, s: real, t: real, u: real)
    requires Mean(z, p, q, r, s, t, u)
    ensures Doubled(q, r, z) == s * Doubled(p, q, r)
  {
  }

  // ----- rings and weights on directed edges --------------------------------------

  /** A weight on directed edges; reversing an edge negates it. */
  ghost predicate Antisymmetric(w: (nat, nat) -> real) {
    forall u, v :: w(u, v) == -w(v, u)
  }

  ghost function PathSum(w: (nat, nat) -> real, s: seq<nat>): real {
    if |s| < 2 then 0.0 else w(s[0], s[1]) + PathSum(w, s[1..])
  }

  ghost function RingSum(w: (nat, nat) -> real, s: seq<nat>): real {
    if s == [] then 0.0 else PathSum(w, s) + w(s[|s| - 1], s[0])
  }

  ghost function Boundary(w: (nat, nat) -> real, t: Triangle): real {
    w(t.a, t.b) + w(t.b, t.c) + w(t.c, t.a)
  }

  ghost function Boundaries(w: (nat, nat) -> real, ts: seq<Triangle>): real {
    if ts == [] then 0.0 else Boundary(w, ts[0]) + Boundaries(w, ts[1..])
  }

  function Before(l: nat, g: nat): nat
    requires l < g
  {
    if l == 0 then g - 1 else l - 1
  }

  function After(l: nat, g: nat): nat
    requires l < g
  {
    if l + 1 == g then 0 else l + 1
  }

  /** The triangle cut off at position l of the ring. */
  function TriangleAt(ring: seq<nat>, l: nat): Triangle
    requires l < |ring|
  {
    Triangle(ring[Before(l, |ring|)], ring[l], ring[After(l, |ring|)])
  }

  function WithoutAt(ring: seq<nat>, l: nat): (r: seq<nat>)
    requires l < |ring|
    ensures |r| == |ring| - 1
  {
    ring[..l] + ring[l + 1..]
  }

  lemma {:induction false} PathSumAppend(w: (nat, nat) -> real, s: seq<nat>, t: seq<nat>)
    requires s != [] && t != []
    ensures PathSum(w, s + t) == PathSum(w, s) + w(s[|s| - 1], t[0]) + PathSum(w, t)
    decreases |s|
  {
    if |s| == 1 {
      assert (s + t)[1..] == t;
    } else {
      assert (s + t)[1..] == s[1..] + t;
      PathSumAppend(w, s[1..], t);
    }
  }

  /** Clipping one ear: the boundary of the triangle is exactly what the ring loses. */
  lemma ClipKeepsSum(w: (nat, nat) -> real, ring: seq<nat>, l: nat)
    requires Antisymmetric(w) && |ring| > 2 && l < |ring|
    ensures RingSum(w, ring) == RingSum(w, WithoutAt(ring, l)) + Boundary(w, TriangleAt(ring, l))
  {
    var n := |ring|;
    var rest := WithoutAt(ring, l);
    if l == 0 {
      assert ring == [ring[0]] + ring[1..] && rest == ring[1..];
      PathSumAppend(w, [ring[0]], ring[1..]);
    } else if l == n - 1 {
      assert ring == ring[..l] + [ring[l]] && rest == ring[..l];
      PathSumAppend(w, ring[..l], [ring[l]]);
    } else {
      var front, back := ring[..l], ring[l + 1..];
      assert ring == front + ([ring[l]] + back);
      PathSumAppend(w, front, [ring[l]] + back);
      PathSumAppend(w, [ring[l]], back);
      PathSumAppend(w, front, back);
    }
  }

  // ----- ears and runs of the algorithm ----------------------------------------------

  predicate InRange(ring: seq<nat>, n: nat) {
    forall i | 0 <= i < |ring| :: ring[i] < n
  }

  /** Position l is an ear: a triangle of doubled area at least EPSILON that contains no
      other vertex of the ring. */
  ghost predicate IsEar(a: seq<Point>, ring: seq<nat>, l: nat)
    requires InRange(ring, |a|) && l < |ring|
  {
    var t := TriangleAt(ring, l);
    && Doubled(a[t.a], a[t.b], a[t.c]) >= EPSILON
    && forall k | 0 <= k < |ring| && k != l && k != Before(l, |ring|) && k != After(l, |ring|) ::
         !Inside(a[ring[k]], a[t.a], a[t.b], a[t.c])
  }

  /** Cutting ears at the given positions emits the triangles ts and leaves rest. */
  ghost predicate Clipping(a: seq<Point>, ring: seq<nat>, cuts: seq<nat>, ts: seq<Triangle>, rest: seq<nat>)
    decreases |cuts|
  {
    && InRange(ring, |a|)
    && if cuts == [] then ts == [] && rest == ring
       else
         && |ring| > 2 && cuts[0] < |ring| && IsEar(a, ring, cuts[0])
         && ts != [] && ts[0] == TriangleAt(ring, cuts[0])
         && Clipping(a, WithoutAt(ring, cuts[0]), cuts[1..], ts[1..], rest)
  }

  lemma {:induction false} ClippingAppend(
      a: seq<Point>, ring: seq<nat>, cuts: seq<nat>, ts: seq<Triangle>, rest: seq<nat>, l: nat)
    requires Clipping(a, ring, cuts, ts, rest)
    requires InRange(rest, |a|) && |rest| > 2 && l < |rest| && IsEar(a, rest, l)
    ensures Clipping(a, ring, cuts + [l], ts + [TriangleAt(rest, l)], WithoutAt(rest, l))
    decreases |cuts|
  {
    if cuts == [] {
      assert (cuts + [l])[1..] == [] && (ts + [TriangleAt(rest, l)])[1..] == [];
    } else {
      ClippingAppend(a, WithoutAt(ring, cuts[0]), cuts[1..], ts[1..], rest, l);
      assert (cuts + [l])[1..] == cuts[1..] + [l];
      assert (ts + [TriangleAt(rest, l)])[1..] == ts[1..] + [TriangleAt(rest, l)];
    }
  }

  /** Conservation: for every antisymmetric edge weight, the triangle boundaries and the
      remaining ring add up to the starting ring; each diagonal cancels. */
  lemma {:induction false} ClippingConserves(
      a: seq<Point>, ring: seq<nat>, cuts: seq<nat>, ts: seq<Triangle>, rest: seq<nat>,
      w: (nat, nat) -> real)
    requires Clipping(a, ring, cuts, ts, rest) && Antisymmetric(w)
    ensures Boundaries(w, ts) + RingSum(w, rest) == RingSum(w, ring)
    ensures |ts| + |rest| == |ring|
    decreases |cuts|
  {
    if cuts != [] {
      ClipKeepsSum(w, ring, cuts[0]);
      ClippingConserves(a, WithoutAt(ring, cuts[0]), cuts[1..], ts[1..], rest, w);
    }
  }

  // ----- which ears are cut ------------------------------------------------------------

  /** The position tried after position c when g positions are left: the next one around the
      ring, and position 1 when c was the last one and fell off the end. */
  function From(c: nat, g: nat): nat {
    if c + 1 < g then c + 1 else if c + 1 == g then 0 else 1
  }

  /** How many steps forward around a ring of g positions lead from start to q. */
  function StepsFrom(start: nat, q: nat, g: nat): int {
    if start <= q then q - start else q + g - start
  }

  /** Position l is the first ear met when walking around the ring from start. */
  ghost predicate FirstEar(a: seq<Point>, ring: seq<nat>, start: nat, l: nat)
    requires InRange(ring, |a|)
  {
    && start < |ring| && l < |ring| && IsEar(a, ring, l)
    && forall q | 0 <= q < |ring| && StepsFrom(start, q, |ring|) < StepsFrom(start, l, |ring|) ::
         !IsEar(a, ring, q)
  }

  /** Every cut is the first ear met from start, and the next walk goes on behind the cut. */
  ghost predicate FirstEars(a: seq<Point>, ring: seq<nat>, start: nat, cuts: seq<nat>)
    decreases |cuts|
  {
    cuts != [] ==>
      && InRange(ring, |a|) && FirstEar(a, ring, start, cuts[0])
      && FirstEars(a, WithoutAt(ring, cuts[0]), From(cuts[0], |ring| - 1), cuts[1..])
  }

  /** Where the walk starts after the cuts, when g positions are left. */
  function StartAfter(start: nat, cuts: seq<nat>, g: nat): nat {
    if cuts == [] then start else From(cuts[|cuts| - 1], g)
  }

  lemma {:induction false} FirstEarsAppend(
      a: seq<Point>, ring: seq<nat>, start: nat, cuts: seq<nat>, ts: seq<Triangle>, rest: seq<nat>, l: nat)
    requires Clipping(a, ring, cuts, ts, rest) && FirstEars(a, ring, start, cuts)
    requires InRange(rest, |a|) && FirstEar(a, rest, StartAfter(start, cuts, |rest|), l)
    ensures FirstEars(a, ring, start, cuts + [l])
    decreases |cuts|
  {
    hide IsEar, FirstEar;
    if cuts != [] {
      var next := WithoutAt(ring, cuts[0]);
      var from := From(cuts[0], |next|);
      if cuts[1..] == [] {
        assert rest == next;
      }
      assert StartAfter(from, cuts[1..], |rest|) == StartAfter(start, cuts, |rest|);
      FirstEarsAppend(a, next, from, cuts[1..], ts[1..], rest, l);
      assert (cuts + [l])[1..] == cuts[1..] + [l];
    } else {
      assert (cuts + [l])[1..] == [];
    }
  }

  /** A run is over when two vertices are left or no position is an ear. */
  ghost predicate Over(a: seq<Point>, rest: seq<nat>) {
    |rest| == 2 || Stuck(a, rest)
  }

  lemma FirstEarIsOne(a: seq<Point>, ring: seq<nat>, start: nat, l: nat, m: nat)
    requires InRange(ring, |a|) && FirstEar(a, ring, start, l) && FirstEar(a, ring, start, m)
    ensures l == m
  {
    hide IsEar;
  }

  /** Only one run cuts the first ears and is over: the polygon decides the triangles. */
  lemma {:induction false} RunIsOne(
      a: seq<Point>, ring: seq<nat>, start: nat, cuts: seq<nat>, ts: seq<Triangle>, rest: seq<nat>,
      cuts': seq<nat>, ts': seq<Triangle>, rest': seq<nat>)
    requires Clipping(a, ring, cuts, ts, rest) && FirstEars(a, ring, start, cuts) && Over(a, rest)
    requires Clipping(a, ring, cuts', ts', rest') && FirstEars(a, ring, start, cuts') && Over(a, rest')
    ensures cuts == cuts' && ts == ts' && rest == rest'
    decreases |cuts|
  {
    hide IsEar, FirstEar;
    if cuts != [] && cuts' != [] {
      FirstEarIsOne(a, ring, start, cuts[0], cuts'[0]);
      RunIsOne(a, WithoutAt(ring, cuts[0]), From(cuts[0], |ring| - 1), cuts[1..], ts[1..], rest,
               cuts'[1..], ts'[1..], rest');
      assert cuts == [cuts[0]] + cuts[1..] && cuts' == [cuts[0]] + cuts'[1..];
      assert ts == [ts[0]] + ts[1..] && ts' == [ts[0]] + ts'[1..];
    }
  }

  /** What every emitted triangle satisfies, against all vertices that remained when it was
      cut; those include all corners of later triangles. */
  ghost predicate CleanCut(a: seq<Point>, ring: seq<nat>, t: Triangle) {
    && t.a in ring && t.b in ring && t.c in ring
    && t.a < |a| && t.b < |a| && t.c < |a|
    && t.a != t.b && t.b != t.c && t.a != t.c
    && Doubled(a[t.a], a[t.b], a[t.c]) >= EPSILON
    && forall v | v in ring && v < |a| && v != t.a && v != t.b && v != t.c ::
         !Inside(a[v], a[t.a], a[t.b], a[t.c])
  }

  lemma EarIsCleanCut(a: seq<Point>, ring: seq<nat>, l: nat)
    requires InRange(ring, |a|) && NoRepeats(ring) && |ring| > 2 && l < |ring| && IsEar(a, ring, l)
    ensures CleanCut(a, ring, TriangleAt(ring, l))
  {
  }

  lemma WithoutSubset(ring: seq<nat>, l: nat)
    requires l < |ring| && NoRepeats(ring)
    ensures NoRepeats(WithoutAt(ring, l))
    ensures forall v | v in WithoutAt(ring, l) :: v in ring && v != ring[l]
  {
  }

  /** Triangle j is a clean cut, and no later triangle and no leftover vertex reaches into it
      except at its own corners. */
  lemma {:induction false} TrianglesAreClean(
      a: seq<Point>, ring: seq<nat>, cuts: seq<nat>, ts: seq<Triangle>, rest: seq<nat>, j: nat)
    requires Clipping(a, ring, cuts, ts, rest) && NoRepeats(ring) && j < |ts|
    ensures exists r: seq<nat> :: Remaining(ring, ts[j..], rest, r) && CleanCut(a, r, ts[j])
    decreases |cuts|
  {
    if j == 0 {
      EarIsCleanCut(a, ring, cuts[0]);
      CornersRemain(a, ring, cuts, ts, rest);
      assert ts[0..] == ts;
      assert Remaining(ring, ts, rest, ring);
    } else {
      var next := WithoutAt(ring, cuts[0]);
      WithoutSubset(ring, cuts[0]);
      TrianglesAreClean(a, next, cuts[1..], ts[1..], rest, j - 1);
      assert ts[1..][j - 1..] == ts[j..];
      var r: seq<nat> :| Remaining(next, ts[j..], rest, r) && CleanCut(a, r, ts[j]);
      assert Remaining(ring, ts[j..], rest, r);
    }
  }

  /** r consists of vertices of the ring and holds the corners of ts and all of rest. */
  ghost predicate Remaining(ring: seq<nat>, ts: seq<Triangle>, rest: seq<nat>, r: seq<nat>) {
    && (forall v | v in r :: v in ring)
    && (forall k | 0 <= k < |ts| :: ts[k].a in r && ts[k].b in r && ts[k].c in r)
    && (forall v | v in rest :: v in r)
  }

  lemma {:induction false} CornersRemain(
      a: seq<Point>, ring: seq<nat>, cuts: seq<nat>, ts: seq<Triangle>, rest: seq<nat>)
    requires Clipping(a, ring, cuts, ts, rest) && NoRepeats(ring)
    ensures Remaining(ring, ts, rest, ring)
    decreases |cuts|
  {
    if cuts != [] {
      var next := WithoutAt(ring, cuts[0]);
      WithoutSubset(ring, cuts[0]);
      CornersRemain(a, next, cuts[1..], ts[1..], rest);
      forall k | 0 <= k < |ts| ensures ts[k].a in ring && ts[k].b in ring && ts[k].c in ring {
        if k > 0 {
          assert ts[k] == ts[1..][k - 1];
        }
      }
    }
  }

  // ----- signed area -------------------------------------------------------------------

  /** The cross product of two vertices as an edge weight. */
  ghost function CrossWeight(a: seq<Point>): (w: (nat, nat) -> real)
    ensures Antisymmetric(w)
  {
    (u: nat, v: nat) => if u < |a| && v < |a| then Cross(a[u], a[v]) else 0.0
  }

  function Upward(n: nat): seq<nat> {
    seq(n, i requires 0 <= i < n => i)
  }

  function Downward(n: nat): seq<nat> {
    seq(n, i requires 0 <= i < n => n - 1 - i)
  }

  /** The shoelace area: half the cross products around the polygon. */
  ghost function SignedArea(a: seq<Point>): real {
    0.5 * RingSum(CrossWeight(a), Upward(|a|))
  }

  ghost function Absolute(x: real): real {
    if x < 0.0 then -x else x
  }

  ghost function TriangleArea(a: seq<Point>, t: Triangle): real
    requires t.a < |a| && t.b < |a| && t.c < |a|
  {
    0.5 * Doubled(a[t.a], a[t.b], a[t.c])
  }

  /** The ring the algorithm starts from: counterclockwise order. */
  ghost function StartRing(a: seq<Point>): (r: seq<nat>)
    ensures InRange(r, |a|) && NoRepeats(r) && |r| == |a|
  {
    if SignedArea(a) > 0.0 then Upward(|a|) else Downward(|a|)
  }

  lemma {:induction false} DownwardPath(w: (nat, nat) -> real, n: nat)
    requires Antisymmetric(w)
    ensures PathSum(w, Downward(n)) == -PathSum(w, Upward(n))
  {
    if n > 1 {
      DownwardPath(w, n - 1);
      assert Downward(n) == [n - 1] + Downward(n - 1);
      assert Upward(n) == Upward(n - 1) + [n - 1];
      PathSumAppend(w, [n - 1], Downward(n - 1));
      PathSumAppend(w, Upward(n - 1), [n - 1]);
    }
  }

  lemma StartRingArea(a: seq<Point>)
    ensures 0.5 * RingSum(CrossWeight(a), StartRing(a)) == Absolute(SignedArea(a))
  {
    DownwardPath(CrossWeight(a), |a|);
  }

  ghost predicate WithinPolygon(a: seq<Point>, ts: seq<Triangle>) {
    forall k | 0 <= k < |ts| :: ts[k].a < |a| && ts[k].b < |a| && ts[k].c < |a|
  }

  ghost function TotalArea(a: seq<Point>, ts: seq<Triangle>): real
    requires WithinPolygon(a, ts)
  {
    if ts == [] then 0.0 else TriangleArea(a, ts[0]) + TotalArea(a, ts[1..])
  }

  lemma {:induction false} TotalAreaIsBoundary(a: seq<Point>, ts: seq<Triangle>)
    requires WithinPolygon(a, ts)
    ensures TotalArea(a, ts) == 0.5 * Boundaries(CrossWeight(a), ts)
    decreases |ts|
  {
    if ts != [] {
      TotalAreaIsBoundary(a, ts[1..]);
      DoubledIsCrossSum(a[ts[0].a], a[ts[0].b], a[ts[0].c]);
    }
  }

  /** At every point of a run the emitted areas and the area of what is left add up to the
      absolute area of the polygon. */
  lemma AreaConserved(a: seq<Point>, cuts: seq<nat>, ts: seq<Triangle>, rest: seq<nat>)
    requires Clipping(a, StartRing(a), cuts, ts, rest)
    ensures WithinPolygon(a, ts)
    ensures TotalArea(a, ts) + 0.5 * RingSum(CrossWeight(a), rest) == Absolute(SignedArea(a))
  {
    CornersRemain(a, StartRing(a), cuts, ts, rest);
    ClippingConserves(a, StartRing(a), cuts, ts, rest, CrossWeight(a));
    StartRingArea(a);
    TotalAreaIsBoundary(a, ts);
  }

  lemma {:induction false} TotalAreaLowerBound(a: seq<Point>, ts: seq<Triangle>)
    requires WithinPolygon(a, ts)
    requires forall k | 0 <= k < |ts| :: Doubled(a[ts[k].a], a[ts[k].b], a[ts[k].c]) >= EPSILON
    ensures TotalArea(a, ts) >= |ts| as real * (0.5 * EPSILON)
    decreases |ts|
  {
    if ts != [] {
      TotalAreaLowerBound(a, ts[1..]);
      assert |ts| as real == |ts[1..]| as real + 1.0;
    }
  }

  /** A complete run: n - 2 triangles whose areas sum to the polygon's, which is therefore
      bounded away from zero. */
  lemma CompleteTriangulation(a: seq<Point>, cuts: seq<nat>, ts: seq<Triangle>, rest: seq<nat>)
    requires |a| >= 3 && Clipping(a, StartRing(a), cuts, ts, rest) && |rest| == 2
    ensures |ts| == |a| - 2 && WithinPolygon(a, ts)
    ensures TotalArea(a, ts) == Absolute(SignedArea(a))
    ensures Absolute(SignedArea(a)) >= (|a| - 2) as real * (0.5 * EPSILON)
  {
    AreaConserved(a, cuts, ts, rest);
    ClippingConserves(a, StartRing(a), cuts, ts, rest, CrossWeight(a));
    var w := CrossWeight(a);
    assert PathSum(w, rest) == w(rest[0], rest[1]) + PathSum(w, rest[1..]);
    forall k | 0 <= k < |ts| ensures Doubled(a[ts[k].a], a[ts[k].b], a[ts[k].c]) >= EPSILON {
      TrianglesAreClean(a, StartRing(a), cuts, ts, rest, k);
    }
    TotalAreaLowerBound(a, ts);
  }

  // ----- polygons in convex position --------------------------------------------------------

  /** Any three vertices, in the order of the ring, turn left by a doubled area of at least EPSILON. */
  ghost predicate ConvexRing(a: seq<Point>, ring: seq<nat>) {
    && InRange(ring, |a|)
    && forall i, j, k | 0 <= i < j < k < |ring| :: Doubled(a[ring[i]], a[ring[j]], a[ring[k]]) >= EPSILON
  }

  /** All vertices in convex position, in either direction. */
  ghost predicate ConvexPolygon(a: seq<Point>) {
    || (forall i, j, k | 0 <= i < j < k < |a| :: Doubled(a[i], a[j], a[k]) >= EPSILON)
    || (forall i, j, k | 0 <= i < j < k < |a| :: Doubled(a[i], a[j], a[k]) <= -EPSILON)
  }

  lemma ConvexHasEar(a: seq<Point>, ring: seq<nat>)
    requires ConvexRing(a, ring) && |ring| > 2
    ensures IsEar(a, ring, 1)
  {
    assert TriangleAt(ring, 1) == Triangle(ring[0], ring[1], ring[2]);
    forall k | 2 < k < |ring| ensures !Inside(a[ring[k]], a[ring[0]], a[ring[1]], a[ring[2]]) {
      BeyondChord(a[ring[0]], a[ring[1]], a[ring[2]], a[ring[k]]);
    }
  }

  /** A point to the left of the chord from p to r does not lie in the triangle on its right. */
  lemma BeyondChord(p: Point, q: Point, r: Point, z: Point)
    requires Doubled(p, r, z) > 0.0
    ensures !Inside(z, p, q, r)
  {
    assert Doubled(p, r, z) == -((p.x - r.x) * (z.y - r.y) - (p.y - r.y) * (z.x - r.x));
  }

  lemma ConvexWithout(a: seq<Point>, ring: seq<nat>, l: nat)
    requires ConvexRing(a, ring) && l < |ring|
    ensures ConvexRing(a, WithoutAt(ring, l))
  {
    hide Doubled;
    var rest := WithoutAt(ring, l);
    forall i, j, k | 0 <= i < j < k < |rest| ensures Doubled(a[rest[i]], a[rest[j]], a[rest[k]]) >= EPSILON {
      var x, y, z := if i < l then i else i + 1, if j < l then j else j + 1, if k < l then k else k + 1;
      assert rest[i] == ring[x] && rest[j] == ring[y] && rest[k] == ring[z];
    }
  }

  lemma {:induction false} ConvexClipping(a: seq<Point>, ring: seq<nat>, cuts: seq<nat>, ts: seq<Triangle>, rest: seq<nat>)
    requires ConvexRing(a, ring) && Clipping(a, ring, cuts, ts, rest)
    ensures ConvexRing(a, rest)
    decreases |cuts|
  {
    if cuts != [] {
      ConvexWithout(a, ring, cuts[0]);
      ConvexClipping(a, WithoutAt(ring, cuts[0]), cuts[1..], ts[1..], rest);
    }
  }

  /** A ring in convex position has positive area: cut off triangle after triangle. */
  lemma {:induction false} ConvexAreaPositive(a: seq<Point>, ring: seq<nat>)
    requires ConvexRing(a, ring) && |ring| >= 2
    ensures if |ring| == 2 then RingSum(CrossWeight(a), ring) == 0.0 else RingSum(CrossWeight(a), ring) > 0.0
    decreases |ring|
  {
    var w := CrossWeight(a);
    if |ring| == 2 {
      assert PathSum(w, ring) == w(ring[0], ring[1]) + PathSum(w, ring[1..]);
    } else {
      ConvexWithout(a, ring, 1);
      ConvexAreaPositive(a, WithoutAt(ring, 1));
      ClipKeepsSum(w, ring, 1);
      DoubledIsCrossSum(a[ring[0]], a[ring[1]], a[ring[2]]);
      assert Boundary(w, TriangleAt(ring, 1)) == Doubled(a[ring[0]], a[ring[1]], a[ring[2]]);
    }
  }

  /** The starting ring of a convex polygon turns left, whichever way the polygon does. */
  lemma ConvexStart(a: seq<Point>)
    requires ConvexPolygon(a) && |a| >= 3
    ensures ConvexRing(a, StartRing(a))
  {
    hide Doubled, PathSum, RingSum, CrossWeight;
    var w := CrossWeight(a);
    DownwardRing(w, |a|);
    if forall i, j, k | 0 <= i < j < k < |a| :: Doubled(a[i], a[j], a[k]) >= EPSILON {
      assert ConvexRing(a, Upward(|a|));
      ConvexAreaPositive(a, Upward(|a|));
    } else {
      ConvexDownward(a);
      ConvexAreaPositive(a, Downward(|a|));
    }
  }

  lemma DownwardRing(w: (nat, nat) -> real, n: nat)
    requires Antisymmetric(w) && n > 0
    ensures RingSum(w, Downward(n)) == -RingSum(w, Upward(n))
  {
    DownwardPath(w, n);
  }

  lemma ConvexDownward(a: seq<Point>)
    requires forall i, j, k | 0 <= i < j < k < |a| :: Doubled(a[i], a[j], a[k]) <= -EPSILON
    ensures ConvexRing(a, Downward(|a|))
  {
    hide Doubled;
    var n, r := |a|, Downward(|a|);
    forall i, j, k | 0 <= i < j < k < n ensures Doubled(a[r[i]], a[r[j]], a[r[k]]) >= EPSILON {
      Reversed(a[n - 1 - k], a[n - 1 - j], a[n - 1 - i]);
    }
  }

  lemma Reversed(p: Point, q: Point, r: Point)
    ensures Doubled(r, q, p) == -Doubled(p, q, r)
  {
  }

  /** No clipping of a polygon in convex position gets stuck. */
  lemma ConvexIsNeverStuck(a: seq<Point>, cuts: seq<nat>, ts: seq<Triangle>, rest: seq<nat>)
    requires ConvexPolygon(a) && |a| >= 3 && Clipping(a, StartRing(a), cuts, ts, rest) && |rest| > 2
    ensures !Stuck(a, rest)
  {
    ConvexStart(a);
    ConvexClipping(a, StartRing(a), cuts, ts, rest);
    ConvexHasEar(a, rest);
  }

  // ----- the program -----------------------------------------------------------------------

  /** The sum over the edges that end in the first e of c vertices. */
  ghost function WalkedSum(w: (nat, nat) -> real, c: nat, e: nat): real
    requires e <= c
  {
    if e == 0 then 0.0 else w(c - 1, 0) + PathSum(w, Upward(e))
  }

  lemma WalkedOn(w: (nat, nat) -> real, c: nat, e: nat)
    requires e < c
    ensures WalkedSum(w, c, e + 1) == WalkedSum(w, c, e) + w(if e == 0 then c - 1 else e - 1, e)
  {
    if e > 0 {
      assert Upward(e + 1) == Upward(e) + [e];
      PathSumAppend(w, Upward(e), [e]);
    }
  }

  /** The area function: walks the polygon with the previous vertex at hand. */
  method Area(a: seq<Point>) returns (area: real)
    ensures area == SignedArea(a)
  {
    var c := |a|;
    var g := 0.0;
    var f := c - 1;
    var e := 0;
    ghost var w := CrossWeight(a);
    while e < c
      invariant 0 <= e <= c && f == if e == 0 then c - 1 else e - 1
      invariant g == WalkedSum(w, c, e)
    {
      assert a[f].x * a[e].y - a[e].x * a[f].y == w(f, e);
      WalkedOn(w, c, e);
      g := g + (a[f].x * a[e].y - a[e].x * a[f].y);
      f := e;
      e := e + 1;
    }
    return g * 0.5;
  }

  /** The ear test on the first g entries of the ring, at positions m, r, n. */
  method Snip(a: seq<Point>, ring: array<nat>, g: nat, m: nat, r: nat, n: nat) returns (ear: bool)
    requires 2 < g <= ring.Length && InRange(ring[..g], |a|)
    requires r < g && m == Before(r, g) && n == After(r, g)
    ensures ear <==> IsEar(a, ring[..g], r)
    ensures ear ==> Doubled(a[ring[m]], a[ring[r]], a[ring[n]]) >= 0.0000000001
    ensures !ear ==>
              || Doubled(a[ring[m]], a[ring[r]], a[ring[n]]) < 0.0000000001
              || exists k :: 0 <= k < g && k != m && k != r && k != n && Inside(a[ring[k]], a[ring[m]], a[ring[r]], a[ring[n]])
  {
    ghost var es := ring[..g];
    var p, q, s := a[ring[m]], a[ring[r]], a[ring[n]];
    assert TriangleAt(es, r) == Triangle(ring[m], ring[r], ring[n]);
    assert Doubled(p, q, s) == (q.x - p.x) * (s.y - p.y) - (q.y - p.y) * (s.x - p.x);
    if EPSILON > (q.x - p.x) * (s.y - p.y) - (q.y - p.y) * (s.x - p.x) { return false; }
    var w := 0;
    while w < g
      invariant 0 <= w <= g
      invariant forall k | 0 <= k < w && k != m && k != r && k != n :: !Inside(a[es[k]], p, q, s)
    {
      if !(w == m || w == r || w == n) {
        var v := a[ring[w]];
        assert v == a[es[w]];
        if Inside(v, p, q, s) {
          return false;
        }
      }
      w := w + 1;
    }
    return true;
  }

  /** The tries positions from start on, around the ring, are known not to be ears. */
  ghost predicate Tried(a: seq<Point>, ring: seq<nat>, start: nat, tries: nat)
    requires InRange(ring, |a|)
  {
    forall q | 0 <= q < |ring| && StepsFrom(start, q, |ring|) < tries :: !IsEar(a, ring, q)
  }

  /** next is the position to try after tries failed ones, if that is still a new one. */
  ghost predicate Follows(start: nat, next: nat, g: nat, tries: nat) {
    start < g && next < g && (tries < g ==> StepsFrom(start, next, g) == tries)
  }

  lemma NothingTried(a: seq<Point>, ring: seq<nat>, start: nat)
    requires InRange(ring, |a|) && start < |ring|
    ensures Tried(a, ring, start, 0) && Follows(start, start, |ring|, 0)
  {
    hide IsEar;
  }

  lemma TriedOneMore(a: seq<Point>, ring: seq<nat>, start: nat, l: nat, tries: nat)
    requires InRange(ring, |a|) && Tried(a, ring, start, tries) && |ring| > 2
    requires Follows(start, l, |ring|, tries) && !IsEar(a, ring, l)
    ensures Tried(a, ring, start, tries + 1) && Follows(start, From(l, |ring|), |ring|, tries + 1)
  {
    hide IsEar;
  }

  lemma TriedIsFirst(a: seq<Point>, ring: seq<nat>, start: nat, l: nat, tries: nat)
    requires InRange(ring, |a|) && Tried(a, ring, start, tries)
    requires Follows(start, l, |ring|, tries) && IsEar(a, ring, l)
    ensures FirstEar(a, ring, start, l)
  {
    hide IsEar;
  }

  /** The index ring in counterclockwise order. */
  method InitialRing(a: seq<Point>) returns (e: array<nat>)
    ensures fresh(e) && e.Length == |a| && e[..] == StartRing(a)
    ensures forall k | 0 <= k < |a| :: e[k] == if SignedArea(a) > 0.0 then k else |a| - 1 - k
  {
    var g := |a|;
    e := new nat[g];
    var area := Area(a);
    if area > 0.0 {
      for l := 0 to g
        invariant forall k | 0 <= k < l :: e[k] == k
      {
        e[l] := l;
      }
    } else {
      for l := 0 to g
        invariant forall k | 0 <= k < l :: e[k] == g - 1 - k
      {
        e[l] := g - 1 - l;
      }
    }
  }

  /** Shifts the ring entries after position l down by one. */
  method RemoveAt(e: array<nat>, g: nat, l: nat)
    requires l < g <= e.Length
    modifies e
    ensures e[..g - 1] == WithoutAt(old(e[..g]), l)
  {
    ghost var ring := e[..g];
    var i := l;
    var k := l + 1;
    while k < g
      invariant l < k <= g && i == k - 1
      invariant forall j | 0 <= j < l :: e[j] == ring[j]
      invariant forall j | l <= j < i :: e[j] == ring[j + 1]
      invariant forall j | i < j < g :: e[j] == ring[j]
    {
      e[i] := e[k];
      i := i + 1;
      k := k + 1;
    }
    forall j | 0 <= j < g - 1 ensures e[j] == WithoutAt(ring, l)[j] {
    }
  }

  /** Moves the cursor one position around the ring, past the end if it was cut off there,
      and tests the ear at the new position. */
  method TryNext(a: seq<Point>, e: array<nat>, g: nat, last: nat) returns (i: nat, l: nat, k: nat, ear: bool)
    requires 2 < g <= e.Length && InRange(e[..g], |a|) && last <= g
    ensures l < g && i == Before(l, g) && k == After(l, g)
    ensures i == (if l == 0 then g - 1 else l - 1) && k == if l + 1 == g then 0 else l + 1
    ensures l == From(last, g)
    ensures last + 1 < g ==> l == last + 1
    ensures last + 1 == g ==> l == 0
    ensures last == g ==> l == 1
    ensures ear <==> IsEar(a, e[..g], l)
  {
    i := last;
    if g <= i { i := 0; }
    l := i + 1;
    if g <= l { l := 0; }
    k := l + 1;
    if g <= k { k := 0; }
    ear := Snip(a, e, g, i, l, k);
  }

  /** A run so far: the triangles h with corner points f, and what is left of the ring. */
  ghost predicate Progress(a: seq<Point>, cuts: seq<nat>, h: seq<Triangle>,
                           f: seq<(Point, Point, Point)>, rest: seq<nat>) {
    && Clipping(a, StartRing(a), cuts, h, rest)
    && WithinPolygon(a, h) && f == Corners(a, h)
    && InRange(rest, |a|)
  }

  /** Emits the ear at positions i, l, k and closes the ring over it. */
  method ClipEar(a: seq<Point>, e: array<nat>, g: nat, i: nat, l: nat, k: nat,
                 f: seq<(Point, Point, Point)>, h: seq<Triangle>, ghost cuts: seq<nat>)
    returns (f': seq<(Point, Point, Point)>, h': seq<Triangle>)
    requires 2 < g <= e.Length && l < g && i == Before(l, g) && k == After(l, g)
    requires Progress(a, cuts, h, f, e[..g]) && IsEar(a, e[..g], l)
    modifies e
    ensures e[..g - 1] == WithoutAt(old(e[..g]), l)
    ensures h' == h + [Triangle(old(e[i]), old(e[l]), old(e[k]))]
    ensures old(e[i]) < |a| && old(e[l]) < |a| && old(e[k]) < |a|
    ensures f' == f + [(a[old(e[i])], a[old(e[l])], a[old(e[k])])]
    ensures Progress(a, cuts + [l], h', f', e[..g - 1])
  {
    hide Progress, IsEar, Corners;
    ProgressCut(a, cuts, h, f, e[..g], l);
    f' := f + [(a[e[i]], a[e[l]], a[e[k]])];
    h' := h + [Triangle(e[i], e[l], e[k])];
    RemoveAt(e, g, l);
  }

  lemma ProgressCut(a: seq<Point>, cuts: seq<nat>, h: seq<Triangle>, f: seq<(Point, Point, Point)>,
                    ring: seq<nat>, l: nat)
    requires Progress(a, cuts, h, f, ring) && |ring| > 2 && l < |ring| && IsEar(a, ring, l)
    ensures var t := TriangleAt(ring, l);
      && t.a < |a| && t.b < |a| && t.c < |a|
      && Progress(a, cuts + [l], h + [t], f + [(a[t.a], a[t.b], a[t.c])], WithoutAt(ring, l))
  {
    hide Clipping, IsEar;
    ClippingAppend(a, StartRing(a), cuts, h, ring, l);
  }

  lemma TriedAll(a: seq<Point>, ring: seq<nat>, start: nat, tries: nat)
    requires InRange(ring, |a|) && Tried(a, ring, start, tries) && start < |ring| <= tries
    ensures Stuck(a, ring)
  {
    hide IsEar;
  }

  lemma TriedNone(a: seq<Point>, ring: seq<nat>, start: nat)
    requires InRange(ring, |a|)
    requires start < |ring|
    ensures Tried(a, ring, start, 0)
  {
    hide IsEar;
  }

  lemma NoCuts(a: seq<Point>)
    ensures Progress(a, [], [], [], StartRing(a)) && FirstEars(a, StartRing(a), 0, [])
  {
  }

  /** The clipping loop, with a budget of two rounds of failed attempts per ear. */
  method ClipEars(a: seq<Point>, e: array<nat>)
    returns (f: seq<(Point, Point, Point)>, h: seq<Triangle>, warned: bool,
             ghost cuts: seq<nat>, ghost ring: seq<nat>)
    requires e.Length == |a| >= 3 && e[..] == StartRing(a)
    modifies e
    ensures Progress(a, cuts, h, f, ring)
    ensures FirstEars(a, StartRing(a), 0, cuts)
    ensures if warned then |ring| > 2 && Stuck(a, ring) else |ring| == 2
  {
    hide IsEar, FirstEar, FirstEars, Clipping, Corners, Stuck, Tried, Follows;
    var g := |a|;
    f, h, warned := [], [], false;
    cuts, ring := [], e[..g];
    NoCuts(a);
    NothingTried(a, ring, 0);
    assert ring == StartRing(a);
    var o := 2 * g;
    var l: nat := g - 1;
    ghost var start: nat, tries: nat := 0, 0;
    while g > 2
      invariant 2 <= g <= e.Length && 0 <= o && o + tries == 2 * g && l <= g
      invariant ring == e[..g] && Progress(a, cuts, h, f, ring)
      invariant FirstEars(a, StartRing(a), 0, cuts) && start == StartAfter(0, cuts, g)
      invariant Tried(a, ring, start, tries) && (g > 2 ==> Follows(start, From(l, g), g, tries))
      decreases g, o
    {
      if o <= 0 {
        TriedAll(a, ring, start, tries);
        warned := true;
        break;
      }
      o := o - 1;
      var i, k, p;
      i, l, k, p := TryNext(a, e, g, l);
      if p {
        TriedIsFirst(a, ring, start, l, tries);
        FirstEarsAppend(a, StartRing(a), 0, cuts, h, ring, l);
        f, h := ClipEar(a, e, g, i, l, k, f, h, cuts);
        cuts := cuts + [l];
        ring := WithoutAt(ring, l);
        g := g - 1;
        o, tries := 2 * g, 0;
        start := From(l, g);
        if g > 2 { NothingTried(a, ring, start); } else { TriedNone(a, ring, start); }
      } else {
        TriedOneMore(a, ring, start, l, tries);
        tries := tries + 1;
      }
    }
  }

  /** The ears of a polygon, clipped one by one. A warning is given exactly when a ring of
      more than two vertices has no ear left at any position. */
  method Triangulate(a: seq<Point>, asIndices: bool)
    returns (result: Triangulation, warned: bool,
             ghost cuts: seq<nat>, ghost ts: seq<Triangle>, ghost rest: seq<nat>)
    ensures |a| < 3 ==> result == NoPolygon && !warned
    ensures |a| >= 3 ==> Clipping(a, StartRing(a), cuts, ts, rest) && WithinPolygon(a, ts)
    ensures |a| >= 3 ==> FirstEars(a, StartRing(a), 0, cuts) && Over(a, rest)
    ensures |a| >= 3 ==> result == if asIndices then Indices(ts) else Points(Corners(a, ts))
    ensures |a| >= 3 && !asIndices ==>
              && result.Points? && |result.corners| == |ts|
              && forall k | 0 <= k < |ts| :: result.corners[k] == (a[ts[k].a], a[ts[k].b], a[ts[k].c])
    ensures |a| >= 3 ==> if warned then |rest| > 2 && Stuck(a, rest) else |rest| == 2
    ensures ConvexPolygon(a) ==> !warned
  {
    hide IsEar, FirstEars, Clipping, Stuck, ConvexPolygon, SignedArea;
    if |a| < 3 { return NoPolygon, false, [], [], []; }
    var e := InitialRing(a);
    var f, h;
    f, h, warned, cuts, rest := ClipEars(a, e);
    ts := h;
    if ConvexPolygon(a) && warned { ConvexIsNeverStuck(a, cuts, ts, rest); }
    result := if asIndices then Indices(h) else Points(f);
  }

  /** No position of the ring is an ear. */
  ghost predicate Stuck(a: seq<Point>, ring: seq<nat>) {
    InRange(ring, |a|) && forall l | 0 <= l < |ring| :: !IsEar(a, ring, l)
  }

  function Corners(a: seq<Point>, ts: seq<Triangle>): (corners: seq<(Point, Point, Point)>)
    requires WithinPolygon(a, ts)
  {
    seq(|ts|, k requires 0 <= k < |ts| => (a[ts[k].a], a[ts[k].b], a[ts[k].c]))
  }
}
