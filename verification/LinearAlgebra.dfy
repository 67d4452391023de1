/** Exact real linear algebra: products, row additions and the cofactor determinant.
    Nothing here follows an algorithm of the repository; these are the reference
    definitions that the matrix methods are proved against. */
module LinearAlgebra {

  type Row = seq<real>
  type Grid = seq<Row>

  ghost predicate Rectangular(a: Grid, rows: nat, cols: nat) {
    |a| == rows && forall i | 0 <= i < rows :: |a[i]| == cols
  }

  ghost predicate Square(a: Grid) {
    Rectangular(a, |a|, |a|)
  }

  // ----- sums and products ---------------------------------------------------

  /** Multiplication under a name, so that equal factors are seen to give equal products. */
  function Times(x: real, y: real): real {
    x * y
  }

  function Dot(u: Row, v: Row, n: nat): real
    requires n <= |u| && n <= |v|
  {
    if n == 0 then 0.0 else Dot(u, v, n - 1) + Times(u[n - 1], v[n - 1])
  }

  function Column(a: Grid, p: nat): Row
    requires forall i | 0 <= i < |a| :: p < |a[i]|
  {
    seq(|a|, i requires 0 <= i < |a| => a[i][p])
  }

  /** The matrix product, entry by entry. */
  function Product(a: Grid, b: Grid, cols: nat): (c: Grid)
    requires forall i | 0 <= i < |a| :: |a[i]| == |b|
    requires forall i | 0 <= i < |b| :: |b[i]| == cols
  {
    seq(|a|, i requires 0 <= i < |a| =>
      seq(cols, j requires 0 <= j < cols => Dot(a[i], Column(b, j), |b|)))
  }

  function Unit(n: nat, i: nat): Row {
    seq(n, j => if i == j then 1.0 else 0.0)
  }

  function Identity(n: nat): Grid {
    seq(n, i requires 0 <= i < n => Unit(n, i))
  }

  /** u + c*v. */
  function Combine(u: Row, v: Row, c: real): (w: Row)
    requires |u| == |v|
    ensures |w| == |u| && forall p | 0 <= p < |u| :: w[p] == u[p] + Times(c, v[p])
  {
    seq(|u|, p requires 0 <= p < |u| => u[p] + Times(c, v[p]))
  }

  lemma {:induction false} DotCombine(u: Row, v: Row, c: real, x: Row, n: nat)
    requires |u| == |v| && n <= |u| && n <= |x|
    ensures Dot(Combine(u, v, c), x, n) == Dot(u, x, n) + Times(c, Dot(v, x, n))
  {
    if n > 0 {
      DotCombine(u, v, c, x, n - 1);
      var d, e := Dot(u, x, n - 1), Dot(v, x, n - 1);
      Distribute(1.0, u[n - 1], v[n - 1], c, x[n - 1]);
      Distribute(c, e, Times(v[n - 1], x[n - 1]), 1.0, 1.0);
    }
  }

  lemma {:induction false} DotCommutes(u: Row, v: Row, n: nat)
    requires n <= |u| && n <= |v|
    ensures Dot(u, v, n) == Dot(v, u, n)
  {
    if n > 0 {
      DotCommutes(u, v, n - 1);
    }
  }

  lemma {:induction false} DotZero(u: Row, v: Row, n: nat)
    requires n <= |u| && n <= |v|
    requires forall p | 0 <= p < n :: u[p] == 0.0 || v[p] == 0.0
    ensures Dot(u, v, n) == 0.0
  {
    if n > 0 {
      DotZero(u, v, n - 1);
    }
  }

  lemma {:induction false} DotUnit(u: Row, size: nat, k: nat, n: nat)
    requires n <= |u| && n <= size
    ensures Dot(u, Unit(size, k), n) == if k < n then u[k] else 0.0
  {
    if n > 0 {
      DotUnit(u, size, k, n - 1);
    }
  }

  /** (u*B)*x == u*(B*x): the bilinear form behind associativity of the product. */
  lemma {:induction false} DotExchange(u: Row, b: Grid, x: Row, ub: Row, bx: Row, m: nat)
    requires |u| == |b| == |bx| && |ub| == |x|
    requires forall i | 0 <= i < |b| :: |b[i]| == |x|
    requires forall i | 0 <= i < |b| :: bx[i] == Dot(b[i], x, |x|)
    requires m <= |b|
    requires forall p | 0 <= p < |x| :: ub[p] == Dot(u, Column(b, p), m)
    ensures Dot(ub, x, |x|) == Dot(u, bx, m)
    decreases m
  {
    if m == 0 {
      DotZero(ub, x, |x|);
    } else {
      hide Dot, Times;
      var shorter := seq(|x|, p requires 0 <= p < |x| => Dot(u, Column(b, p), m - 1));
      DotExchange(u, b, x, shorter, bx, m - 1);
      forall p | 0 <= p < |x| ensures ub[p] == shorter[p] + Times(u[m - 1], b[m - 1][p]) {
        DotLast(u, Column(b, p), m);
      }
      assert ub == Combine(shorter, b[m - 1], u[m - 1]);
      DotCombine(shorter, b[m - 1], u[m - 1], x, |x|);
      DotLast(u, bx, m);
    }
  }

  lemma DotLast(u: Row, v: Row, n: nat)
    requires 0 < n <= |u| && n <= |v|
    ensures Dot(u, v, n) == Dot(u, v, n - 1) + Times(u[n - 1], v[n - 1])
  {
  }

  /** For matrices whose inner dimensions fit. */
  lemma ProductAssociates(a: Grid, b: Grid, c: Grid, n: nat, m: nat, k: nat)
    requires (forall i | 0 <= i < |a| :: |a[i]| == n) && Rectangular(b, n, m) && Rectangular(c, m, k)
    ensures Product(Product(a, b, m), c, k) == Product(a, Product(b, c, k), k)
  {
    var ab, bc := Product(a, b, m), Product(b, c, k);
    forall i, j | 0 <= i < |a| && 0 <= j < k
      ensures Dot(ab[i], Column(c, j), m) == Dot(a[i], Column(bc, j), n)
    {
      DotExchange(a[i], b, Column(c, j), ab[i], Column(bc, j), n);
    }
    var left, right := Product(ab, c, k), Product(a, bc, k);
    forall i | 0 <= i < |a| ensures left[i] == right[i] {
    }
  }

  lemma ProductIdentity(a: Grid, n: nat)
    requires Rectangular(a, n, n)
    ensures Product(a, Identity(n), n) == a && Product(Identity(n), a, n) == a
  {
    var right, left := Product(a, Identity(n), n), Product(Identity(n), a, n);
    forall i, j | 0 <= i < n && 0 <= j < n
      ensures right[i][j] == a[i][j] && left[i][j] == a[i][j]
    {
      assert Column(Identity(n), j) == Unit(n, j);
      DotUnit(a[i], n, j, n);
      DotCommutes(Unit(n, i), Column(a, j), n);
      DotUnit(Column(a, j), n, i, n);
    }
    forall i | 0 <= i < n ensures right[i] == a[i] && left[i] == a[i] {
    }
  }

  // ----- the determinant by cofactor expansion along the first column ---------

  function Sign(k: nat): real {
    if k % 2 == 0 then 1.0 else -1.0
  }

  /** a without row k and without its first column. */
  function Minor(a: Grid, k: nat): (m: Grid)
    requires k < |a| && forall i | 0 <= i < |a| :: |a[i]| == |a|
    ensures |m| == |a| - 1 && forall i | 0 <= i < |m| :: |m[i]| == |m|
  {
    seq(|a| - 1, i requires 0 <= i < |a| - 1 => if i < k then a[i][1..] else a[i + 1][1..])
  }

  function Det(a: Grid): real
    requires forall i | 0 <= i < |a| :: |a[i]| == |a|
    decreases |a|, |a| + 1
  {
    if |a| == 0 then 1.0 else CofactorSum(a, |a|)
  }

  function CofactorSum(a: Grid, k: nat): real
    requires forall i | 0 <= i < |a| :: |a[i]| == |a|
    requires k <= |a|
    decreases |a|, k, 1
  {
    if k == 0 then 0.0 else CofactorSum(a, k - 1) + Term(a, k - 1)
  }

  function Term(a: Grid, k: nat): real
    requires forall i | 0 <= i < |a| :: |a[i]| == |a|
    requires k < |a|
    decreases |a|, k, 0
  {
    Times(Times(Sign(k), a[k][0]), Det(Minor(a, k)))
  }

  lemma MinorOfUpdate(a: Grid, r: nat, u: Row, k: nat)
    requires Square(a) && r < |a| && k < |a| && |u| == |a|
    ensures k == r ==> Minor(a[r := u], k) == Minor(a, k)
    ensures k != r ==>
              Minor(a[r := u], k) == Minor(a, k)[if r < k then r else r - 1 := u[1..]]
  {
  }

  /** The determinant is linear in every row. */
  lemma {:induction false} DetLinear(a: Grid, r: nat, u: Row, v: Row, c: real)
    requires Square(a) && r < |a| && |u| == |v| == |a|
    ensures Det(a[r := Combine(u, v, c)]) == Det(a[r := u]) + c * Det(a[r := v])
    decreases |a|, |a| + 1
  {
    var w, x, y := a[r := Combine(u, v, c)], a[r := u], a[r := v];
    forall k | 0 <= k < |a| ensures Term(w, k) == Term(x, k) + Times(c, Term(y, k)) {
      TermLinear(a, r, u, v, c, k);
    }
    SumLinear(w, x, y, c, |a|);
  }

  lemma {:induction false} SumLinear(a: Grid, b: Grid, d: Grid, c: real, k: nat)
    requires Square(a) && Square(b) && Square(d) && k <= |a| == |b| == |d|
    requires forall j | 0 <= j < k :: Term(a, j) == Term(b, j) + Times(c, Term(d, j))
    ensures CofactorSum(a, k) == CofactorSum(b, k) + Times(c, CofactorSum(d, k))
    decreases k
  {
    if k > 0 {
      SumLinear(a, b, d, c, k - 1);
      LinearStep(CofactorSum(a, k - 1), CofactorSum(b, k - 1), CofactorSum(d, k - 1),
                 Term(a, k - 1), Term(b, k - 1), Term(d, k - 1), c);
    }
  }

  lemma CombineTail(u: Row, v: Row, c: real)
    requires |u| == |v| > 0
    ensures Combine(u, v, c)[1..] == Combine(u[1..], v[1..], c)
  {
  }

  lemma {:induction false} TermLinear(a: Grid, r: nat, u: Row, v: Row, c: real, k: nat)
    requires Square(a) && r < |a| && |u| == |v| == |a| && k < |a|
    ensures Term(a[r := Combine(u, v, c)], k) == Term(a[r := u], k) + c * Term(a[r := v], k)
    decreases |a|, k
  {
    var w := Combine(u, v, c);
    MinorOfUpdate(a, r, u, k);
    MinorOfUpdate(a, r, v, k);
    MinorOfUpdate(a, r, w, k);
    if k == r {
      var s, d := Sign(k), Det(Minor(a, k));
      Distribute(s, u[0], v[0], c, d);
    } else {
      CombineTail(u, v, c);
      var q := if r < k then r else r - 1;
      DetLinear(Minor(a, k), q, u[1..], v[1..], c);
      Scale(Sign(k) * a[k][0], Det(Minor(a[r := u], k)), Det(Minor(a[r := v], k)), c);
    }
  }

  lemma Distribute(s: real, u: real, v: real, c: real, d: real)
    ensures s * (u + c * v) * d == s * u * d + c * (s * v * d)
  {
  }

  lemma LinearStep(x: real, y: real, z: real, x': real, y': real, z': real, c: real)
    requires x == y + c * z && x' == y' + c * z'
    ensures x + x' == (y + y') + c * (z + z')
  {
  }

  lemma Scale(s: real, d: real, e: real, c: real)
    ensures s * (d + c * e) == s * d + c * (s * e)
  {
  }

  lemma {:induction false} DetAdjacentEqual(a: Grid, r: nat)
    requires Square(a) && r + 1 < |a| && a[r] == a[r + 1]
    ensures Det(a) == 0.0
    decreases |a|, |a| + 1
  {
    CofactorSumAdjacent(a, r, |a|);
  }

  lemma {:induction false} CofactorSumAdjacent(a: Grid, r: nat, k: nat)
    requires Square(a) && r + 1 < |a| && a[r] == a[r + 1] && k <= |a|
    ensures CofactorSum(a, k) == if k == r + 1 then Term(a, r) else 0.0
    decreases |a|, k
  {
    if k > 0 {
      CofactorSumAdjacent(a, r, k - 1);
      if k - 1 == r + 1 {
        OppositeTerms(a, r);
      } else if k - 1 != r {
        TermAdjacent(a, r, k - 1);
      }
    }
  }

  lemma OppositeTerms(a: Grid, r: nat)
    requires Square(a) && r + 1 < |a| && a[r] == a[r + 1]
    ensures Term(a, r + 1) == -Term(a, r)
  {
    assert Minor(a, r) == Minor(a, r + 1);
    assert Sign(r + 1) == -Sign(r);
  }

  lemma {:induction false} TermAdjacent(a: Grid, r: nat, k: nat)
    requires Square(a) && r + 1 < |a| && a[r] == a[r + 1] && k < |a| && k != r && k != r + 1
    ensures Term(a, k) == 0.0
    decreases |a|, k
  {
    var q := if r < k then r else r - 1;
    assert Minor(a, k)[q] == Minor(a, k)[q + 1];
    DetAdjacentEqual(Minor(a, k), q);
  }

  lemma DetAdjacentSwap(a: Grid, r: nat)
    requires Square(a) && r + 1 < |a|
    ensures Det(a[r := a[r + 1]][r + 1 := a[r]]) == -Det(a)
  {
    // Expand the determinant with u + v in both rows.
    var u, v := a[r], a[r + 1];
    var s := Combine(u, v, 1.0);
    assert s == Combine(v, u, 1.0);
    var both := a[r := s][r + 1 := s];
    DetAdjacentEqual(both, r);
    DetLinear(a[r + 1 := s], r, u, v, 1.0);
    assert both == a[r + 1 := s][r := s];
    assert a[r + 1 := s][r := u] == a[r := u][r + 1 := s];
    assert a[r + 1 := s][r := v] == a[r := v][r + 1 := s];
    DetLinear(a[r := u], r + 1, u, v, 1.0);
    DetLinear(a[r := v], r + 1, u, v, 1.0);
    DetAdjacentEqual(a[r := u][r + 1 := u], r);
    DetAdjacentEqual(a[r := v][r + 1 := v], r);
    assert a[r := u][r + 1 := v] == a;
  }

  lemma {:induction false} DetEqualRows(a: Grid, r: nat, s: nat)
    requires Square(a) && r < s < |a| && a[r] == a[s]
    ensures Det(a) == 0.0
    decreases s - r
  {
    if s == r + 1 {
      DetAdjacentEqual(a, r);
    } else {
      DetAdjacentSwap(a, s - 1);
      DetEqualRows(a[s - 1 := a[s]][s := a[s - 1]], r, s - 1);
    }
  }

  // ----- row additions --------------------------------------------------------

  /** Adds c times row s to row r. */
  function AddRow(a: Grid, r: nat, s: nat, c: real): (b: Grid)
    requires r < |a| && s < |a| && |a[r]| == |a[s]|
  {
    a[r := Combine(a[r], a[s], c)]
  }

  /** Adding a multiple of one row to another leaves the determinant unchanged. */
  lemma DetAddRow(a: Grid, r: nat, s: nat, c: real)
    requires Square(a) && r < |a| && s < |a| && r != s
    ensures Det(AddRow(a, r, s, c)) == Det(a)
  {
    DetLinear(a, r, a[r], a[s], c);
    assert a[r := a[r]] == a;
    var twice := a[r := a[s]];
    if r < s { DetEqualRows(twice, r, s); } else { DetEqualRows(twice, s, r); }
  }

  ghost predicate UpperTriangular(a: Grid) {
    forall i, p | 0 <= i < |a| && 0 <= p < |a[i]| && p < i :: a[i][p] == 0.0
  }

  function DiagonalProduct(a: Grid, n: nat): real
    requires n <= |a| && forall i | 0 <= i < n :: n <= |a[i]|
  {
    if n == 0 then 1.0 else DiagonalProduct(a, n - 1) * a[n - 1][n - 1]
  }

  lemma {:induction false} DiagonalProductSplit(a: Grid, k: nat)
    requires Square(a) && 1 <= k <= |a|
    ensures DiagonalProduct(a, k) == a[0][0] * DiagonalProduct(Minor(a, 0), k - 1)
  {
    if k > 1 {
      DiagonalProductSplit(a, k - 1);
    }
  }

  lemma {:induction false} DetTriangular(a: Grid)
    requires Square(a) && UpperTriangular(a)
    ensures Det(a) == DiagonalProduct(a, |a|)
    decreases |a|
  {
    if |a| > 0 {
      DetTriangular(Minor(a, 0));
      DiagonalProductSplit(a, |a|);
      FirstColumnOnly(a, |a|);
    }
  }

  lemma {:induction false} FirstColumnOnly(a: Grid, k: nat)
    requires Square(a) && UpperTriangular(a) && 1 <= k <= |a|
    ensures CofactorSum(a, k) == a[0][0] * Det(Minor(a, 0))
  {
    if k > 1 {
      FirstColumnOnly(a, k - 1);
      assert a[k - 1][0] == 0.0;
    } else {
      assert CofactorSum(a, 0) == 0.0;
    }
  }

  lemma {:induction false} DiagonalProductNonzero(a: Grid, n: nat)
    requires n <= |a| && forall i | 0 <= i < n :: n <= |a[i]|
    ensures DiagonalProduct(a, n) != 0.0 <==> forall i | 0 <= i < n :: a[i][i] != 0.0
  {
    if n > 0 {
      DiagonalProductNonzero(a, n - 1);
    }
  }
}
