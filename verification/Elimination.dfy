/** Gaussian elimination as the list of row additions it performs. */
module Elimination {
  import opened LinearAlgebra

  /** Add factor times row source to row target. */
  datatype Op = Op(target: nat, source: nat, factor: real)

  ghost predicate OpsFor(ops: seq<Op>, rows: nat) {
    forall i | 0 <= i < |ops| ::
      ops[i].target < rows && ops[i].source < rows && ops[i].target != ops[i].source
  }

  /** A rectangular grid with at least one row and one column. */
  ghost predicate Regular(m: Grid) {
    0 < |m| && 0 < |m[0]| && forall k | 0 <= k < |m| :: |m[k]| == |m[0]|
  }

  function Apply(m: Grid, ops: seq<Op>): (r: Grid)
    requires OpsFor(ops, |m|) && forall i | 0 <= i < |m| :: |m[i]| == |m[0]|
    ensures |r| == |m| && forall i | 0 <= i < |m| :: |r[i]| == |m[0]|
    decreases |ops|
  {
    if ops == [] then m
    else Apply(AddRow(m, ops[0].target, ops[0].source, ops[0].factor), ops[1..])
  }

  lemma {:induction false} ApplyAppend(m: Grid, first: seq<Op>, second: seq<Op>)
    requires OpsFor(first, |m|) && OpsFor(second, |m|)
    requires forall i | 0 <= i < |m| :: |m[i]| == |m[0]|
    ensures OpsFor(first + second, |m|)
    ensures Apply(m, first + second) == Apply(Apply(m, first), second)
    decreases |first|
  {
    if first == [] {
      assert first + second == second;
    } else {
      assert (first + second)[1..] == first[1..] + second;
      ApplyAppend(AddRow(m, first[0].target, first[0].source, first[0].factor), first[1..], second);
    }
  }

  // ----- which additions toRightTriangular performs ----------------------------

  /** The first row at or after j with a nonzero entry in column i, or |m|. */
  function FirstNonzero(m: Grid, i: nat, j: nat): (r: nat)
    requires j <= |m| && forall k | 0 <= k < |m| :: i < |m[k]|
    ensures j <= r <= |m|
    ensures r < |m| ==> m[r][i] != 0.0
    ensures forall k | j <= k < r :: m[k][i] == 0.0
    decreases |m| - j
  {
    if j == |m| || m[j][i] != 0.0 then j else FirstNonzero(m, i, j + 1)
  }

  /** A zero pivot is repaired by adding the first lower row with a nonzero entry. */
  function PivotOps(m: Grid, i: nat): (ops: seq<Op>)
    requires i < |m| && forall k | 0 <= k < |m| :: i < |m[k]|
    ensures OpsFor(ops, |m|)
  {
    var j := FirstNonzero(m, i, i + 1);
    if m[i][i] == 0.0 && j < |m| then [Op(i, j, 1.0)] else []
  }

  /** Clears column i in rows j and below, given a nonzero pivot. */
  function ClearOps(m: Grid, i: nat, j: nat): (ops: seq<Op>)
    requires i < j <= |m| && forall k | 0 <= k < |m| :: i < |m[k]|
    requires m[i][i] != 0.0
    ensures OpsFor(ops, |m|)
    decreases |m| - j
  {
    if j == |m| then [] else [Op(j, i, -(m[j][i] / m[i][i]))] + ClearOps(m, i, j + 1)
  }

  /** Below the last column there is nothing left to add. */
  function ColumnOps(m: Grid, i: nat): (ops: seq<Op>)
    requires Regular(m) && i < |m|
    ensures OpsFor(ops, |m|)
    ensures i >= |m[0]| ==> ops == []
  {
    if i >= |m[0]| then [] else
    var repaired := Apply(m, PivotOps(m, i));
    if repaired[i][i] == 0.0 then PivotOps(m, i)
    else PivotOps(m, i) + ClearOps(repaired, i, i + 1)
  }

  function TriangularOps(m: Grid, i: nat): (ops: seq<Op>)
    requires Regular(m) && i <= |m|
    ensures OpsFor(ops, |m|)
    decreases |m| - i
  {
    if i == |m| then [] else ColumnOps(m, i) + TriangularOps(Apply(m, ColumnOps(m, i)), i + 1)
  }

  /** m after the row additions for columns i and up. */
  function Eliminated(m: Grid, i: nat): Grid
    requires Regular(m) && i <= |m|
  {
    Apply(m, TriangularOps(m, i))
  }

  /** What toRightTriangular computes, as exact row additions. */
  function RightTriangular(m: Grid): Grid
    requires Regular(m)
  {
    Eliminated(m, 0)
  }

  /** Columns before i are zero below the diagonal. */
  ghost predicate Cleared(m: Grid, i: nat) {
    forall r, p | 0 <= r < |m| && 0 <= p < |m[r]| && p < i && p < r :: m[r][p] == 0.0
  }

  lemma SubtractMultiple(x: real, y: real, d: real)
    requires d != 0.0
    ensures x + Times(-(x / d), d) == 0.0
    ensures x + Times(-(x / d), y) == x - y * (x / d)
  {
  }

  lemma {:induction false} ClearOpsEffect(m: Grid, i: nat, j: nat)
    requires Regular(m) && i < j <= |m| && i < |m[0]|
    requires m[i][i] != 0.0
    ensures var r := Apply(m, ClearOps(m, i, j));
      && (forall k | 0 <= k < j :: r[k] == m[k])
      && (forall k | j <= k < |m| :: r[k] == Reduced(m, i, k))
    decreases |m| - j
  {
    if j < |m| {
      var next := m[j := Reduced(m, i, j)];
      ClearOpsSame(m, next, i, j + 1);
      ClearOpsStep(m, i, j, next);
      ClearOpsEffect(next, i, j + 1);
      forall k | j < k < |m| ensures Reduced(next, i, k) == Reduced(m, i, k) {
      }
    }
  }

  /** Row k minus the multiple of row i that clears its entry in column i. */
  function Reduced(m: Grid, i: nat, k: nat): Row
    requires i < |m| && k < |m| && i < |m[k]| == |m[i]| && m[i][i] != 0.0
  {
    Combine(m[k], m[i], -(m[k][i] / m[i][i]))
  }

  lemma ClearOpsStep(m: Grid, i: nat, j: nat, next: Grid)
    requires Regular(m) && i < j < |m| && i < |m[0]|
    requires m[i][i] != 0.0 && next == m[j := Reduced(m, i, j)]
    requires ClearOps(m, i, j + 1) == ClearOps(next, i, j + 1)
    ensures Apply(m, ClearOps(m, i, j)) == Apply(next, ClearOps(next, i, j + 1))
  {
  }

  lemma {:induction false} ClearOpsSame(m: Grid, next: Grid, i: nat, j: nat)
    requires 0 <= i < j <= |m| == |next| && forall k | 0 <= k < |m| :: i < |m[k]| && i < |next[k]|
    requires m[i][i] == next[i][i] != 0.0
    requires forall k | j <= k < |m| :: m[k][i] == next[k][i]
    ensures ClearOps(m, i, j) == ClearOps(next, i, j)
    decreases |m| - j
  {
    if j < |m| {
      ClearOpsSame(m, next, i, j + 1);
    }
  }

  lemma ColumnOpsClear(m: Grid, i: nat)
    requires Regular(m) && i < |m|
    requires Cleared(m, i)
    ensures i < |m[0]| ==> Cleared(Apply(m, PivotOps(m, i)), i)
    ensures Cleared(Apply(m, ColumnOps(m, i)), i + 1)
  {
    if i >= |m[0]| { return; }
    PivotOpsEffect(m, i);
    hide Apply, PivotOps, ClearOps, Cleared;
    var repaired := Apply(m, PivotOps(m, i));
    if repaired[i][i] != 0.0 {
      ApplyAppend(m, PivotOps(m, i), ClearOps(repaired, i, i + 1));
      ClearOpsClear(repaired, i);
    }
  }

  lemma ClearOpsClear(m: Grid, i: nat)
    requires Regular(m) && i < |m| && i < |m[0]|
    requires Cleared(m, i) && m[i][i] != 0.0
    ensures Cleared(Apply(m, ClearOps(m, i, i + 1)), i + 1)
  {
    ClearOpsEffect(m, i, i + 1);
    var r := Apply(m, ClearOps(m, i, i + 1));
    forall k, p | 0 <= k < |m| && 0 <= p < |m[k]| && p < i + 1 && p < k ensures r[k][p] == 0.0 {
      if k > i {
        ReducedZeros(m, i, k, p);
      }
    }
  }

  /** The exact subtraction gives zero in the columns where the program writes zero. */
  lemma ReducedZeros(m: Grid, i: nat, k: nat, p: nat)
    requires Regular(m) && i < k < |m| && i < |m[0]|
    requires Cleared(m, i) && m[i][i] != 0.0 && p <= i
    ensures Reduced(m, i, k)[p] == 0.0
  {
  }

  /** Adding a row instead of swapping finds a nonzero pivot whenever the column has one. */
  lemma PivotOpsEffect(m: Grid, i: nat)
    requires Regular(m) && i < |m| && i < |m[0]|
    ensures var r := Apply(m, PivotOps(m, i));
      && (forall k | 0 <= k < |m| && k != i :: r[k] == m[k])
      && (r[i] == m[i] || exists j | i < j < |m| :: r[i] == Combine(m[i], m[j], 1.0))
      && (r[i][i] == 0.0 <==> forall k | i <= k < |m| :: m[k][i] == 0.0)
  {
  }

  /** When all columns are cleared, the rows below the last column are zero. */
  lemma RestIsZero(m: Grid, i: nat)
    requires Regular(m) && |m[0]| <= i && Cleared(m, i)
    ensures forall j, p | i < j < |m| && 0 <= p < |m[j]| :: m[j][p] == 0.0
  {
  }

  /** One column in two phases: repair the pivot, then clear below it. */
  lemma ColumnOpsSplit(m: Grid, i: nat)
    requires Regular(m) && i < |m| && i < |m[0]|
    ensures var r := Apply(m, PivotOps(m, i));
      Apply(m, ColumnOps(m, i)) == if r[i][i] == 0.0 then r else Apply(r, ClearOps(r, i, i + 1))
  {
    var r := Apply(m, PivotOps(m, i));
    if r[i][i] != 0.0 {
      ApplyAppend(m, PivotOps(m, i), ClearOps(r, i, i + 1));
    }
  }

  lemma TriangularOpsStep(m: Grid, i: nat, next: Grid)
    requires Regular(m) && i < |m| && next == Apply(m, ColumnOps(m, i))
    ensures Eliminated(m, i) == Eliminated(next, i + 1)
    ensures i + 1 == |m| ==> Eliminated(next, i + 1) == next
  {
    ApplyAppend(m, ColumnOps(m, i), TriangularOps(next, i + 1));
  }

  lemma {:induction false} TriangularOpsClear(m: Grid, i: nat)
    requires Regular(m) && i <= |m|
    requires Cleared(m, i)
    ensures Cleared(Apply(m, TriangularOps(m, i)), |m|)
    decreases |m| - i
  {
    if i < |m| {
      ColumnOpsClear(m, i);
      var next := Apply(m, ColumnOps(m, i));
      TriangularOpsClear(next, i + 1);
      ApplyAppend(m, ColumnOps(m, i), TriangularOps(next, i + 1));
    }
  }

  /** The result is upper triangular. */
  lemma RightTriangularIsUpper(m: Grid)
    requires Regular(m)
    ensures UpperTriangular(RightTriangular(m))
  {
    TriangularOpsClear(m, 0);
  }

  // ----- the passes entry by entry, without the list of additions -----------------

  /** Row j is the first row below i with a nonzero entry in column i. */
  ghost predicate FirstBelow(m: Grid, i: nat, j: nat)
    requires forall k | 0 <= k < |m| :: i < |m[k]|
  {
    i < j < |m| && m[j][i] != 0.0 && forall k | i < k < j :: m[k][i] == 0.0
  }

  /** From m to q only row i may change: it stays when the pivot is not zero or the column has
      nothing below it, and else gains the first lower row with a nonzero entry. */
  ghost predicate Repaired(m: Grid, i: nat, q: Grid)
    requires Regular(m) && i < |m| && i < |m[0]|
  {
    && |q| == |m|
    && (forall k | 0 <= k < |m| && k != i :: q[k] == m[k])
    && (m[i][i] != 0.0 ==> q[i] == m[i])
    && ((forall k | i <= k < |m| :: m[k][i] == 0.0) ==> q[i] == m[i])
    && |q[i]| == |m[i]|
    && forall j: nat | m[i][i] == 0.0 && FirstBelow(m, i, j) ::
         forall p | 0 <= p < |m[i]| :: q[i][p] == m[i][p] + m[j][p]
  }

  /** A row without the multiple of the pivot row that makes its entry in column i zero. */
  ghost predicate Loses(row: Row, pivot: Row, i: nat, less: Row)
    requires i < |row| == |pivot| && pivot[i] != 0.0
  {
    |less| == |row| && forall p | 0 <= p < |row| :: less[p] == row[p] - pivot[p] * (row[i] / pivot[i])
  }

  /** From q to r every row below i loses the multiple of row i that makes its entry in column
      i zero; under a zero pivot nothing changes. */
  ghost predicate Subtracted(q: Grid, i: nat, r: Grid)
    requires Regular(q) && i < |q| && i < |q[0]|
  {
    && |r| == |q|
    && (forall k | 0 <= k <= i :: r[k] == q[k])
    && (q[i][i] == 0.0 ==> r == q)
    && forall k | i < k < |q| && q[i][i] != 0.0 :: Loses(q[k], q[i], i, r[k])
  }

  /** One pass, for column i; a matrix with no such column is left as it is. */
  ghost predicate Pass(m: Grid, i: nat, r: Grid)
    requires Regular(m) && i < |m|
  {
    if i >= |m[0]| then r == m
    else exists q :: Repaired(m, i, q) && Regular(q) && i < |q[0]| && Subtracted(q, i, r)
  }

  /** The passes for columns i, i + 1 and on, one for every row, lead from m to r. */
  ghost predicate Reaches(m: Grid, i: nat, r: Grid)
    requires Regular(m) && i <= |m|
    decreases |m| - i
  {
    if i == |m| then r == m
    else exists next :: Pass(m, i, next) && Regular(next) && |next| == |m| && Reaches(next, i + 1, r)
  }

  lemma PivotRepairs(m: Grid, i: nat)
    requires Regular(m) && i < |m| && i < |m[0]|
    ensures Repaired(m, i, Apply(m, PivotOps(m, i)))
  {
    var first := FirstNonzero(m, i, i + 1);
    forall j: nat | FirstBelow(m, i, j) ensures j == first {
      assert first < |m|;
    }
    PivotOpsEffect(m, i);
    if m[i][i] == 0.0 && first < |m| {
      assert Apply(m, PivotOps(m, i)) == AddRow(m, i, first, 1.0);
    }
  }

  lemma ClearOpsSubtract(q: Grid, i: nat)
    requires Regular(q) && i < |q| && i < |q[0]| && q[i][i] != 0.0
    ensures Subtracted(q, i, Apply(q, ClearOps(q, i, i + 1)))
  {
    ClearOpsEffect(q, i, i + 1);
    hide Loses;
    forall k | i < k < |q| ensures Loses(q[k], q[i], i, Reduced(q, i, k)) {
      ReducedLoses(q, i, k);
    }
  }

  lemma ReducedLoses(q: Grid, i: nat, k: nat)
    requires Regular(q) && i < k < |q| && i < |q[0]| && q[i][i] != 0.0
    ensures Loses(q[k], q[i], i, Reduced(q, i, k))
  {
    forall p | 0 <= p < |q[k]| ensures Reduced(q, i, k)[p] == q[k][p] - q[i][p] * (q[k][i] / q[i][i]) {
      SubtractMultiple(q[k][i], q[i][p], q[i][i]);
    }
  }

  lemma ColumnPasses(m: Grid, i: nat)
    requires Regular(m) && i < |m|
    ensures Pass(m, i, Apply(m, ColumnOps(m, i)))
  {
    if i < |m[0]| {
      ColumnOpsSplit(m, i);
      PivotRepairs(m, i);
      hide Repaired, Subtracted, PivotOps, ClearOps, ColumnOps;
      var q := Apply(m, PivotOps(m, i));
      if q[i][i] == 0.0 {
        NothingSubtracted(q, i);
      } else {
        ClearOpsSubtract(q, i);
      }
    }
  }

  lemma NothingSubtracted(q: Grid, i: nat)
    requires Regular(q) && i < |q| && i < |q[0]| && q[i][i] == 0.0
    ensures Subtracted(q, i, q)
  {
  }

  lemma ReachesStep(m: Grid, i: nat, next: Grid, r: Grid)
    requires Regular(m) && i < |m| && Pass(m, i, next) && Regular(next) && |next| == |m|
    requires Reaches(next, i + 1, r)
    ensures Reaches(m, i, r)
  {
    hide Pass;
  }

  lemma PassKeepsAbove(m: Grid, i: nat, r: Grid)
    requires Regular(m) && i < |m| && Pass(m, i, r)
    ensures |r| == |m| && forall k | 0 <= k < i :: r[k] == m[k]
    ensures i < |m[0]| && m[i][i] != 0.0 ==> r[i] == m[i]
  {
  }

  /** The triangular form is where the passes lead... */
  lemma {:induction false} PassesReach(m: Grid, i: nat)
    requires Regular(m) && i <= |m|
    ensures Reaches(m, i, Eliminated(m, i))
    decreases |m| - i
  {
    hide Pass, Apply, ColumnOps, TriangularOps, Reaches;
    if i < |m| {
      var next := Apply(m, ColumnOps(m, i));
      ColumnPasses(m, i);
      TriangularOpsStep(m, i, next);
      PassesReach(next, i + 1);
      ReachesStep(m, i, next, Eliminated(next, i + 1));
    } else {
      NothingToReach(m);
    }
  }

  lemma NothingToReach(m: Grid)
    requires Regular(m)
    ensures Reaches(m, |m|, Eliminated(m, |m|))
  {
  }

  lemma RepairIsOne(m: Grid, i: nat, q: Grid, t: Grid)
    requires Regular(m) && i < |m| && i < |m[0]| && Repaired(m, i, q) && Repaired(m, i, t)
    ensures q == t
  {
    var j := FirstNonzero(m, i, i + 1);
    hide FirstNonzero;
    if m[i][i] == 0.0 && j < |m| {
      assert FirstBelow(m, i, j);
    } else if m[i][i] == 0.0 {
      assert forall k | i <= k < |m| :: m[k][i] == 0.0;
    }
    assert q[i] == t[i];
    assert forall k | 0 <= k < |m| && k != i :: q[k] == t[k];
  }

  lemma SubtractedIsOne(q: Grid, i: nat, r: Grid, s: Grid)
    requires Regular(q) && i < |q| && i < |q[0]| && Subtracted(q, i, r) && Subtracted(q, i, s)
    ensures r == s
  {
    if q[i][i] != 0.0 {
      forall k | i < k < |q| ensures r[k] == s[k] {
        LosesIsOne(q[k], q[i], i, r[k], s[k]);
      }
      hide Loses;
      assert r == s;
    }
  }

  lemma LosesIsOne(row: Row, pivot: Row, i: nat, x: Row, y: Row)
    requires i < |row| == |pivot| && pivot[i] != 0.0 && Loses(row, pivot, i, x) && Loses(row, pivot, i, y)
    ensures x == y
  {
  }

  lemma PassIsOne(m: Grid, i: nat, r: Grid, s: Grid)
    requires Regular(m) && i < |m| && Pass(m, i, r) && Pass(m, i, s)
    ensures r == s
  {
    if i < |m[0]| {
      hide Repaired, Subtracted;
      var q :| Repaired(m, i, q) && Regular(q) && i < |q[0]| && Subtracted(q, i, r);
      var t :| Repaired(m, i, t) && Regular(t) && i < |t[0]| && Subtracted(t, i, s);
      RepairIsOne(m, i, q, t);
      SubtractedIsOne(q, i, r, s);
    }
  }

  /** ...and they lead nowhere else. */
  lemma {:induction false} ReachesIsOne(m: Grid, i: nat, r: Grid, s: Grid)
    requires Regular(m) && i <= |m| && Reaches(m, i, r) && Reaches(m, i, s)
    ensures r == s
    decreases |m| - i
  {
    hide Pass;
    if i < |m| {
      var x :| Pass(m, i, x) && Regular(x) && |x| == |m| && Reaches(x, i + 1, r);
      var y :| Pass(m, i, y) && Regular(y) && |y| == |m| && Reaches(y, i + 1, s);
      PassIsOne(m, i, x, y);
      ReachesIsOne(x, i + 1, r, s);
    }
  }

  /** The triangular form, and only it, is reached by the passes. */
  lemma ReachesExactly(m: Grid, r: Grid)
    requires Regular(m)
    ensures Reaches(m, 0, r) <==> r == RightTriangular(m)
  {
    PassesReach(m, 0);
    if Reaches(m, 0, r) {
      ReachesIsOne(m, 0, r, RightTriangular(m));
    }
  }

  /** Passes for later columns leave the rows above them. */
  lemma {:induction false} ReachesKeepsAbove(m: Grid, i: nat, r: Grid)
    requires Regular(m) && i <= |m| && Reaches(m, i, r)
    ensures |r| == |m| && forall k | 0 <= k < i :: r[k] == m[k]
    decreases |m| - i
  {
    hide Pass;
    if i < |m| {
      var next :| Pass(m, i, next) && Regular(next) && |next| == |m| && Reaches(next, i + 1, r);
      PassKeepsAbove(m, i, next);
      ReachesKeepsAbove(next, i + 1, r);
      forall k | 0 <= k < i ensures r[k] == m[k] {
        assert next[k] == m[k];
      }
    }
  }

  /** A row that meets a nonzero pivot in its own pass is a row of the result. */
  lemma RowStays(m: Grid, i: nat, r: Grid)
    requires Regular(m) && i < |m| && i < |m[0]| && m[i][i] != 0.0 && Reaches(m, i, r)
    ensures |r| == |m| && r[i] == m[i]
  {
    hide Pass;
    var next :| Pass(m, i, next) && Regular(next) && |next| == |m| && Reaches(next, i + 1, r);
    PassKeepsAbove(m, i, next);
    ReachesKeepsAbove(next, i + 1, r);
    assert next[i] == m[i];
  }

  lemma RightTriangularReached(m: Grid)
    requires Regular(m)
    ensures Cleared(m, 0) && RightTriangular(m) == Eliminated(m, 0) && |RightTriangular(m)| == |m|
    ensures Reaches(m, 0, RightTriangular(m))
    ensures m[0][0] != 0.0 ==> RightTriangular(m)[0] == m[0]
  {
    PassesReach(m, 0);
    if m[0][0] != 0.0 {
      RowStays(m, 0, RightTriangular(m));
    }
  }

  // ----- what row additions preserve --------------------------------------------

  lemma {:induction false} ApplyKeepsDet(m: Grid, ops: seq<Op>)
    requires Square(m) && OpsFor(ops, |m|)
    ensures Det(Apply(m, ops)) == Det(m)
    decreases |ops|
  {
    if ops != [] {
      DetAddRow(m, ops[0].target, ops[0].source, ops[0].factor);
      ApplyKeepsDet(AddRow(m, ops[0].target, ops[0].source, ops[0].factor), ops[1..]);
    }
  }

  /** The diagonal product of the triangular form is the cofactor determinant. */
  lemma DeterminantByElimination(m: Grid)
    requires Square(m) && |m| > 0
    ensures DiagonalProduct(RightTriangular(m), |m|) == Det(m)
  {
    RightTriangularIsUpper(m);
    ApplyKeepsDet(m, TriangularOps(m, 0));
    DetTriangular(RightTriangular(m));
  }

  /** a and b side by side. */
  function Augmented(a: Grid, b: Grid): (m: Grid)
    requires |a| == |b|
  {
    seq(|a|, i requires 0 <= i < |a| => a[i] + b[i])
  }

  lemma {:induction false} ApplyAugmented(a: Grid, b: Grid, ops: seq<Op>)
    requires |a| == |b| && OpsFor(ops, |a|)
    requires forall i | 0 <= i < |a| :: |a[i]| == |a[0]| && |b[i]| == |b[0]|
    ensures Apply(Augmented(a, b), ops) == Augmented(Apply(a, ops), Apply(b, ops))
    decreases |ops|
  {
    if ops != [] {
      var t, s, c := ops[0].target, ops[0].source, ops[0].factor;
      ApplyAugmented(AddRow(a, t, s, c), AddRow(b, t, s, c), ops[1..]);
      assert Combine(a[t] + b[t], a[s] + b[s], c) == Combine(a[t], a[s], c) + Combine(b[t], b[s], c);
      assert AddRow(Augmented(a, b), t, s, c) == Augmented(AddRow(a, t, s, c), AddRow(b, t, s, c));
    }
  }

  /** Elimination looks only at the left block: the augmented matrix and the matrix
      alone go through the same row additions. */
  lemma {:induction false} AugmentedOps(a: Grid, b: Grid, i: nat)
    requires Square(a) && |a| == |b| > 0 && i <= |a|
    requires forall k | 0 <= k < |b| :: |b[k]| == |b[0]|
    ensures TriangularOps(Augmented(a, b), i) == TriangularOps(a, i)
    decreases |a| - i
  {
    if i < |a| {
      AugmentedColumnOps(a, b, i);
      var ops := ColumnOps(a, i);
      ApplyAugmented(a, b, ops);
      AugmentedOps(Apply(a, ops), Apply(b, ops), i + 1);
    }
  }

  lemma AugmentedColumnOps(a: Grid, b: Grid, i: nat)
    requires Square(a) && |a| == |b| && i < |a|
    requires forall k | 0 <= k < |b| :: |b[k]| == |b[0]|
    ensures ColumnOps(Augmented(a, b), i) == ColumnOps(a, i)
  {
    var m := Augmented(a, b);
    FirstNonzeroSame(a, m, i, i + 1);
    var fix := PivotOps(a, i);
    ApplyAugmented(a, b, fix);
    var ra, rm := Apply(a, fix), Apply(m, fix);
    if ra[i][i] != 0.0 {
      ClearOpsSame(ra, rm, i, i + 1);
    }
  }

  lemma {:induction false} FirstNonzeroSame(a: Grid, m: Grid, i: nat, j: nat)
    requires |a| == |m| && j <= |a| && forall k | 0 <= k < |a| :: i < |a[k]| && i < |m[k]|
    requires forall k | j <= k < |a| :: a[k][i] == m[k][i]
    ensures FirstNonzero(a, i, j) == FirstNonzero(m, i, j)
    decreases |a| - j
  {
  }

  // ----- null vectors: a zero determinant means there is no inverse --------------

  /** Row additions do not change which vectors a matrix sends to zero. */
  lemma {:induction false} ApplyKeepsKernel(m: Grid, ops: seq<Op>, x: Row)
    requires Rectangular(m, |m|, |x|) && OpsFor(ops, |m|)
    requires forall i | 0 <= i < |m| :: Dot(Apply(m, ops)[i], x, |x|) == 0.0
    ensures forall i | 0 <= i < |m| :: Dot(m[i], x, |x|) == 0.0
    decreases |ops|
  {
    if ops != [] {
      var t, s, c := ops[0].target, ops[0].source, ops[0].factor;
      var next := AddRow(m, t, s, c);
      assert Apply(m, ops) == Apply(next, ops[1..]);
      ApplyKeepsKernel(next, ops[1..], x);
      assert next[s] == m[s] && next[t] == Combine(m[t], m[s], c);
      DotCombine(m[t], m[s], c, x, |x|);
      assert Dot(m[s], x, |x|) == 0.0;
      assert Dot(m[t], x, |x|) == 0.0;
      forall i | 0 <= i < |m| ensures Dot(m[i], x, |x|) == 0.0 {
        assert i != t ==> next[i] == m[i];
      }
    } else {
      assert Apply(m, ops) == m;
    }
  }

  /** Back-substitution from a zero diagonal entry builds a nonzero null vector. */
  lemma {:induction false} TriangularKernel(u: Grid, i: nat, k: nat) returns (x: Row)
    requires Square(u) && UpperTriangular(u) && k <= i < |u|
    requires u[i][i] == 0.0 && forall j | 0 <= j < i :: u[j][j] != 0.0
    ensures |x| == |u| && x[i] == 1.0 && forall p | 0 <= p < |u| && (p < k || p > i) :: x[p] == 0.0
    ensures forall j | k <= j < |u| :: Dot(u[j], x, |u|) == 0.0
    decreases i - k
  {
    if k == i {
      x := Unit(|u|, i);
      forall j | k <= j < |u| ensures Dot(u[j], x, |u|) == 0.0 {
        DotUnit(u[j], |u|, i, |u|);
      }
    } else {
      var y := TriangularKernel(u, i, k + 1);
      var d := Dot(u[k], y, |u|);
      var unit := Unit(|u|, k);
      var c := -(d / u[k][k]);
      x := Combine(y, unit, c);
      forall j | k <= j < |u| ensures Dot(u[j], x, |u|) == 0.0 {
        DotCommutes(u[j], x, |u|);
        DotCombine(y, unit, c, u[j], |u|);
        DotCommutes(u[j], y, |u|);
        DotCommutes(u[j], unit, |u|);
        DotUnit(u[j], |u|, k, |u|);
        if j == k {
          SubtractMultiple(d, d, u[k][k]);
        }
      }
    }
  }

  lemma {:induction false} FirstZeroDiagonal(u: Grid, n: nat) returns (i: nat)
    requires n <= |u| && (forall k | 0 <= k < n :: n <= |u[k]|) && DiagonalProduct(u, n) == 0.0
    ensures i < n && u[i][i] == 0.0 && forall j | 0 <= j < i :: u[j][j] != 0.0
  {
    DiagonalProductNonzero(u, n - 1);
    if DiagonalProduct(u, n - 1) == 0.0 {
      i := FirstZeroDiagonal(u, n - 1);
    } else {
      i := n - 1;
    }
  }

  /** A matrix whose determinant is zero has no left inverse. */
  lemma SingularHasNoInverse(a: Grid, r: Grid)
    requires Square(a) && |a| > 0 && Rectangular(r, |a|, |a|) && Det(a) == 0.0
    ensures Product(r, a, |a|) != Identity(|a|)
  {
    var n := |a|;
    var u := RightTriangular(a);
    DeterminantByElimination(a);
    RightTriangularIsUpper(a);
    var i := FirstZeroDiagonal(u, n);
    var x := TriangularKernel(u, i, 0);
    ApplyKeepsKernel(a, TriangularOps(a, 0), x);
    if Product(r, a, n) == Identity(n) {
      var zero := seq(n, k => 0.0);
      DotExchange(r[i], a, x, Identity(n)[i], zero, n);
      DotZero(r[i], zero, n);
      DotCommutes(Unit(n, i), x, n);
      DotUnit(x, n, i, n);
    }
  }

  /** A nonzero combination of rows that vanishes makes the determinant zero. */
  lemma RowDependence(a: Grid, y: Row, r: nat)
    requires Square(a) && |y| == |a| && r < |a| && y[r] != 0.0
    requires forall p | 0 <= p < |a| :: Dot(y, Column(a, p), |a|) == 0.0
    ensures Det(a) == 0.0
  {
    var zero := seq(|a|, p => 0.0);
    DetOfCombination(a, y, r, zero, |a|);
    DetOfCombination(a, y, r, zero, 0);
  }

  /** Replacing row r by the sum of y[k] times row k, over k < m, scales the determinant by y[r]. */
  lemma {:induction false} DetOfCombination(a: Grid, y: Row, r: nat, sum: Row, m: nat)
    requires Square(a) && |y| == |sum| == |a| && r < |a| && m <= |a|
    requires forall p | 0 <= p < |a| :: sum[p] == Dot(y, Column(a, p), m)
    ensures Det(a[r := sum]) == if r < m then y[r] * Det(a) else 0.0
    decreases m
  {
    if m == 0 {
      assert Combine(sum, sum, 1.0) == sum;
      DetLinear(a, r, sum, sum, 1.0);
    } else {
      var k := m - 1;
      var shorter := seq(|a|, p requires 0 <= p < |a| => Dot(y, Column(a, p), k));
      DetOfCombination(a, y, r, shorter, k);
      forall p | 0 <= p < |a| ensures sum[p] == shorter[p] + Times(y[k], a[k][p]) {
        assert Column(a, p)[k] == a[k][p];
      }
      assert sum == Combine(shorter, a[k], y[k]);
      DetLinear(a, r, shorter, a[k], y[k]);
      var twice := a[r := a[k]];
      if k == r {
        assert twice == a;
      } else if k < r {
        DetEqualRows(twice, k, r);
      } else {
        DetEqualRows(twice, r, k);
      }
    }
  }

  /** A left inverse of a matrix with nonzero determinant is also a right inverse. */
  lemma LeftInverseIsRightInverse(a: Grid, r: Grid)
    requires Square(a) && Rectangular(r, |a|, |a|) && Det(a) != 0.0
    requires Product(r, a, |a|) == Identity(|a|)
    ensures Product(a, r, |a|) == Identity(|a|)
  {
    var n := |a|;
    var ar, id := Product(a, r, n), Identity(n);
    ProductAssociates(a, r, a, n, n, n);
    ProductIdentity(a, n);
    forall i, j | 0 <= i < n && 0 <= j < n ensures ar[i][j] == id[i][j] {
      var y := Combine(ar[i], id[i], -1.0);
      forall p | 0 <= p < n ensures Dot(y, Column(a, p), n) == 0.0 {
        DotCombine(ar[i], id[i], -1.0, Column(a, p), n);
        assert Product(ar, a, n)[i][p] == Product(id, a, n)[i][p];
      }
      if y[j] != 0.0 {
        RowDependence(a, y, j);
      }
    }
    forall i | 0 <= i < n ensures ar[i] == id[i] {
    }
  }
}
