/** The matrix class: triangular form, determinant, augmentation and inverse.
    Every do-while loop counts a variable down and works at the complementary index. */
module Sylvester {
  import opened LinearAlgebra
  import opened Elimination

  /** null, a value, or the TypeError raised by indexing past the last row. */
  datatype Result<+T> = Null | Value(value: T) | TypeError

  /** What a matrix can be combined with, and what comes of it. */
  datatype Operand = Number(x: real) | Vector(v: Row) | Of(m: Matrix)

  /** A vector as a column. */
  function Upright(v: Row): (a: Grid)
    ensures |a| == |v| && forall i | 0 <= i < |a| :: a[i] == [v[i]]
  {
    seq(|v|, i requires 0 <= i < |v| => [v[i]])
  }

  /** Every entry times x. */
  function Multiple(a: Grid, x: real): (b: Grid)
    ensures |b| == |a| && forall i | 0 <= i < |a| :: |b[i]| == |a[i]| && forall j | 0 <= j < |a[i]| :: b[i][j] == Times(a[i][j], x)
  {
    seq(|a|, i requires 0 <= i < |a| => seq(|a[i]|, j requires 0 <= j < |a[i]| => Times(a[i][j], x)))
  }

  /** The rows of a against v. */
  function Image(a: Grid, v: Row): (w: Row)
    requires forall i | 0 <= i < |a| :: |a[i]| == |v|
    ensures |w| == |a| && forall i | 0 <= i < |a| :: w[i] == Dot(a[i], v, |v|)
  {
    seq(|a|, i requires 0 <= i < |a| => Dot(a[i], v, |v|))
  }

  class Matrix {
    var elements: Grid

    /** At least one row, at least one column, all rows equally long. */
    ghost predicate Valid()
      reads this
    {
      |elements| > 0 && |elements[0]| > 0 && Rectangular(elements, |elements|, |elements[0]|)
    }

    constructor Create(rows: Grid)
      requires |rows| > 0 && |rows[0]| > 0 && Rectangular(rows, |rows|, |rows[0]|)
      ensures Valid() && elements == rows
    {
      elements := rows;
    }

    predicate IsSquare()
      requires Valid()
      reads this
    {
      |elements| == |elements[0]|
    }

    /** When the pivot is zero, adds to row i the first lower row with a nonzero entry. */
    method RepairPivot(i: nat)
      requires Valid() && i < |elements| && i < |elements[0]|
      modifies this
      ensures Valid() && elements == Apply(old(elements), PivotOps(old(elements), i))
      ensures |elements| == old(|elements|) && |elements[0]| == old(|elements[0]|)
      ensures old(elements[i][i]) != 0.0 ==> elements == old(elements)
      ensures forall k | 0 <= k < |elements| && k != i :: elements[k] == old(elements)[k]
      ensures (forall k | i < k < |elements| :: old(elements)[k][i] == 0.0) ==> elements == old(elements)
      ensures forall j: nat | old(elements[i][i]) == 0.0 && FirstBelow(old(elements), i, j) ::
                forall p | 0 <= p < |elements[i]| :: elements[i][p] == old(elements)[i][p] + old(elements)[j][p]
    {
      hide Repaired, FirstBelow, FirstNonzero, PivotOps, Apply;
      ghost var start := elements;
      PivotApplied(start, i);
      RepairedRow(start, i);
      var k := |elements|;
      if elements[i][i] == 0.0 {
        var j := i + 1;
        while j < k
          invariant i < j <= k && elements == start
          invariant FirstNonzero(start, i, i + 1) == FirstNonzero(start, i, j)
        {
          if elements[j][i] != 0.0 {
            var els := [];
            var kp := |elements[0]|;
            var np := kp;
            while np > 0
              invariant 0 <= np <= kp && elements == start
              invariant els == Combine(start[i], start[j], 1.0)[..kp - np]
            {
              var p := kp - np;
              els := els + [elements[i][p] + elements[j][p]];
              np := np - 1;
            }
            assert els == Combine(start[i], start[j], 1.0);
            elements := elements[i := els];
            assert elements == Apply(start, PivotOps(start, i));
            return;
          }
          j := j + 1;
        }
        assert elements == Apply(start, PivotOps(start, i));
      } else {
        assert Apply(start, PivotOps(start, i)) == start;
      }
    }

    /** Clears column i below a nonzero pivot, writing zeros straight in up to column i. */
    method ClearColumn(i: nat)
      requires Valid() && i < |elements| && i < |elements[0]|
      requires Cleared(elements, i) && elements[i][i] != 0.0
      modifies this
      ensures Valid() && elements == Apply(old(elements), ClearOps(old(elements), i, i + 1))
    {
      ghost var start := elements;
      var k := |elements|;
      var j := i + 1;
      while j < k
        invariant i < j <= k && |elements| == k
        invariant forall r | 0 <= r < k ::
                    elements[r] == if i < r < j then Reduced(start, i, r) else start[r]
      {
        var els := ClearedRow(elements[j], elements[i], i);
        elements := elements[j := els];
        j := j + 1;
      }
      ClearedAll(start, elements, i);
    }

    /** The inner loop of the elimination: zeros up to column i, subtraction after it. */
    static method ClearedRow(row: Row, pivot: Row, i: nat) returns (els: Row)
      requires i < |row| == |pivot| && pivot[i] != 0.0
      requires forall p | 0 <= p < i :: row[p] == 0.0 && pivot[p] == 0.0
      ensures els == Combine(row, pivot, -(row[i] / pivot[i]))
    {
      var a := row[i] / pivot[i];
      els := [];
      var kp := |row|;
      var np := kp;
      while np > 0
        invariant 0 <= np <= kp && |els| == kp - np
        invariant forall p | 0 <= p < |els| :: els[p] == row[p] + Times(-a, pivot[p])
      {
        var p := kp - np;
        SubtractMultiple(row[i], pivot[p], pivot[i]);
        els := els + [if p <= i then 0.0 else row[p] - pivot[p] * a];
        np := np - 1;
      }
    }

    /** One pass of the elimination loop. */
    method ProcessColumn(i: nat)
      requires Valid() && Regular(elements) && i < |elements| && Cleared(elements, i)
      modifies this
      ensures Valid() && |elements| == old(|elements|) && Regular(elements)
      ensures Cleared(elements, i + 1)
      ensures Eliminated(elements, i + 1) == Eliminated(old(elements), i)
      ensures i + 1 == |elements| ==> Eliminated(elements, i + 1) == elements
      ensures Pass(old(elements), i, elements)
      ensures forall k | 0 <= k < i :: elements[k] == old(elements)[k]
      ensures i < |elements[0]| && old(elements)[i][i] != 0.0 ==> elements[i] == old(elements)[i]
    {
      ghost var start := elements;
      ColumnOpsClear(elements, i);
      ColumnPasses(elements, i);
      if i < |elements[0]| {
        ColumnOpsSplit(elements, i);
        RepairPivot(i);
        if elements[i][i] != 0.0 {
          ClearColumn(i);
        }
      } else {
        ZeroRest(i);
      }
      TriangularOpsStep(start, i, elements);
    }

    /** The same pass below the last column: the missing pivot is not equal to zero, the multiplier
        is no number, and every row below gets zeros in all columns. It had them already. */
    method ZeroRest(i: nat)
      requires Valid() && |elements[0]| <= i < |elements| && Cleared(elements, i)
      modifies this
      ensures elements == old(elements)
    {
      RestIsZero(elements, i);
      var k := |elements|;
      var j := i + 1;
      while j < k
        invariant i < j <= k && elements == old(elements)
      {
        var els := [];
        var kp := |elements[0]|;
        var np := kp;
        while np > 0
          invariant 0 <= np <= kp && elements == old(elements)
          invariant els == elements[j][..kp - np]
        {
          els := els + [0.0];
          np := np - 1;
        }
        assert els == elements[j];
        elements := elements[j := els];
        j := j + 1;
      }
    }

    /** A right-triangular form reached by row additions alone. */
    method ToRightTriangular() returns (m: Matrix)
      requires Valid()
      ensures fresh(m) && m.Valid()
      ensures m.elements == RightTriangular(elements) && UpperTriangular(m.elements)
      ensures Reaches(elements, 0, m.elements)
      ensures elements[0][0] != 0.0 ==> m.elements[0] == elements[0]
    {
      hide Reaches, Pass, RightTriangular, UpperTriangular, Eliminated, Cleared;
      RightTriangularIsUpper(elements);
      RightTriangularReached(elements);
      m := new Matrix.Create(elements);
      var n := |elements|;
      var k := n;
      ghost var target := Eliminated(elements, 0);
      while n > 0
        invariant 0 <= n <= k && fresh(m) && m.Valid() && |m.elements| == k
        invariant Regular(m.elements) && Cleared(m.elements, k - n)
        invariant Eliminated(m.elements, k - n) == target
        invariant n == 0 ==> m.elements == target
      {
        m.ProcessColumn(k - n);
        n := n - 1;
      }
    }

    /** The exact cofactor determinant; null when not square. A 1x1 matrix makes the loop
        read a second row, which raises. */
    method Determinant() returns (r: Result<real>)
      requires Valid()
      ensures !IsSquare() ==> r == Null
      ensures IsSquare() && |elements| == 1 ==> r == TypeError
      ensures IsSquare() && |elements| > 1 ==> r == Value(Det(elements))
    {
      if !IsSquare() { return Null; }
      var m := ToRightTriangular();
      DeterminantByElimination(elements);
      r := DiagonalLoop(m.elements);
    }

    static method DiagonalLoop(u: Grid) returns (r: Result<real>)
      requires Square(u) && |u| > 0
      ensures r == if |u| == 1 then TypeError else Value(DiagonalProduct(u, |u|))
    {
      var a := u[0][0];
      var n := |u| - 1;
      var k := n;
      assert DiagonalProduct(u, 0) == 1.0;
      while true
        invariant 0 <= n <= k && (n == 0 ==> k == 0)
        invariant a == DiagonalProduct(u, k - n + 1)
        decreases n
      {
        var i := k - n + 1;
        if i >= |u| { return TypeError; }
        a := a * u[i][i];
        assert a == DiagonalProduct(u, i + 1);
        n := n - 1;
        if n == 0 { break; }
      }
      return Value(a);
    }

    method IsSingular() returns (r: Result<bool>)
      requires Valid()
      ensures !IsSquare() ==> r == Value(false)
      ensures IsSquare() && |elements| == 1 ==> r == TypeError
      ensures IsSquare() && |elements| > 1 ==> r == Value(Det(elements) == 0.0)
    {
      if !IsSquare() { return Value(false); }
      var d := Determinant();
      match d {
        case Value(x) => return Value(x == 0.0);
        case Null => return Value(false);
        case TypeError => return TypeError;
      }
    }

    /** Appends the columns of a matrix, or a vector as one column; null when the row counts
        differ. Neither a number nor an empty vector has a first entry to look at. */
    method Augment(a: Operand) returns (r: Result<Matrix>)
      requires Valid() && (a.Of? ==> a.m.Valid())
      ensures r.TypeError? <==> a.Number? || a == Vector([])
      ensures !r.TypeError? ==> (r.Null? <==> |elements| != if a.Of? then |a.m.elements| else |a.v|)
      ensures r.Value? ==> fresh(r.value) && r.value.Valid()
      ensures r.Value? ==> r.value.elements == Augmented(elements, if a.Of? then a.m.elements else Upright(a.v))
      ensures r.Value? ==> |r.value.elements| == |elements|
      ensures r.Value? && a.Of? ==>
                forall i | 0 <= i < |elements| :: r.value.elements[i] == elements[i] + a.m.elements[i]
      ensures r.Value? && a.Vector? ==>
                forall i | 0 <= i < |elements| :: r.value.elements[i] == elements[i] + [a.v[i]]
    {
      match a
      case Number(_) => return TypeError;
      case Of(m) => r := AugmentMatrix(m);
      case Vector(v) =>
        if v == [] { return TypeError; }
        var m := CreateUpright(v);
        r := AugmentMatrix(m);
    }

    /** A matrix with the entries of a vector in its only column. */
    static method CreateUpright(v: Row) returns (m: Matrix)
      requires v != []
      ensures fresh(m) && m.Valid() && m.elements == Upright(v)
    {
      var rows: Grid := [];
      var n := |v|;
      var k := n;
      while n > 0
        invariant 0 <= n <= k && rows == Upright(v)[..k - n]
      {
        rows := rows + [[v[k - n]]];
        n := n - 1;
      }
      m := new Matrix.Create(rows);
    }

    /** Appends the columns of other; null when the row counts differ. */
    method AugmentMatrix(other: Matrix) returns (r: Result<Matrix>)
      requires Valid() && other.Valid()
      ensures r.Null? <==> |elements| != |other.elements|
      ensures !r.TypeError?
      ensures r.Value? ==> fresh(r.value) && r.value.Valid()
      ensures r.Value? ==> r.value.elements == Augmented(elements, other.elements)
    {
      var t := new Matrix.Create(elements);
      var cols := |t.elements[0]|;
      var b := |t.elements|;
      var ki := b;
      var kj := |other.elements[0]|;
      if b != |other.elements| { return Null; }
      ghost var whole := Augmented(elements, other.elements);
      while true
        invariant 0 < b <= ki && fresh(t) && t != other && |t.elements| == ki
        invariant forall r | 0 <= r < ki - b :: t.elements[r] == whole[r]
        invariant forall r | ki - b <= r < ki :: t.elements[r] == elements[r]
        decreases b
      {
        var i := ki - b;
        var nj := kj;
        while nj > 0
          invariant 0 <= nj <= kj && fresh(t) && t != other && |t.elements| == ki
          invariant forall r | 0 <= r < i :: t.elements[r] == whole[r]
          invariant forall r | i < r < ki :: t.elements[r] == elements[r]
          invariant t.elements[i] == elements[i] + other.elements[i][..kj - nj]
        {
          var j := kj - nj;
          assert |t.elements[i]| == cols + j;
          t.elements := t.elements[i := t.elements[i] + [other.elements[i][j]]];
          nj := nj - 1;
        }
        assert other.elements[i][..kj] == other.elements[i];
        b := b - 1;
        if b == 0 { break; }
      }
      assert t.elements == whole;
      return Value(t);
    }

    static method I(size: nat) returns (m: Matrix)
      requires size > 0
      ensures fresh(m) && m.Valid() && m.elements == Identity(size)
    {
      var a: Grid := [];
      var n, k := size, size;
      while n > 0
        invariant 0 <= n <= k && a == Identity(k)[..k - n]
      {
        var i := k - n;
        var row := [];
        var nj := k;
        while nj > 0
          invariant 0 <= nj <= k && row == Unit(k, i)[..k - nj]
        {
          var j := k - nj;
          row := row + [if i == j then 1.0 else 0.0];
          nj := nj - 1;
        }
        assert row == Identity(k)[i];
        a := a + [row];
        n := n - 1;
      }
      m := new Matrix.Create(a);
    }

    /** A number multiplies every entry, a matrix gives the product and a vector its image; null
        when the inner dimensions differ. */
    method Multiply(a: Operand) returns (r: Result<Operand>)
      requires Valid() && (a.Of? ==> a.m.Valid())
      ensures r.TypeError? <==> a == Vector([])
      ensures a.Number? ==> r.Value?
      ensures a.Number? && r.Value? ==>
                && r.value.Of? && fresh(r.value.m) && r.value.m.Valid()
                && r.value.m.elements == Multiple(elements, a.x)
      ensures a.Of? ==> (r.Null? <==> |elements[0]| != |a.m.elements|)
      ensures a.Of? && r.Value? ==>
                && r.value.Of? && fresh(r.value.m) && r.value.m.Valid()
                && r.value.m.elements == Product(elements, a.m.elements, |a.m.elements[0]|)
      ensures a.Vector? && a.v != [] ==> (r.Null? <==> |elements[0]| != |a.v|)
      ensures a.Vector? && r.Value? ==> r.value == Vector(Image(elements, a.v))
    {
      match a
      case Number(x) =>
        var m := MapTimes(x);
        return Value(Of(m));
      case Of(other) =>
        var m := MultiplyMatrix(other);
        return if m.Value? then Value(Of(m.value)) else Null;
      case Vector(v) =>
        if v == [] { return TypeError; }
        var upright := CreateUpright(v);
        var m := MultiplyMatrix(upright);
        if m.Null? { return Null; }
        UprightColumn(v);
        var w := m.value.FirstColumn();
        return Value(Vector(w));
    }

    /** map with the function that multiplies by x. */
    method MapTimes(x: real) returns (m: Matrix)
      requires Valid()
      ensures fresh(m) && m.Valid() && m.elements == Multiple(elements, x)
    {
      ghost var whole := Multiple(elements, x);
      var b: Grid := [];
      var ni := |elements|;
      var ki, kj := ni, |elements[0]|;
      while ni > 0
        invariant 0 <= ni <= ki && b == whole[..ki - ni]
      {
        var i := ki - ni;
        var row := [];
        var nj := kj;
        while nj > 0
          invariant 0 <= nj <= kj && row == whole[i][..kj - nj]
        {
          row := row + [elements[i][kj - nj] * x];
          nj := nj - 1;
        }
        assert row == whole[i];
        b := b + [row];
        ni := ni - 1;
      }
      m := new Matrix.Create(b);
    }

    /** The first column. */
    method FirstColumn() returns (w: Row)
      requires Valid()
      ensures w == Column(elements, 0)
    {
      w := [];
      var n := |elements|;
      var k := n;
      while n > 0
        invariant 0 <= n <= k && w == Column(elements, 0)[..k - n]
      {
        w := w + [elements[k - n][0]];
        n := n - 1;
      }
    }

    /** null when the inner dimensions differ. */
    method MultiplyMatrix(other: Matrix) returns (r: Result<Matrix>)
      requires Valid() && other.Valid()
      ensures r.Null? <==> |elements[0]| != |other.elements|
      ensures !r.TypeError?
      ensures r.Value? ==> fresh(r.value) && r.value.Valid()
      ensures r.Value? ==> r.value.elements == Product(elements, other.elements, |other.elements[0]|)
    {
      if |elements[0]| != |other.elements| { return Null; }
      var ki, kj, e := |elements|, |other.elements[0]|, |elements[0]|;
      ghost var whole := Product(elements, other.elements, kj);
      var rows: Grid := [];
      var d := ki;
      while d > 0
        invariant 0 <= d <= ki && rows == whole[..ki - d]
      {
        var i := ki - d;
        var row := [];
        var nj := kj;
        while nj > 0
          invariant 0 <= nj <= kj && row == whole[i][..kj - nj]
        {
          var j := kj - nj;
          var sum := 0.0;
          var nc := e;
          while nc > 0
            invariant 0 <= nc <= e
            invariant sum == Dot(elements[i], Column(other.elements, j), e - nc)
          {
            var c := e - nc;
            sum := sum + elements[i][c] * other.elements[c][j];
            nc := nc - 1;
          }
          row := row + [sum];
          nj := nj - 1;
        }
        assert row == whole[i];
        rows := rows + [row];
        d := d - 1;
      }
      var m := new Matrix.Create(rows);
      return Value(m);
    }

    /** Beyond 1x1, null exactly when no left inverse exists; otherwise the two-sided inverse. */
    method Inverse() returns (r: Result<Matrix>)
      requires Valid()
      ensures !IsSquare() ==> r == Null
      ensures IsSquare() && |elements| == 1 ==> r == TypeError
      ensures IsSquare() && |elements| > 1 ==> !r.TypeError?
      ensures IsSquare() && |elements| > 1 ==>
                (r.Null? <==> !exists b :: IsLeftInverse(b, elements))
      ensures r.Value? ==> fresh(r.value) && r.value.Valid()
      ensures r.Value? ==> IsLeftInverse(r.value.elements, elements)
      ensures r.Value? ==> IsLeftInverse(elements, r.value.elements)
    {
      if !IsSquare() { return Null; }
      var singular := IsSingular();
      if singular.TypeError? { return TypeError; }
      if singular.value {
        forall b ensures !IsLeftInverse(b, elements) {
          if Rectangular(b, |elements|, |elements|) { SingularHasNoInverse(elements, b); }
        }
        return Null;
      }
      var identity := I(|elements|);
      var augmented := Augment(Of(identity));
      var m := augmented.value.ToRightTriangular();
      AugmentedStart(elements);
      var c := m.BackSubstitute(elements);
      LeftInverseIsRightInverse(elements, c);
      var result := new Matrix.Create(c);
      return Value(result);
    }

    /** The closing loop of the inversion, from the last row up: a is the matrix that was
        augmented, c collects what is left of the identity. */
    method BackSubstitute(ghost a: Grid) returns (c: Grid)
      requires Valid() && Square(a) && |a| == |elements|
      requires BackForm(elements, |a|, |a|) && AllSolve(elements, a)
      modifies this
      ensures IsLeftInverse(c, a)
    {
      var n := |elements|;
      var ki := n;
      c := seq(ki, i => []);
      while true
        invariant 0 < n <= ki && |c| == ki == |a|
        invariant BackForm(elements, ki, n) && AllSolve(elements, a)
        invariant forall q | n <= q < ki :: c[q] == elements[q][ki..]
        decreases n
      {
        var i := n - 1;
        BackStep(elements, a, i);
        var right := DivideRow(i, ki);
        c := c[i := right];
        SweepColumn(i);
        n := n - 1;
        if n == 0 { break; }
      }
      BackDone(elements, a, c);
    }

    /** Divides row i by its diagonal entry; returns the part from column ki on. */
    method DivideRow(i: nat, ki: nat) returns (right: Row)
      requires Valid() && i < |elements| && ki < |elements[0]| && i < ki && elements[i][i] != 0.0
      modifies this
      ensures Valid() && elements == old(elements)[i := Scaled(old(elements[i]), old(elements[i][i]))]
      ensures right == elements[i][ki..]
    {
      var els := [];
      var kp := |elements[0]|;
      var b := kp;
      right := [];
      var divisor := elements[i][i];
      while b > 0
        invariant 0 <= b <= kp
        invariant els == Scaled(elements[i], divisor)[..kp - b]
        invariant right == if kp - b <= ki then [] else els[ki..]
      {
        var p := kp - b;
        var newElement := elements[i][p] / divisor;
        els := els + [newElement];
        if p >= ki {
          right := right + [newElement];
        }
        b := b - 1;
      }
      assert els == Scaled(elements[i], divisor);
      elements := elements[i := els];
    }

    /** Clears column i above row i by subtracting multiples of row i. */
    method SweepColumn(i: nat)
      requires Valid() && i < |elements| && i < |elements[0]|
      modifies this
      ensures Valid() && elements == Swept(old(elements), i, i)
    {
      ghost var start := elements;
      var kp := |elements[0]|;
      var j := 0;
      while j < i
        invariant 0 <= j <= i && elements == Swept(start, i, j)
      {
        var row, unit := elements[j], elements[i];
        assert row == start[j] && unit == start[i];
        var els := [];
        var b := kp;
        while b > 0
          invariant 0 <= b <= kp
          invariant els == Combine(row, unit, -row[i])[..kp - b]
        {
          var p := kp - b;
          assert row[p] - unit[p] * row[i] == row[p] + Times(-row[i], unit[p]);
          els := els + [row[p] - unit[p] * row[i]];
          b := b - 1;
        }
        assert els == Combine(row, unit, -row[i]);
        elements := elements[j := els];
        j := j + 1;
        assert elements == Swept(start, i, j);
      }
    }
  }

  ghost predicate IsLeftInverse(b: Grid, a: Grid) {
    && Square(a)
    && Rectangular(b, |a|, |a|)
    && Product(b, a, |a|) == Identity(|a|)
  }

  // ----- proof steps of toRightTriangular ---------------------------------------

  lemma PivotApplied(m: Grid, i: nat)
    requires Regular(m) && i < |m| && i < |m[0]|
    ensures var j := FirstNonzero(m, i, i + 1);
      Apply(m, PivotOps(m, i)) == if m[i][i] == 0.0 && j < |m| then m[i := Combine(m[i], m[j], 1.0)] else m
  {
  }

  lemma RepairedRow(m: Grid, i: nat)
    requires Regular(m) && i < |m| && i < |m[0]|
    ensures var q := Apply(m, PivotOps(m, i));
      && (m[i][i] != 0.0 ==> q == m)
      && (forall k | 0 <= k < |m| && k != i :: q[k] == m[k])
      && ((forall k | i < k < |m| :: m[k][i] == 0.0) ==> q == m)
      && forall j: nat | m[i][i] == 0.0 && FirstBelow(m, i, j) ::
           forall p | 0 <= p < |m[i]| :: q[i][p] == m[i][p] + m[j][p]
  {
    PivotApplied(m, i);
    PivotRepairs(m, i);
    hide Apply, PivotOps;
    if m[i][i] == 0.0 {
      hide FirstBelow;
    }
  }

  // ----- proof steps of inverse: left block == right block * A --------------------

  /** The left half of u is its right half times a. */
  ghost predicate Solves(u: Row, a: Grid)
    requires Square(a)
  {
    |u| == 2 * |a| && forall p | 0 <= p < |a| :: u[p] == Dot(u[|a|..], Column(a, p), |a|)
  }

  ghost predicate AllSolve(m: Grid, a: Grid)
    requires Square(a)
  {
    |m| == |a| && forall i | 0 <= i < |m| :: Solves(m[i], a)
  }

  /** Rows from i on have a unit left half; earlier rows are triangular with a nonzero
      diagonal and have zeros in columns i to n. */
  ghost predicate BackForm(m: Grid, n: nat, i: nat) {
    && Rectangular(m, n, 2 * n)
    && (forall r, p | i <= r < n && 0 <= p < n :: m[r][p] == if r == p then 1.0 else 0.0)
    && (forall r, p | 0 <= r < n && 0 <= p < n && r < i && (p < r || i <= p) :: m[r][p] == 0.0)
    && (forall r | 0 <= r < n && r < i :: m[r][r] != 0.0)
  }

  function Scaled(u: Row, d: real): (w: Row)
    requires d != 0.0
    ensures |w| == |u| && forall p | 0 <= p < |u| :: w[p] == u[p] / d
  {
    seq(|u|, p requires 0 <= p < |u| => u[p] / d)
  }

  /** Rows before j have had their entry in column i cleared with row i. */
  function Swept(m: Grid, i: nat, j: nat): (r: Grid)
    requires j <= i < |m| && forall k | 0 <= k < |m| :: i < |m[k]| == |m[0]|
    ensures |r| == |m| && forall k | 0 <= k < |m| :: |r[k]| == |m[0]|
  {
    seq(|m|, k requires 0 <= k < |m| =>
      if k < j then Combine(m[k], m[i], -m[k][i]) else m[k])
  }

  lemma UprightColumn(v: Row)
    ensures Column(Upright(v), 0) == v
  {
  }

  lemma {:induction false} DotScaled(u: Row, d: real, x: Row, n: nat)
    requires d != 0.0 && n <= |u| && n <= |x|
    ensures Dot(Scaled(u, d), x, n) == Dot(u, x, n) / d
  {
    if n > 0 {
      DotScaled(u, d, x, n - 1);
      DivideSum(Dot(u, x, n - 1), u[n - 1], x[n - 1], d);
    }
  }

  lemma DivideSum(s: real, x: real, y: real, d: real)
    requires d != 0.0
    ensures s / d + Times(x / d, y) == (s + Times(x, y)) / d
  {
  }

  lemma SolvesScaled(u: Row, a: Grid, d: real)
    requires Square(a) && Solves(u, a) && d != 0.0
    ensures Solves(Scaled(u, d), a)
  {
    assert Scaled(u, d)[|a|..] == Scaled(u[|a|..], d);
    forall p | 0 <= p < |a|
      ensures Scaled(u, d)[p] == Dot(Scaled(u, d)[|a|..], Column(a, p), |a|)
    {
      DotScaled(u[|a|..], d, Column(a, p), |a|);
    }
  }

  lemma ClearedAll(start: Grid, now: Grid, i: nat)
    requires Regular(start) && i < |start| == |now| && i < |start[0]| && start[i][i] != 0.0
    requires forall r | 0 <= r < |now| :: now[r] == if i < r then Reduced(start, i, r) else start[r]
    ensures now == Apply(start, ClearOps(start, i, i + 1))
  {
    ClearOpsEffect(start, i, i + 1);
  }

  lemma SolvesCombine(u: Row, v: Row, a: Grid, c: real)
    requires Square(a) && Solves(u, a) && Solves(v, a)
    ensures Solves(Combine(u, v, c), a)
  {
    hide Dot;
    var n := |a|;
    TailCombine(u, v, c, n);
    forall p | 0 <= p < n ensures Combine(u, v, c)[p] == Dot(Combine(u, v, c)[n..], Column(a, p), n) {
      DotCombine(u[n..], v[n..], c, Column(a, p), n);
    }
  }

  lemma TailCombine(u: Row, v: Row, c: real, n: nat)
    requires |u| == |v| && n <= |u|
    ensures Combine(u, v, c)[n..] == Combine(u[n..], v[n..], c)
  {
  }

  lemma {:induction false} ApplySolves(m: Grid, ops: seq<Op>, a: Grid)
    requires Square(a) && AllSolve(m, a) && OpsFor(ops, |m|)
    ensures AllSolve(Apply(m, ops), a)
    decreases |ops|
  {
    if ops != [] {
      var t, s, c := ops[0].target, ops[0].source, ops[0].factor;
      SolvesCombine(m[t], m[s], a, c);
      ApplySolves(AddRow(m, t, s, c), ops[1..], a);
    }
  }

  /** Triangularising the matrix augmented with the identity gives every row in solving
      form, and a diagonal without zeros because the left block went through exactly the
      additions that the determinant went through. */
  lemma AugmentedStart(a: Grid)
    requires Square(a) && |a| > 0 && Det(a) != 0.0
    ensures var m := RightTriangular(Augmented(a, Identity(|a|)));
      BackForm(m, |a|, |a|) && AllSolve(m, a)
  {
    hide Det, Identity, AllSolve, BackForm, UpperTriangular;
    var n := |a|;
    var id := Identity(n);
    var ops := TriangularOps(a, 0);
    IdentityShape(n);
    AugmentedOps(a, id, 0);
    ApplyAugmented(a, id, ops);
    AugmentedSolves(a);
    ApplySolves(Augmented(a, id), ops, a);
    DiagonalHasNoZero(a);
    TriangularBackForm(RightTriangular(a), Apply(id, ops), n);
  }

  lemma IdentityShape(n: nat)
    ensures Rectangular(Identity(n), n, n)
  {
  }

  lemma DiagonalHasNoZero(a: Grid)
    requires Square(a) && |a| > 0 && Det(a) != 0.0
    ensures var u := RightTriangular(a);
      UpperTriangular(u) && forall i | 0 <= i < |a| :: u[i][i] != 0.0
  {
    RightTriangularIsUpper(a);
    DeterminantByElimination(a);
    DiagonalProductNonzero(RightTriangular(a), |a|);
  }

  lemma TriangularBackForm(u: Grid, w: Grid, n: nat)
    requires Rectangular(u, n, n) && Rectangular(w, n, n)
    requires UpperTriangular(u) && forall i | 0 <= i < n :: u[i][i] != 0.0
    ensures BackForm(Augmented(u, w), n, n)
  {
  }

  lemma AugmentedSolves(a: Grid)
    requires Square(a)
    ensures AllSolve(Augmented(a, Identity(|a|)), a)
  {
    var n := |a|;
    var id := Identity(n);
    var start := Augmented(a, id);
    forall i | 0 <= i < n ensures Solves(start[i], a) {
      assert start[i][n..] == id[i];
      forall p | 0 <= p < n ensures start[i][p] == Dot(id[i], Column(a, p), n) {
        DotCommutes(id[i], Column(a, p), n);
        DotUnit(Column(a, p), n, i, n);
      }
    }
  }

  lemma BackStep(m: Grid, a: Grid, i: nat)
    requires Square(a) && i < |a| && BackForm(m, |a|, i + 1) && AllSolve(m, a)
    ensures var r := Swept(m[i := Scaled(m[i], m[i][i])], i, i);
      && BackForm(r, |a|, i) && AllSolve(r, a)
      && r[i] == Scaled(m[i], m[i][i]) && forall k | i < k < |a| :: r[k] == m[k]
  {
    var scaled := m[i := Scaled(m[i], m[i][i])];
    SolvesScaled(m[i], a, m[i][i]);
    var r := Swept(scaled, i, i);
    forall k | 0 <= k < |a| ensures Solves(r[k], a) {
      if k < i {
        SolvesCombine(m[k], scaled[i], a, -m[k][i]);
      }
    }
    BackStepRows(m, scaled, r, |a|, i);
  }

  lemma BackStepRows(m: Grid, scaled: Grid, r: Grid, n: nat, i: nat)
    requires i < n && BackForm(m, n, i + 1)
    requires scaled == m[i := Scaled(m[i], m[i][i])] && r == Swept(scaled, i, i)
    ensures BackForm(r, n, i)
  {
    forall p | 0 <= p < n ensures scaled[i][p] == if p == i then 1.0 else 0.0 {
      ScaledEntry(m[i], m[i][i], p);
    }
    forall k, p | 0 <= k < n && 0 <= p < n
      ensures r[k][p] == if k < i && p == i then 0.0 else scaled[k][p]
    {
      if k < i {
        SweptEntry(m[k], scaled[i], i, p);
      }
    }
  }

  lemma ScaledEntry(u: Row, d: real, p: nat)
    requires d != 0.0 && p < |u|
    ensures u[p] == d ==> Scaled(u, d)[p] == 1.0
    ensures u[p] == 0.0 ==> Scaled(u, d)[p] == 0.0
  {
  }

  lemma SweptEntry(u: Row, unit: Row, i: nat, p: nat)
    requires i < |u| == |unit| && p < |u|
    requires unit[i] == 1.0 && unit[p] == if p == i then 1.0 else 0.0
    ensures Combine(u, unit, -u[i])[p] == if p == i then 0.0 else u[p]
  {
  }

  lemma BackDone(m: Grid, a: Grid, c: Grid)
    requires Square(a) && BackForm(m, |a|, 0) && AllSolve(m, a)
    requires |c| == |a| && forall q | 0 <= q < |a| :: c[q] == m[q][|a|..]
    ensures IsLeftInverse(c, a)
  {
    var n := |a|;
    var product, id := Product(c, a, n), Identity(n);
    forall i | 0 <= i < n ensures product[i] == id[i] {
      assert Solves(m[i], a);
    }
  }
}
