/** Column phasing of a normal-mode matrix (`_phase_cols_to_max_element`,
    optrotvib/findif.py).

    Every column is multiplied by the sign of its pivot, the element of
    largest magnitude; among equal magnitudes the scan keeps the last one,
    because it replaces the running maximum on `>=`.  The tolerance argument
    and the verbose listing of rephased columns do not affect the result.
 */
module Phasing {

  import opened Results
  import opened Matrices

  /** The index the scan settles on: the last element of largest
      magnitude. */
  function Pivot(v: Vector): (p: nat)
    requires |v| > 0
    ensures p < |v|
    ensures forall i :: 0 <= i < |v| ==> Abs(v[i]) <= Abs(v[p])
    ensures forall i :: p < i < |v| ==> Abs(v[i]) < Abs(v[p])
    decreases |v|
  {
    if |v| == 1 then 0
    else
      var q := Pivot(v[..|v| - 1]);
      if Abs(v[|v| - 1]) >= Abs(v[q]) then |v| - 1 else q
  }

  /** Two vectors with the same magnitudes have the same pivot: the pivot
      never looks at signs. */
  lemma PivotSeesMagnitudes(v: Vector, w: Vector)
    requires |v| == |w| > 0
    requires forall i :: 0 <= i < |v| ==> Abs(v[i]) == Abs(w[i])
    ensures Pivot(v) == Pivot(w)
  {
    var p, q := Pivot(v), Pivot(w);
    assert Abs(v[q]) <= Abs(v[p]) && Abs(w[p]) <= Abs(w[q]);
  }

  /** A nonzero number divided by its magnitude is its sign. */
  lemma UnitPhase(x: real)
    requires x != 0.0
    ensures x / Abs(x) == if x < 0.0 then -1.0 else 1.0
  {
  }

  predicate AllZero(v: Vector) {
    forall i :: 0 <= i < |v| ==> v[i] == 0.0
  }

  /** The pivot is zero exactly when the whole vector is. */
  lemma ZeroPivot(v: Vector)
    requires |v| > 0
    ensures v[Pivot(v)] == 0.0 <==> AllZero(v)
  {
    var p := Pivot(v);
    if v[p] == 0.0 {
      forall i | 0 <= i < |v| ensures v[i] == 0.0 {
        assert Abs(v[i]) <= Abs(v[p]);
      }
    }
  }

  /** `arr[max_idx] / abs(arr[max_idx])`: the sign of the pivot. */
  function Phase(v: Vector): (s: real)
    requires |v| > 0 && v[Pivot(v)] != 0.0
    ensures s == 1.0 || s == -1.0
    ensures s == 1.0 <==> v[Pivot(v)] > 0.0
  {
    var p := Pivot(v);
    UnitPhase(v[p]);
    v[p] / Abs(v[p])
  }

  /** `phase_max_pos` on one column: an empty column has no element to
      index; an all-zero column divides 0 by 0 and turns to nan; otherwise
      the column times its phase. */
  function PhaseColumn(v: Vector): (r: Result<Vector>)
    ensures |v| == 0 ==> r.Err? && r.error.IndexError?
    ensures |v| > 0 ==> (r.Ok? <==> !AllZero(v))
    ensures r.Ok? ==> |r.value| == |v|
  {
    if |v| == 0 then Err(IndexError("index 0 is out of bounds for axis 0 with size 0"))
    else
      ZeroPivot(v);
      if v[Pivot(v)] == 0.0 then Err(NonFinite("invalid value encountered in divide"))
      else Ok(Scale(Phase(v), v))
  }

  /** Multiplying by ±1 keeps every magnitude. */
  lemma UnitScale(s: real, v: Vector)
    requires s == 1.0 || s == -1.0
    ensures forall i :: 0 <= i < |v| ==> Abs(Scale(s, v)[i]) == Abs(v[i])
  {
    if s == 1.0 {
      assert forall i :: 0 <= i < |v| ==> Scale(s, v)[i] == v[i];
    } else {
      assert forall i :: 0 <= i < |v| ==> Scale(s, v)[i] == -v[i];
    }
  }

  /** A phased column is the column or its negation, keeps its pivot, and
      has a positive pivot. */
  lemma PhaseColumnFlips(v: Vector)
    requires PhaseColumn(v).Ok?
    ensures var u := PhaseColumn(v).value;
            && ((forall i :: 0 <= i < |v| ==> u[i] == v[i]) || (forall i :: 0 <= i < |v| ==> u[i] == -v[i]))
            && Pivot(u) == Pivot(v)
            && u[Pivot(v)] > 0.0
  {
    var u := PhaseColumn(v).value;
    UnitScale(Phase(v), v);
    PivotSeesMagnitudes(v, u);
  }

  /** The scan of `phase_max_pos` as a loop; `rephase` reports a column
      whose pivot was negative. */
  method PhaseMaxPos(v: Vector) returns (r: Result<Vector>, rephase: bool)
    ensures r == PhaseColumn(v)
    ensures rephase <==> r.Ok? && v[Pivot(v)] < 0.0
  {
    if |v| == 0 {
      return Err(IndexError("index 0 is out of bounds for axis 0 with size 0")), false;
    }
    var maxIdx: nat := 0;
    var maxVal := -1.0;
    var i := 0;
    while i < |v|
      invariant 0 <= i <= |v|
      invariant i == 0 ==> maxVal == -1.0 && maxIdx == 0
      invariant i > 0 ==> maxIdx < i && maxVal == Abs(v[maxIdx])
      invariant forall j :: 0 <= j < i ==> Abs(v[j]) <= maxVal
      invariant forall j :: maxIdx < j < i ==> Abs(v[j]) < maxVal
    {
      if Abs(v[i]) >= maxVal {
        maxIdx := i;
        maxVal := Abs(v[i]);
      }
      i := i + 1;
    }
    var p := Pivot(v);
    assert maxIdx == p by {
      assert Abs(v[p]) <= Abs(v[maxIdx]) && Abs(v[maxIdx]) <= Abs(v[p]);
    }
    if v[maxIdx] == 0.0 {
      r := PhaseColumn(v);
      return r, false;
    }
    var phase := v[maxIdx] / Abs(v[maxIdx]);
    r := Ok(Scale(phase, v));
    rephase := phase < 0.0;
  }

  /** `_phase_cols_to_max_element(arr)` for an r×c array: column j of the
      result is `phase_max_pos` of column j.  With no column the result is
      the empty r×0 array; with columns but no row the first column fails to
      index; an all-zero column becomes nan. */
  function PhaseCols(a: Matrix, rows: nat, cols: nat): (r: Result<Matrix>)
    requires Rect(a, rows, cols)
    ensures r.Ok? <==> forall j :: 0 <= j < cols ==> PhaseColumn(Column(a, j)).Ok?
    ensures cols > 0 && rows == 0 ==> r.Err? && r.error.IndexError?
    ensures r.Ok? ==> Rect(r.value, rows, cols)
    ensures r.Ok? ==> forall j :: 0 <= j < cols ==> Column(r.value, j) == PhaseColumn(Column(a, j)).value
  {
    if cols == 0 then Ok(a)
    else if rows == 0 then
      assert PhaseColumn(Column(a, 0)).Err?;
      Err(IndexError("index 0 is out of bounds for axis 0 with size 0"))
    else if exists j :: 0 <= j < cols && PhaseColumn(Column(a, j)).Err? then
      Err(NonFinite("invalid value encountered in divide"))
    else
      var phased := seq(cols, j requires 0 <= j < cols => PhaseColumn(Column(a, j)).value);
      var b := seq(rows, i requires 0 <= i < rows => seq(cols, j requires 0 <= j < cols => phased[j][i]));
      assert forall j :: 0 <= j < cols ==> Column(b, j) == phased[j];
      Ok(b)
  }

  /** Phasing succeeds exactly when every column has a nonzero element
      (and, with columns, there is a row); it keeps every magnitude, flips
      whole columns only, and leaves every pivot positive. */
  lemma PhaseColsShape(a: Matrix, rows: nat, cols: nat)
    requires Rect(a, rows, cols)
    ensures var r := PhaseCols(a, rows, cols);
            && (r.Ok? <==> cols == 0 || (rows > 0 && forall j :: 0 <= j < cols ==> !AllZero(Column(a, j))))
            && (r.Ok? ==> forall j :: 0 <= j < cols ==>
                  && ((forall i :: 0 <= i < rows ==> r.value[i][j] == a[i][j])
                      || (forall i :: 0 <= i < rows ==> r.value[i][j] == -a[i][j]))
                  && r.value[Pivot(Column(a, j))][j] > 0.0)
  {
    var r := PhaseCols(a, rows, cols);
    if r.Ok? {
      forall j | 0 <= j < cols
        ensures (forall i :: 0 <= i < rows ==> r.value[i][j] == a[i][j])
                || (forall i :: 0 <= i < rows ==> r.value[i][j] == -a[i][j])
        ensures r.value[Pivot(Column(a, j))][j] > 0.0
      {
        PhaseColumnFlips(Column(a, j));
        assert forall i :: 0 <= i < rows ==> r.value[i][j] == Column(r.value, j)[i] && a[i][j] == Column(a, j)[i];
      }
    }
  }

  /** One column phased twice is phased once. */
  lemma PhaseColumnIdempotent(v: Vector)
    requires PhaseColumn(v).Ok?
    ensures PhaseColumn(PhaseColumn(v).value) == PhaseColumn(v)
  {
    var u := PhaseColumn(v).value;
    PhaseColumnFlips(v);
    assert !AllZero(u);
    assert Phase(u) == 1.0;
    assert Scale(1.0, u) == u;
  }

  /** Phasing an already phased matrix changes nothing. */
  lemma PhaseColsIdempotent(a: Matrix, rows: nat, cols: nat)
    requires Rect(a, rows, cols)
    ensures var r := PhaseCols(a, rows, cols);
            r.Ok? ==> PhaseCols(r.value, rows, cols) == r
  {
    var r := PhaseCols(a, rows, cols);
    if r.Ok? && cols > 0 {
      var b := r.value;
      forall j | 0 <= j < cols ensures PhaseColumn(Column(b, j)) == Ok(Column(b, j)) {
        PhaseColumnIdempotent(Column(a, j));
      }
      var r2 := PhaseCols(b, rows, cols);
      forall i | 0 <= i < rows ensures r2.value[i] == b[i] {
        forall j | 0 <= j < cols ensures r2.value[i][j] == b[i][j] {
          assert Column(r2.value, j)[i] == Column(b, j)[i];
        }
      }
      assert r2.value == b;
    }
  }

  /** Negating a column negates its phase and leaves its phased form. */
  lemma PhaseColumnSignInvariant(v: Vector)
    ensures PhaseColumn(Scale(-1.0, v)) == PhaseColumn(v)
  {
    var n := Scale(-1.0, v);
    if |v| > 0 {
      UnitScale(-1.0, v);
      PivotSeesMagnitudes(v, n);
      ZeroPivot(v);
      ZeroPivot(n);
      if !AllZero(v) {
        var s := Phase(v);
        assert Phase(n) == -s;
        assert Scale(-s, n) == Scale(s, v);
      }
    }
  }

  /** The sign of an input column does not matter: negating it gives the
      same phased matrix. */
  lemma PhaseColsSignInvariant(a: Matrix, rows: nat, cols: nat, x: nat)
    requires Rect(a, rows, cols)
    ensures PhaseCols(NegateColumn(a, cols, x), rows, cols) == PhaseCols(a, rows, cols)
  {
    var n := NegateColumn(a, cols, x);
    forall j | 0 <= j < cols ensures PhaseColumn(Column(n, j)) == PhaseColumn(Column(a, j)) {
      if j == x {
        assert Column(n, j) == Scale(-1.0, Column(a, j));
        PhaseColumnSignInvariant(Column(a, j));
      } else {
        assert Column(n, j) == Column(a, j);
      }
    }
    var r, s := PhaseCols(n, rows, cols), PhaseCols(a, rows, cols);
    if r.Ok? && cols > 0 {
      forall i | 0 <= i < rows ensures r.value[i] == s.value[i] {
        forall j | 0 <= j < cols ensures r.value[i][j] == s.value[i][j] {
          assert Column(r.value, j)[i] == Column(s.value, j)[i];
        }
      }
      assert r.value == s.value;
    } else if cols == 0 {
      assert forall i :: 0 <= i < rows ==> n[i] == [] == a[i];
      assert n == a;
    }
  }
}
