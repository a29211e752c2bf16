/** Orientation of a molecule (optrotvib/molecule.py, "Orientation
    methods"): the moment-of-inertia tensor, the rotation into the frame of
    its eigenvectors, the sign convention fixed after the rotation, and the
    shift to the centre of mass.

    The eigensolver `np.linalg.eigh` is a parameter: any function returning
    a 3×3 matrix for a 3×3 input.  Everything else is exact real algebra.
 */
module Orientation {

  import opened Results
  import opened Matrices
  import opened Elements
  import opened Molecules

  // ---------------------------------------------------------------------
  // Inertia tensor

  /** Weights and coordinates of equal length after numpy broadcasting of
      `weight * geom[:, k]`: equal lengths pair up, a single weight or a
      single atom is repeated, anything else cannot be broadcast. */
  function Broadcast(geom: Matrix, w: seq<real>): (r: Result<(Matrix, seq<real>)>)
    ensures r.Ok? <==> |w| == |geom| || |w| == 1 || |geom| == 1
    ensures r.Err? ==> r.error.ValueError?
    ensures r.Ok? ==> |r.value.0| == |r.value.1|
    ensures |w| == |geom| ==> r == Ok((geom, w))
  {
    if |w| == |geom| then Ok((geom, w))
    else if |w| == 1 then Ok((geom, seq(|geom|, _ => w[0])))
    else if |geom| == 1 then Ok((seq(|w|, _ => geom[0]), w))
    else Err(ValueError("operands could not be broadcast together"))
  }

  /** The two axes other than `a`. */
  function OtherAxes(a: nat): (nat, nat)
    requires a < 3
  {
    if a == 0 then (1, 2) else if a == 1 then (0, 2) else (0, 1)
  }

  /** Diagonal entry a: Σ w_i (r_i[b]² + r_i[c]²) over the other axes b, c. */
  function DiagonalTerms(g: Matrix, w: seq<real>, a: nat): seq<real>
    requires a < 3 && Rect(g, |g|, 3) && |w| == |g|
  {
    var (b, c) := OtherAxes(a);
    seq(|g|, i requires 0 <= i < |g| => w[i] * (g[i][b] * g[i][b] + g[i][c] * g[i][c]))
  }

  /** Off-diagonal entry (a, b) before the sign: Σ w_i r_i[a] r_i[b]. */
  function ProductTerms(g: Matrix, w: seq<real>, a: nat, b: nat): seq<real>
    requires a < 3 && b < 3 && Rect(g, |g|, 3) && |w| == |g|
  {
    seq(|g|, i requires 0 <= i < |g| => w[i] * g[i][a] * g[i][b])
  }

  /** The entries the source computes: the diagonal and the upper triangle. */
  function UpperEntry(g: Matrix, w: seq<real>, a: nat, b: nat): real
    requires a <= b < 3 && Rect(g, |g|, 3) && |w| == |g|
  {
    if a == b then Sum(DiagonalTerms(g, w, a)) else -1.0 * Sum(ProductTerms(g, w, a, b))
  }

  /** `_inertial_tensor(geom, weight)` on equal-length inputs: the upper
      triangle is computed and mirrored into the lower one. */
  function Tensor(g: Matrix, w: seq<real>): (r: Matrix)
    requires Rect(g, |g|, 3) && |w| == |g|
    ensures Rect(r, 3, 3) && Symmetric(r)
  {
    seq(3, a requires 0 <= a < 3 =>
      seq(3, b requires 0 <= b < 3 => if a <= b then UpperEntry(g, w, a, b) else UpperEntry(g, w, b, a)))
  }

  /** `_inertial_tensor(geom, weight)`, broadcasting included: a symmetric
      3×3 matrix whenever numpy can pair the weights with the atoms. */
  function InertiaTensor(geom: Matrix, w: seq<real>): (r: Result<Matrix>)
    requires Rect(geom, |geom|, 3)
    ensures r.Ok? <==> |w| == |geom| || |w| == 1 || |geom| == 1
    ensures r.Err? ==> r.error.ValueError?
    ensures r.Ok? ==> Rect(r.value, 3, 3) && Symmetric(r.value)
  {
    var (g, ws) :- Broadcast(geom, w);
    Ok(Tensor(g, ws))
  }

  /** The textbook definition the tensor meets: I_ab = Σ_i w_i (δ_ab |r_i|²
      − r_i[a] r_i[b]). */
  function ReferenceTerms(g: Matrix, w: seq<real>, a: nat, b: nat): seq<real>
    requires a < 3 && b < 3 && Rect(g, |g|, 3) && |w| == |g|
  {
    seq(|g|, i requires 0 <= i < |g| =>
      w[i] * ((if a == b then g[i][0] * g[i][0] + g[i][1] * g[i][1] + g[i][2] * g[i][2] else 0.0) - g[i][a] * g[i][b]))
  }

  function ReferenceEntry(g: Matrix, w: seq<real>, a: nat, b: nat): real
    requires a < 3 && b < 3 && Rect(g, |g|, 3) && |w| == |g|
  {
    Sum(ReferenceTerms(g, w, a, b))
  }

  /** Every entry of the computed tensor is the textbook one. */
  lemma TensorIsReference(g: Matrix, w: seq<real>)
    requires Rect(g, |g|, 3) && |w| == |g|
    ensures forall a, b :: 0 <= a < 3 && 0 <= b < 3 ==> Tensor(g, w)[a][b] == ReferenceEntry(g, w, a, b)
  {
    forall a, b | 0 <= a < 3 && 0 <= b < 3
      ensures Tensor(g, w)[a][b] == ReferenceEntry(g, w, a, b)
    {
      var lo := if a <= b then a else b;
      var hi := if a <= b then b else a;
      EntryIsReference(g, w, lo, hi);
      ReferenceSymmetric(g, w, a, b);
    }
  }

  lemma EntryIsReference(g: Matrix, w: seq<real>, a: nat, b: nat)
    requires a <= b < 3 && Rect(g, |g|, 3) && |w| == |g|
    ensures UpperEntry(g, w, a, b) == ReferenceEntry(g, w, a, b)
  {
    if a == b {
      DiagonalIsReference(g, w, a);
    } else {
      ProductIsReference(g, w, a, b);
    }
  }

  lemma DiagonalIsReference(g: Matrix, w: seq<real>, a: nat)
    requires a < 3 && Rect(g, |g|, 3) && |w| == |g|
    ensures Sum(DiagonalTerms(g, w, a)) == ReferenceEntry(g, w, a, a)
  {
    var refTerms := ReferenceTerms(g, w, a, a);
    var d := DiagonalTerms(g, w, a);
    var (b, c) := OtherAxes(a);
    forall i | 0 <= i < |g| ensures refTerms[i] == d[i] {
      var p0, p1, p2 := g[i][0] * g[i][0], g[i][1] * g[i][1], g[i][2] * g[i][2];
      var inner := p0 + p1 + p2 - g[i][a] * g[i][a];
      assert inner == g[i][b] * g[i][b] + g[i][c] * g[i][c];
      assert refTerms[i] == w[i] * inner;
    }
    assert refTerms == d;
  }

  lemma ProductIsReference(g: Matrix, w: seq<real>, a: nat, b: nat)
    requires a < b < 3 && Rect(g, |g|, 3) && |w| == |g|
    ensures -1.0 * Sum(ProductTerms(g, w, a, b)) == ReferenceEntry(g, w, a, b)
  {
    var refTerms := ReferenceTerms(g, w, a, b);
    var p := ProductTerms(g, w, a, b);
    forall i | 0 <= i < |g| ensures refTerms[i] == -1.0 * p[i] {
      var xy := g[i][a] * g[i][b];
      assert refTerms[i] == w[i] * (0.0 - xy);
      assert p[i] == w[i] * g[i][a] * g[i][b];
    }
    SumScale(p, refTerms, -1.0);
  }

  lemma ReferenceSymmetric(g: Matrix, w: seq<real>, a: nat, b: nat)
    requires a < 3 && b < 3 && Rect(g, |g|, 3) && |w| == |g|
    ensures ReferenceEntry(g, w, a, b) == ReferenceEntry(g, w, b, a)
  {
    var s, t := ReferenceTerms(g, w, a, b), ReferenceTerms(g, w, b, a);
    forall i | 0 <= i < |g| ensures s[i] == t[i] {
      assert g[i][a] * g[i][b] == g[i][b] * g[i][a];
    }
    assert s == t;
  }

  /** Non-negative weights give a non-negative diagonal. */
  lemma TensorDiagonalNonNegative(g: Matrix, w: seq<real>)
    requires Rect(g, |g|, 3) && |w| == |g|
    requires forall i :: 0 <= i < |w| ==> w[i] >= 0.0
    ensures forall a :: 0 <= a < 3 ==> Tensor(g, w)[a][a] >= 0.0
  {
    forall a | 0 <= a < 3 ensures Tensor(g, w)[a][a] >= 0.0 {
      var d := DiagonalTerms(g, w, a);
      var (b, c) := OtherAxes(a);
      forall i | 0 <= i < |g| ensures d[i] >= 0.0 {
        var s := g[i][b] * g[i][b] + g[i][c] * g[i][c];
        assert g[i][b] * g[i][b] >= 0.0 && g[i][c] * g[i][c] >= 0.0;
        assert d[i] == w[i] * s;
      }
      SumNonNegative(d);
    }
  }

  // ---------------------------------------------------------------------
  // Sign convention after the rotation

  /** `10**(-GEOMETRY_NOISE)` with GEOMETRY_NOISE = 7. */
  const GeomNoise: real := 1.0 / 10000000.0

  /** A coordinate counts when its magnitude reaches the noise level. */
  predicate Significant(v: real) {
    Abs(v) >= GeomNoise
  }

  /** The first row at or after `from` whose coordinate on axis `x` is
      significant, if there is one. */
  function FirstSignificantFrom(g: Matrix, x: nat, from: nat): (r: Option<nat>)
    requires Rect(g, |g|, 3) && x < 3
    ensures r.Some? ==> from <= r.value < |g| && Significant(g[r.value][x])
                        && forall j :: from <= j < r.value ==> !Significant(g[j][x])
    ensures r.None? ==> forall j :: from <= j < |g| ==> !Significant(g[j][x])
    decreases |g| - from
  {
    if from >= |g| then None
    else if Significant(g[from][x]) then Some(from)
    else FirstSignificantFrom(g, x, from + 1)
  }

  function FirstSignificant(g: Matrix, x: nat): Option<nat>
    requires Rect(g, |g|, 3) && x < 3
  {
    FirstSignificantFrom(g, x, 0)
  }

  /** Axis `x` is negated when its first significant coordinate is negative. */
  predicate Flips(g: Matrix, x: nat)
    requires Rect(g, |g|, 3) && x < 3
  {
    var f := FirstSignificant(g, x);
    f.Some? && g[f.value][x] < 0.0
  }

  /** The phase step of `orient_molecule`: whole columns negated so that the
      first significant coordinate on every axis is positive. */
  function Phase(g: Matrix): (r: Matrix)
    requires Rect(g, |g|, 3)
    ensures Rect(r, |g|, 3)
  {
    seq(|g|, i requires 0 <= i < |g| =>
      seq(3, x requires 0 <= x < 3 => if Flips(g, x) then -g[i][x] else g[i][x]))
  }

  /** Axis `x` is settled exactly when its first significant row lies
      before `bound`. */
  predicate Settled(g: Matrix, checked: seq<bool>, x: nat, bound: nat)
    requires Rect(g, |g|, 3) && x < 3 && |checked| == 3
  {
    checked[x] <==> FirstSignificant(g, x).Some? && FirstSignificant(g, x).value < bound
  }

  /** Axis `x` is settled exactly when its first significant row is at or
      before `num`. */
  predicate SettledAt(g: Matrix, checked: seq<bool>, x: nat, num: nat)
    requires Rect(g, |g|, 3) && x < 3 && |checked| == 3
  {
    checked[x] <==> FirstSignificant(g, x).Some? && FirstSignificant(g, x).value <= num
  }

  /** `r` is `g` with exactly the settled axes that need it negated. */
  predicate Applied(g: Matrix, r: Matrix, checked: seq<bool>)
    requires Rect(g, |g|, 3) && |checked| == 3
  {
    && Rect(r, |g|, 3)
    && forall i, y :: 0 <= i < |g| && 0 <= y < 3 ==>
         r[i][y] == (if checked[y] && Flips(g, y) then -g[i][y] else g[i][y])
  }

  /** One step of the inner loop: axis `x` at atom `num`. */
  method SettleAxis(g: Matrix, r: Matrix, checked: seq<bool>, num: nat, x: nat) returns (r': Matrix, checked': seq<bool>)
    requires Rect(g, |g|, 3) && num < |g| && x < 3 && |checked| == 3
    requires Applied(g, r, checked) && Settled(g, checked, x, num)
    ensures |checked'| == 3 && Applied(g, r', checked') && SettledAt(g, checked', x, num)
    ensures forall y :: 0 <= y < 3 && y != x ==> checked'[y] == checked[y]
  {
    r', checked' := r, checked;
    if !checked[x] {
      var v := r[num][x];
      assert v == g[num][x];
      if Significant(v) {
        assert FirstSignificant(g, x) == Some(num);
        checked' := checked[x := true];
        if v < 0.0 {
          r' := NegateColumn(r, 3, x);
        }
      } else {
        assert !(FirstSignificant(g, x).Some? && FirstSignificant(g, x).value == num);
      }
    }
  }

  /** The source's loop: atoms in order, the axes not yet settled in order,
      the first significant coordinate settles its axis and negates the
      column when negative, stopping once all three axes are settled. */
  method PhaseStep(g: Matrix) returns (r: Matrix)
    requires Rect(g, |g|, 3)
    ensures r == Phase(g)
  {
    r := g;
    var checked := [false, false, false];
    var num := 0;
    // the source breaks out of the atom loop once all three axes are settled
    while num < |g| && !(checked[0] && checked[1] && checked[2])
      invariant 0 <= num <= |g| && |checked| == 3
      invariant forall x :: 0 <= x < 3 ==> Settled(g, checked, x, num)
      invariant Applied(g, r, checked)
    {
      var x := 0;
      while x < 3
        invariant 0 <= x <= 3 && |checked| == 3
        invariant forall y :: 0 <= y < x ==> SettledAt(g, checked, y, num)
        invariant forall y :: x <= y < 3 ==> Settled(g, checked, y, num)
        invariant Applied(g, r, checked)
      {
        var before := checked;
        r, checked := SettleAxis(g, r, checked, num, x);
        forall y | 0 <= y < x ensures SettledAt(g, checked, y, num) {
          assert SettledAt(g, before, y, num);
        }
        forall y | x < y < 3 ensures Settled(g, checked, y, num) {
          assert Settled(g, before, y, num);
        }
        x := x + 1;
      }
      var next := num + 1;
      forall y | 0 <= y < 3 ensures Settled(g, checked, y, next) {
        assert SettledAt(g, checked, y, num);
      }
      num := num + 1;
    }
    forall x | 0 <= x < 3 && !checked[x] ensures !Flips(g, x) {
      assert Settled(g, checked, x, num);
    }
    forall i | 0 <= i < |g| ensures r[i] == Phase(g)[i] {
      assert forall x :: 0 <= x < 3 ==> r[i][x] == Phase(g)[i][x];
    }
  }

  /** After the phase step every axis with a significant coordinate has the
      same first significant atom as before, and that coordinate is now
      positive. */
  lemma PhaseFirstPositive(g: Matrix)
    requires Rect(g, |g|, 3)
    ensures forall x :: 0 <= x < 3 ==> FirstSignificant(Phase(g), x) == FirstSignificant(g, x)
    ensures forall x :: 0 <= x < 3 && FirstSignificant(g, x).Some? ==>
              Phase(g)[FirstSignificant(g, x).value][x] > 0.0
  {
    forall x | 0 <= x < 3
      ensures FirstSignificant(Phase(g), x) == FirstSignificant(g, x)
    {
      FirstSignificantSigned(g, Phase(g), x, 0);
    }
  }

  /** Significance ignores sign, so a matrix whose column `x` agrees up to
      sign has the same first significant row on that axis. */
  lemma {:induction false} FirstSignificantSigned(g: Matrix, h: Matrix, x: nat, from: nat)
    requires Rect(g, |g|, 3) && Rect(h, |g|, 3) && x < 3
    requires forall i :: 0 <= i < |g| ==> Abs(h[i][x]) == Abs(g[i][x])
    ensures FirstSignificantFrom(h, x, from) == FirstSignificantFrom(g, x, from)
    decreases |g| - from
  {
    if from < |g| {
      FirstSignificantSigned(g, h, x, from + 1);
    }
  }

  /** The phase step negates whole columns and nothing else. */
  lemma PhaseColumnsOnly(g: Matrix)
    requires Rect(g, |g|, 3)
    ensures forall x :: 0 <= x < 3 ==> ColumnKept(g, Phase(g), x) || ColumnNegated(g, Phase(g), x)
    ensures forall x :: 0 <= x < 3 ==> (Flips(g, x) ==> ColumnNegated(g, Phase(g), x)) && (!Flips(g, x) ==> ColumnKept(g, Phase(g), x))
  {
  }

  predicate ColumnKept(g: Matrix, h: Matrix, x: nat)
    requires Rect(g, |g|, 3) && Rect(h, |g|, 3) && x < 3
  {
    forall i :: 0 <= i < |g| ==> h[i][x] == g[i][x]
  }

  predicate ColumnNegated(g: Matrix, h: Matrix, x: nat)
    requires Rect(g, |g|, 3) && Rect(h, |g|, 3) && x < 3
  {
    forall i :: 0 <= i < |g| ==> h[i][x] == -g[i][x]
  }

  /** A second phase step changes nothing. */
  lemma PhaseIdempotent(g: Matrix)
    requires Rect(g, |g|, 3)
    ensures Phase(Phase(g)) == Phase(g)
  {
    var p := Phase(g);
    PhaseFirstPositive(g);
    forall x | 0 <= x < 3 ensures !Flips(p, x) {
    }
    forall i | 0 <= i < |p| ensures Phase(p)[i] == p[i] {
      assert forall x :: 0 <= x < 3 ==> Phase(p)[i][x] == p[i][x];
    }
  }

  // ---------------------------------------------------------------------
  // orient_molecule and shift_to_com

  /** `orient_molecule()`: the masses (KeyError for an unknown symbol), the
      inertia tensor of the current geometry (ValueError when the masses
      cannot be paired with the atoms), the geometry rotated by the
      eigenvectors `eigh` returns, then the phase step. */
  function Orient(m: Molecule, t: Table, eigh: Matrix -> Matrix): (r: Result<Molecule>)
    requires Rect(m.geometry, |m.geometry|, 3)
    requires forall a: Matrix :: Rect(a, 3, 3) ==> Rect(eigh(a), 3, 3)
    ensures r.Ok? <==> Masses(m, t).Ok? && InertiaTensor(m.geometry, Masses(m, t).value).Ok?
    ensures r.Ok? ==>
              var evecs := eigh(InertiaTensor(m.geometry, Masses(m, t).value).value);
              && Rect(r.value.geometry, |m.geometry|, 3)
              && r.value.geometry == Phase(MatMul(m.geometry, evecs, 3, 3))
              && r.value == m.(geometry := r.value.geometry)
  {
    var w :- Masses(m, t);
    var tensor :- InertiaTensor(m.geometry, w);
    var evecs := eigh(tensor);
    Ok(m.(geometry := Phase(MatMul(m.geometry, evecs, 3, 3))))
  }

  /** An oriented geometry meets the sign convention: re-running the phase
      step on it changes nothing, and each axis's first significant
      coordinate is positive. */
  lemma OrientedIsPhased(m: Molecule, t: Table, eigh: Matrix -> Matrix)
    requires Rect(m.geometry, |m.geometry|, 3)
    requires forall a: Matrix :: Rect(a, 3, 3) ==> Rect(eigh(a), 3, 3)
    requires Orient(m, t, eigh).Ok?
    ensures var g := Orient(m, t, eigh).value.geometry;
            && Phase(g) == g
            && forall x :: 0 <= x < 3 && FirstSignificant(g, x).Some? ==> g[FirstSignificant(g, x).value][x] > 0.0
  {
    var w := Masses(m, t).value;
    var rotated := MatMul(m.geometry, eigh(InertiaTensor(m.geometry, w).value), 3, 3);
    PhaseIdempotent(rotated);
    PhaseFirstPositive(rotated);
  }

  /** `get_fragment(real, ghost)` with its default `orient=True`. */
  function GetFragmentOriented(m: Molecule, t: Table, eigh: Matrix -> Matrix,
                               realSel: Selection, ghostSel: Option<Selection>): (r: Result<Molecule>)
    requires WellFormed(m)
    requires forall a: Matrix :: Rect(a, 3, 3) ==> Rect(eigh(a), 3, 3)
    ensures GetFragment(m, realSel, ghostSel).Err? ==> r == GetFragment(m, realSel, ghostSel)
    ensures r.Ok? ==> GetFragment(m, realSel, ghostSel).Ok?
                      && Rect(r.value.geometry, |r.value.geometry|, 3)
                      && Phase(r.value.geometry) == r.value.geometry
                      && r.value.symbols == GetFragment(m, realSel, ghostSel).value.symbols
                      && r.value.fragments == GetFragment(m, realSel, ghostSel).value.fragments
  {
    var f :- GetFragment(m, realSel, ghostSel);
    GetFragmentLayout(m, realSel, ghostSel);
    var o :- Orient(f, t, eigh);
    OrientedIsPhased(f, t, eigh);
    Ok(o)
  }

  /** Σ_i w_i r_i[k]: the mass-weighted sum of column k. */
  function WeightedColumnSum(g: Matrix, w: seq<real>, k: nat): real
    requires Rect(g, |g|, 3) && |w| == |g| && k < 3
  {
    Sum(Products(w, Column(g, k)))
  }

  /** `shift_to_com()`: `np.average(geometry, axis=0, weights=masses)`
      subtracted from every row.  Masses that are not one per atom are a
      ValueError, masses summing to zero a ZeroDivisionError. */
  function ShiftToCom(m: Molecule, t: Table): (r: Result<Molecule>)
    requires Rect(m.geometry, |m.geometry|, 3)
    ensures r.Ok? <==> Masses(m, t).Ok? && |Masses(m, t).value| == |m.geometry| && Sum(Masses(m, t).value) != 0.0
    ensures r.Err? && Masses(m, t).Ok? && |Masses(m, t).value| != |m.geometry| ==> r.error.ValueError?
    ensures r.Ok? ==>
              var w := Masses(m, t).value;
              && Rect(r.value.geometry, |m.geometry|, 3)
              && r.value == m.(geometry := r.value.geometry)
              && (forall k :: 0 <= k < 3 ==> WeightedColumnSum(r.value.geometry, w, k) == 0.0)
              && (forall i, j, k :: 0 <= i < |m.geometry| && 0 <= j < |m.geometry| && 0 <= k < 3 ==>
                    r.value.geometry[i][k] - r.value.geometry[j][k] == m.geometry[i][k] - m.geometry[j][k])
  {
    var w :- Masses(m, t);
    if |w| != |m.geometry| then Err(ValueError("Length of weights not compatible with specified axis."))
    else if Sum(w) == 0.0 then Err(ZeroDivisionError("Weights sum to zero, can't be normalized"))
    else
      var g := Centred(m.geometry, w);
      Ok(m.(geometry := g))
  }

  /** The rows minus the weighted average. */
  function Centred(g: Matrix, w: seq<real>): (r: Matrix)
    requires Rect(g, |g|, 3) && |w| == |g| && Sum(w) != 0.0
    ensures Rect(r, |g|, 3)
    ensures forall k :: 0 <= k < 3 ==> WeightedColumnSum(r, w, k) == 0.0
    ensures forall i, k :: 0 <= i < |g| && 0 <= k < 3 ==>
              r[i][k] == g[i][k] - WeightedColumnSum(g, w, k) / Sum(w)
  {
    var r := seq(|g|, i requires 0 <= i < |g| =>
      seq(3, k requires 0 <= k < 3 => g[i][k] - WeightedColumnSum(g, w, k) / Sum(w)));
    forall k | 0 <= k < 3 ensures WeightedColumnSum(r, w, k) == 0.0 {
      var c := WeightedColumnSum(g, w, k) / Sum(w);
      SumScale(w, Scale(c, w), c);
      CentredColumn(g, w, k, r, c);
    }
    r
  }

  /** Σ w_i (r_i − c) = Σ w_i r_i − c Σ w_i, which is zero for the weighted
      average c. */
  lemma CentredColumn(g: Matrix, w: seq<real>, k: nat, h: Matrix, c: real)
    requires Rect(g, |g|, 3) && Rect(h, |g|, 3) && |w| == |g| && k < 3
    requires forall i :: 0 <= i < |g| ==> h[i][k] == g[i][k] - c
    requires Sum(Scale(c, w)) == WeightedColumnSum(g, w, k)
    ensures WeightedColumnSum(h, w, k) == 0.0
  {
    SumShift(w, Column(g, k), Column(h, k), c);
  }

  /** Shifting a molecule that is already centred changes nothing. */
  lemma ShiftToComIdempotent(m: Molecule, t: Table)
    requires Rect(m.geometry, |m.geometry|, 3)
    requires ShiftToCom(m, t).Ok?
    ensures ShiftToCom(ShiftToCom(m, t).value, t) == ShiftToCom(m, t)
  {
    var s := ShiftToCom(m, t).value;
    var w := Masses(m, t).value;
    assert Masses(s, t) == Masses(m, t);
    var g2 := Centred(s.geometry, w);
    forall i | 0 <= i < |g2| ensures g2[i] == s.geometry[i] {
      assert forall k :: 0 <= k < 3 ==> g2[i][k] == s.geometry[i][k] - 0.0 / Sum(w);
    }
    assert g2 == s.geometry;
    assert s.(geometry := g2) == s;
  }
}
