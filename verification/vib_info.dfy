/** Normal modes from a Cartesian Hessian (`get_vibinfo`,
    optrotvib/findif.py).

    The molecule must sit at its centre of mass.  The Hessian is mass
    weighted, the idealised translations and rotations are projected out,
    and the eigenpairs of the projected matrix are sorted by force constant
    with the (numerically) zero ones dropped.  The eigenvectors give the
    normal modes in mass-weighted (`q`), plain (`w`) and normalised plain
    (`x`) coordinates, with reduced masses `mu` and frequencies `omega`.

    numpy's square root, `svd` and `eigh`, the tolerance `LINEAR_A_TOL`,
    machine epsilon and the unit conversions are parameters.  Where numpy
    would carry on with an infinity or a NaN after a division by zero, the
    model stops with `NonFinite`.
 */
module VibInfo {

  import opened Results
  import opened Matrices
  import opened Argsort
  import TrSpace

  /** How far the centre of mass may sit from the origin. */
  const ComTol: real := 0.0000000001

  /** Force constants at most this large in magnitude are dropped. */
  const ZeroForceConstant: real := 0.00001

  // ---------------------------------------------------------------------
  // The input checks

  /** `mass.shape[0] == geom.shape[0] == hess.shape[0] // 3 == hess.shape[1] // 3`
      and `geom.shape[1] == 3`. */
  predicate DimensionsAgree(natom: nat, geomRows: nat, geomCols: nat, hessRows: nat, hessCols: nat) {
    natom == geomRows && geomRows == hessRows / 3 && hessRows / 3 == hessCols / 3 && geomCols == 3
  }

  /** Coordinate c of the centre of mass, each atom's share divided by the
      total mass before it is added. */
  function ComAxis(mass: seq<real>, geom: Matrix, mw: real, c: nat): real
    requires Rect(geom, |mass|, 3) && c < 3 && mw != 0.0
  {
    Sum(seq(|mass|, i requires 0 <= i < |mass| => geom[i][c] * mass[i] / mw))
  }

  /** The first moment Σ_i m_i·g_i[c]. */
  function Moment(mass: seq<real>, geom: Matrix, c: nat): real
    requires Rect(geom, |mass|, 3) && c < 3
  {
    Sum(seq(|mass|, i requires 0 <= i < |mass| => geom[i][c] * mass[i]))
  }

  /** The centre of mass; no atoms leave it at the origin. */
  function CenterOfMass(mass: seq<real>, geom: Matrix): (com: Result<Vector>)
    requires Rect(geom, |mass|, 3)
    ensures com.Err? <==> |mass| > 0 && Sum(mass) == 0.0
    ensures com.Err? ==> com.error.NonFinite?
    ensures com.Ok? ==> |com.value| == 3
    ensures |mass| == 0 ==> com == Ok([0.0, 0.0, 0.0])
    ensures com.Ok? && |mass| > 0 ==>
              forall c :: 0 <= c < 3 ==> com.value[c] * Sum(mass) == Moment(mass, geom, c)
  {
    if |mass| == 0 then Ok([0.0, 0.0, 0.0])
    else if Sum(mass) == 0.0 then Err(NonFinite("division by a zero total mass"))
    else
      var mw := Sum(mass);
      var com := seq(3, c requires 0 <= c < 3 => ComAxis(mass, geom, mw, c));
      ComAxisMoment(mass, geom, mw, 0);
      ComAxisMoment(mass, geom, mw, 1);
      ComAxisMoment(mass, geom, mw, 2);
      Ok(com)
  }

  /** Dividing each share by the total mass and adding is dividing the
      first moment by the total mass. */
  lemma ComAxisMoment(mass: seq<real>, geom: Matrix, mw: real, c: nat)
    requires Rect(geom, |mass|, 3) && c < 3 && mw != 0.0
    ensures ComAxis(mass, geom, mw, c) * mw == Moment(mass, geom, c)
  {
    var xs := seq(|mass|, i requires 0 <= i < |mass| => geom[i][c] * mass[i]);
    var ys := seq(|mass|, i requires 0 <= i < |mass| => geom[i][c] * mass[i] / mw);
    SumScale(xs, ys, 1.0 / mw);
  }

  /** The check as written: `sum(com) > 1e-10` fails it. */
  predicate ComCheckAsWritten(com: Vector)
    requires |com| == 3
  {
    !(com[0] + com[1] + com[2] > ComTol)
  }

  /** The check as evidently intended: every coordinate of the centre of
      mass within the tolerance of zero. */
  predicate Centered(com: Vector)
    requires |com| == 3
  {
    Abs(com[0]) + Abs(com[1]) + Abs(com[2]) <= ComTol
  }

  /** A centred molecule passes the written check too. */
  lemma CenteredPassesAsWritten(com: Vector)
    requires |com| == 3 && Centered(com)
    ensures ComCheckAsWritten(com)
  {
  }

  /** Mirroring the molecule through the origin keeps it centred or not. */
  lemma CenteredMirror(com: Vector)
    requires |com| == 3
    ensures Centered(com) <==> Centered([-com[0], -com[1], -com[2]])
  {
  }

  /** The written check lets an atom one bohr from the origin through,
      while its mirror image is rejected. */
  lemma ComCheckOneSided()
    ensures CenterOfMass([1.0], [[-1.0, 0.0, 0.0]]) == Ok([-1.0, 0.0, 0.0])
    ensures ComCheckAsWritten([-1.0, 0.0, 0.0]) && !Centered([-1.0, 0.0, 0.0])
    ensures CenterOfMass([1.0], [[1.0, 0.0, 0.0]]) == Ok([1.0, 0.0, 0.0])
    ensures !ComCheckAsWritten([1.0, 0.0, 0.0])
  {
    ComOfOne(-1.0);
    ComOfOne(1.0);
  }

  lemma ComOfOne(x: real)
    ensures CenterOfMass([1.0], [[x, 0.0, 0.0]]) == Ok([x, 0.0, 0.0])
  {
    var geom := [[x, 0.0, 0.0]];
    assert Sum([1.0]) == 1.0 + Sum([1.0][1..]);
    forall c | 0 <= c < 3 ensures ComAxis([1.0], geom, 1.0, c) == geom[0][c] {
      var ys := seq(1, i requires 0 <= i < 1 => geom[i][c] * [1.0][i] / 1.0);
      assert ys == [geom[0][c]];
      assert Sum(ys) == ys[0] + Sum(ys[1..]);
    }
    var com := CenterOfMass([1.0], geom).value;
    assert com == [x, 0.0, 0.0];
  }

  /** The checks `get_vibinfo` makes before any algebra: the dimensions
      (an AttributeError) and the centre of mass (a ValueError), with the
      centre-of-mass test as written or as intended. */
  function CheckInput(natom: nat, geom: Matrix, geomCols: nat, hessRows: nat, hessCols: nat,
                      mass: seq<real>, corrected: bool): (r: Result<()>)
    requires Rect(geom, |geom|, geomCols) && natom == |mass|
    ensures !DimensionsAgree(natom, |geom|, geomCols, hessRows, hessCols) ==> r.Err? && r.error.AttributeError?
    ensures r.Ok? <==> && DimensionsAgree(natom, |geom|, geomCols, hessRows, hessCols)
                       && CenterOfMass(mass, geom).Ok?
                       && (if corrected then Centered(CenterOfMass(mass, geom).value)
                           else ComCheckAsWritten(CenterOfMass(mass, geom).value))
    ensures r.Err? && DimensionsAgree(natom, |geom|, geomCols, hessRows, hessCols) && CenterOfMass(mass, geom).Ok? ==>
              r.error.ValueError?
  {
    if !DimensionsAgree(natom, |geom|, geomCols, hessRows, hessCols) then
      Err(AttributeError("Dimension mismatch amoung mass, geometry and Hessian"))
    else
      var com :- CenterOfMass(mass, geom);
      var ok := if corrected then Centered(com) else ComCheckAsWritten(com);
      if !ok then Err(ValueError("Error, molecule must be at the center of mass"))
      else Ok(())
  }

  // ---------------------------------------------------------------------
  // The projector

  function Delta(i: nat, j: nat): real {
    if i == j then 1.0 else 0.0
  }

  /** Σ_r tr[r][i]·tr[r][j]: entry (i, j) of Σ_r outer(tr[r], tr[r]). */
  function Overlap(tr: Matrix, n: nat, i: nat, j: nat): real
    requires Rect(tr, |tr|, n) && i < n && j < n
  {
    Sum(seq(|tr|, r requires 0 <= r < |tr| => tr[r][i] * tr[r][j]))
  }

  /** `P = I; for irt in TRspace: P -= outer(irt, irt)`. */
  function Projector(tr: Matrix, n: nat): (p: Matrix)
    requires Rect(tr, |tr|, n)
    ensures Square(p, n)
    ensures forall i, j :: 0 <= i < n && 0 <= j < n ==> p[i][j] == Delta(i, j) - Overlap(tr, n, i, j)
    decreases |tr|
  {
    if |tr| == 0 then
      var p := Identity(n);
      assert forall i, j :: 0 <= i < n && 0 <= j < n ==> Overlap(tr, n, i, j) == 0.0;
      p
    else
      var k := |tr| - 1;
      var prev := Projector(tr[..k], n);
      var p := Subtract(prev, Outer(tr[k], tr[k]));
      OverlapLast(tr, n);
      p
  }

  /** The overlap over all rows is the overlap over all but the last plus
      the last row's product. */
  lemma OverlapLast(tr: Matrix, n: nat)
    requires Rect(tr, |tr|, n) && |tr| > 0
    ensures forall i, j :: 0 <= i < n && 0 <= j < n ==>
              Overlap(tr, n, i, j) == Overlap(tr[..|tr| - 1], n, i, j) + tr[|tr| - 1][i] * tr[|tr| - 1][j]
  {
    forall i, j | 0 <= i < n && 0 <= j < n {
      OverlapLastAt(tr, n, i, j);
    }
  }

  lemma OverlapLastAt(tr: Matrix, n: nat, i: nat, j: nat)
    requires Rect(tr, |tr|, n) && |tr| > 0 && i < n && j < n
    ensures Overlap(tr, n, i, j) == Overlap(tr[..|tr| - 1], n, i, j) + tr[|tr| - 1][i] * tr[|tr| - 1][j]
  {
    var k := |tr| - 1;
    var xs := seq(|tr|, r requires 0 <= r < |tr| => tr[r][i] * tr[r][j]);
    SumLast(xs);
    var ys := seq(k, r requires 0 <= r < k => tr[..k][r][i] * tr[..k][r][j]);
    forall r | 0 <= r < k ensures xs[..k][r] == ys[r] {
      assert tr[..k][r] == tr[r];
    }
    assert xs[..k] == ys;
  }

  /** The projector is symmetric. */
  lemma ProjectorSymmetric(tr: Matrix, n: nat)
    requires Rect(tr, |tr|, n)
    ensures Symmetric(Projector(tr, n))
  {
    EntriesSymmetric(Projector(tr, n), tr, n);
  }

  /** A matrix with the projector's entries is symmetric. */
  lemma EntriesSymmetric(p: Matrix, tr: Matrix, n: nat)
    requires Rect(tr, |tr|, n) && Square(p, n)
    requires forall i, j :: 0 <= i < n && 0 <= j < n ==> p[i][j] == Delta(i, j) - Overlap(tr, n, i, j)
    ensures Symmetric(p)
  {
    forall i, j | 0 <= i < n && 0 <= j < n ensures p[i][j] == p[j][i] {
      OverlapSymmetric(tr, n, i, j);
    }
  }

  lemma OverlapSymmetric(tr: Matrix, n: nat, i: nat, j: nat)
    requires Rect(tr, |tr|, n) && i < n && j < n
    ensures Overlap(tr, n, i, j) == Overlap(tr, n, j, i)
  {
    assert seq(|tr|, r requires 0 <= r < |tr| => tr[r][i] * tr[r][j])
        == seq(|tr|, r requires 0 <= r < |tr| => tr[r][j] * tr[r][i]);
  }

  // ---------------------------------------------------------------------
  // Mass weighting and projection

  /** `np.repeat(np.sqrt(mass), 3)`: each atom's root mass on its three
      coordinates. */
  function RootMasses(mass: seq<real>, sqrt: real -> real): (s: Vector)
    ensures |s| == 3 * |mass|
    ensures forall i :: 0 <= i < |s| ==> s[i] == sqrt(mass[i / 3])
  {
    seq(3 * |mass|, i requires 0 <= i < 3 * |mass| => sqrt(mass[i / 3]))
  }

  /** `np.einsum('i,ij,j->ij', 1/s, h, 1/s)`: entry (i, j) divided by
      s_i·s_j. */
  function MassWeighted(h: Matrix, s: Vector): (r: Matrix)
    requires Square(h, |s|) && forall i :: 0 <= i < |s| ==> s[i] != 0.0
    ensures Square(r, |s|)
    ensures forall i, j :: 0 <= i < |s| && 0 <= j < |s| ==> r[i][j] == h[i][j] / (s[i] * s[j])
  {
    var n := |s|;
    seq(n, i requires 0 <= i < n => seq(n, j requires 0 <= j < n => (1.0 / s[i]) * h[i][j] * (1.0 / s[j])))
  }

  /** Mass weighting keeps a Hessian symmetric. */
  lemma MassWeightedSymmetric(h: Matrix, s: Vector)
    requires Square(h, |s|) && Symmetric(h) && forall i :: 0 <= i < |s| ==> s[i] != 0.0
    ensures Symmetric(MassWeighted(h, s))
  {
    var r := MassWeighted(h, s);
    forall i, j | 0 <= i < |s| && 0 <= j < |s| ensures r[i][j] == r[j][i] {
      assert h[i][j] == h[j][i];
    }
  }

  /** `np.dot(P.T, mwhess).dot(P)`. */
  function Projected(p: Matrix, h: Matrix, n: nat): (r: Matrix)
    requires Square(p, n) && Square(h, n)
    ensures Square(r, n)
  {
    MatMul(MatMul(Transpose(p, n), h, n, n), p, n, n)
  }

  // ---------------------------------------------------------------------
  // Sorting and dropping the eigenpairs

  /** `np.linalg.eigh`'s result: the eigenvalues and the eigenvectors as
      columns. */
  datatype Eigh = Eigh(values: Vector, vectors: Matrix)

  predicate EighShaped(e: Eigh, n: nat) {
    |e.values| == n && Square(e.vectors, n)
  }

  /** The eigensolver returns n values and an n×n matrix for an n×n input. */
  ghost predicate EighShapes(eigh: Matrix -> Eigh) {
    forall m: Matrix, n: nat :: Square(m, n) ==> EighShaped(eigh(m), n)
  }

  /** The economy SVD has the shapes numpy gives it. */
  ghost predicate EconomySvd(svd: Matrix -> TrSpace.Svd) {
    forall a: Matrix, rows: nat, cols: nat :: Rect(a, rows, cols) ==> TrSpace.Economy(svd(a), rows, cols)
  }

  /** Whether the eigenpair at k survives: a force constant larger than
      the cut in magnitude. */
  function Kept(values: Vector): nat -> bool {
    k => 0 <= k < |values| && Abs(values[k]) > ZeroForceConstant
  }

  /** The eigenpairs `get_vibinfo` keeps, by their eigensolver index:
      `argsort` of the force constants, then those above the cut. */
  function ModeOrder(values: Vector): (kept: seq<nat>)
    ensures InBounds(values, kept) && SortedBy(values, kept) && Distinct(kept)
    ensures |kept| <= |values|
  {
    var order := ArgsortOf(values);
    ArgsortIsPermutation(values);
    KeepWhereSorted(values, order, Kept(values));
    KeepWhereDistinct(order, Kept(values));
    KeepWhere(order, Kept(values))
  }

  /** An eigenpair is kept exactly when its force constant is above the cut
      in magnitude, and then once. */
  lemma ModeOrderMembers(values: Vector, k: nat)
    ensures k in ModeOrder(values) <==> k < |values| && Abs(values[k]) > ZeroForceConstant
  {
    var order := ArgsortOf(values);
    ArgsortIsPermutation(values);
    KeepWhereMembers(order, Kept(values), k);
  }

  /** The normal-mode data (`vibinfo`): force constants `f`, frequencies
      `omega`, mass-weighted modes `q`, plain modes `w`, reduced masses
      `mu` and normalised plain modes `x`; modes are columns. */
  datatype Modes = Modes(f: Vector, omega: Vector, q: Matrix, w: Matrix, mu: Vector, x: Matrix)

  /** k modes of length n. */
  predicate Shaped(m: Modes, n: nat) {
    var k := |m.f|;
    && k <= n && |m.omega| == k && |m.mu| == k
    && Rect(m.q, n, k) && Rect(m.w, n, k) && Rect(m.x, n, k)
  }

  /** Force constants ascend and none is within the cut of zero. */
  predicate Ordered(m: Modes) {
    && (forall a, b :: 0 <= a < b < |m.f| ==> m.f[a] <= m.f[b])
    && (forall j :: 0 <= j < |m.f| ==> Abs(m.f[j]) > ZeroForceConstant)
  }

  /** The kept eigenpairs, in order. */
  predicate FromEigenpairs(m: Modes, e: Eigh) {
    var n := |e.values|;
    var kept := ModeOrder(e.values);
    && EighShaped(e, n) && Shaped(m, n) && |kept| == |m.f|
    && (forall j :: 0 <= j < |kept| ==> m.f[j] == e.values[kept[j]])
    && (forall i, j :: 0 <= i < n && 0 <= j < |kept| ==> m.q[i][j] == e.vectors[i][kept[j]])
  }

  /** The plain modes are the mass-weighted ones divided by the root
      masses; the reduced mass is 1/‖w_j‖²; x_j is √mu_j·w_j. */
  predicate Coordinates(m: Modes, s: Vector, sqrt: real -> real) {
    var n := |s|;
    && Shaped(m, n)
    && (forall i, j :: 0 <= i < n && 0 <= j < |m.f| ==> m.w[i][j] * s[i] == m.q[i][j])
    && (forall j :: 0 <= j < |m.f| ==> m.mu[j] * NormSquared(Column(m.w, j)) == 1.0)
    && (forall i, j :: 0 <= i < n && 0 <= j < |m.f| ==> m.x[i][j] == sqrt(m.mu[j]) * m.w[i][j])
  }

  /** A force constant's frequency, `sqrt(f * uconv_km) * uconv_cm`. */
  function Frequency(f: real, sqrt: real -> real, uconvKm: real, uconvCm: real): real {
    sqrt(f * uconvKm) * uconvCm
  }

  function Frequencies(f: Vector, sqrt: real -> real, uconvKm: real, uconvCm: real): (r: Vector)
    ensures |r| == |f| && forall j :: 0 <= j < |f| ==> r[j] == Frequency(f[j], sqrt, uconvKm, uconvCm)
  {
    seq(|f|, j requires 0 <= j < |f| => Frequency(f[j], sqrt, uconvKm, uconvCm))
  }

  /** The kept columns of the eigenvectors. */
  function KeptColumns(v: Matrix, n: nat, kept: seq<nat>): (q: Matrix)
    requires Square(v, n) && forall j :: 0 <= j < |kept| ==> kept[j] < n
    ensures Rect(q, n, |kept|)
    ensures forall i, j :: 0 <= i < n && 0 <= j < |kept| ==> q[i][j] == v[i][kept[j]]
  {
    seq(n, i requires 0 <= i < n => seq(|kept|, j requires 0 <= j < |kept| => v[i][kept[j]]))
  }

  /** `np.einsum('i,ij->ij', 1/s, q)`. */
  function Unweighted(q: Matrix, s: Vector, k: nat): (w: Matrix)
    requires Rect(q, |s|, k) && forall i :: 0 <= i < |s| ==> s[i] != 0.0
    ensures Rect(w, |s|, k)
    ensures forall i, j :: 0 <= i < |s| && 0 <= j < k ==> w[i][j] * s[i] == q[i][j]
  {
    seq(|s|, i requires 0 <= i < |s| => seq(k, j requires 0 <= j < k => (1.0 / s[i]) * q[i][j]))
  }

  /** `1 / norm(w, axis=0)**2`; a zero column divides by zero. */
  function ReducedMasses(w: Matrix, n: nat, k: nat): (mu: Result<Vector>)
    requires Rect(w, n, k)
    ensures mu.Err? <==> exists j :: 0 <= j < k && NormSquared(Column(w, j)) == 0.0
    ensures mu.Err? ==> mu.error.NonFinite?
    ensures mu.Ok? ==> |mu.value| == k && forall j :: 0 <= j < k ==> mu.value[j] * NormSquared(Column(w, j)) == 1.0
  {
    if exists j :: 0 <= j < k && NormSquared(Column(w, j)) == 0.0 then Err(NonFinite("division by a zero-length mode"))
    else Ok(seq(k, j requires 0 <= j < k => 1.0 / NormSquared(Column(w, j))))
  }

  /** `np.sqrt(mu) * w`: column j scaled by √mu_j. */
  function Normalized(w: Matrix, mu: Vector, n: nat, sqrt: real -> real): (x: Matrix)
    requires Rect(w, n, |mu|)
    ensures Rect(x, n, |mu|)
    ensures forall i, j :: 0 <= i < n && 0 <= j < |mu| ==> x[i][j] == sqrt(mu[j]) * w[i][j]
  {
    seq(n, i requires 0 <= i < n => seq(|mu|, j requires 0 <= j < |mu| => sqrt(mu[j]) * w[i][j]))
  }

  /** The normal modes from the eigenpairs of the projected Hessian. */
  function ModesOf(e: Eigh, s: Vector, sqrt: real -> real, uconvKm: real, uconvCm: real): (r: Result<Modes>)
    requires EighShaped(e, |s|) && forall i :: 0 <= i < |s| ==> s[i] != 0.0
    ensures r.Err? ==> r.error.NonFinite?
    ensures r.Ok? ==> && Ordered(r.value) && FromEigenpairs(r.value, e) && Coordinates(r.value, s, sqrt)
                      && r.value.omega == Frequencies(r.value.f, sqrt, uconvKm, uconvCm)
  {
    ModesOfKept(e, ModeOrder(e.values), s, sqrt, uconvKm, uconvCm)
  }

  function ModesOfKept(e: Eigh, kept: seq<nat>, s: Vector, sqrt: real -> real, uconvKm: real, uconvCm: real): (r: Result<Modes>)
    requires kept == ModeOrder(e.values)
    requires EighShaped(e, |s|) && forall i :: 0 <= i < |s| ==> s[i] != 0.0
    ensures r.Err? ==> r.error.NonFinite?
    ensures r.Ok? ==> && Ordered(r.value) && FromEigenpairs(r.value, e) && Coordinates(r.value, s, sqrt)
                      && r.value.omega == Frequencies(r.value.f, sqrt, uconvKm, uconvCm)
  {
    var f := KeptValues(e.values, kept);
    var q := KeptColumns(e.vectors, |s|, kept);
    var w := Unweighted(q, s, |kept|);
    var r := FromWeighted(f, q, w, s, sqrt, uconvKm, uconvCm);
    if r.Ok? then
      KeptModes(r.value, e, kept);
      r
    else r
  }

  /** The normalised plain modes `x` have unit length, given a square root
      that is exact on the reduced masses. */
  lemma UnitModes(m: Modes, s: Vector, sqrt: real -> real)
    requires Coordinates(m, s, sqrt)
    requires forall j :: 0 <= j < |m.mu| ==> sqrt(m.mu[j]) * sqrt(m.mu[j]) == m.mu[j]
    ensures forall j :: 0 <= j < |m.f| ==> NormSquared(Column(m.x, j)) == 1.0
  {
    forall j | 0 <= j < |m.f| ensures NormSquared(Column(m.x, j)) == 1.0 {
      UnitMode(m, s, sqrt, j);
    }
  }

  lemma UnitMode(m: Modes, s: Vector, sqrt: real -> real, j: nat)
    requires Coordinates(m, s, sqrt) && j < |m.f|
    requires sqrt(m.mu[j]) * sqrt(m.mu[j]) == m.mu[j]
    ensures NormSquared(Column(m.x, j)) == 1.0
  {
    var n := |s|;
    var mu := m.mu[j];
    var r := sqrt(mu);
    var cx := Column(m.x, j);
    var cw := Column(m.w, j);
    var a := seq(|cx|, k requires 0 <= k < |cx| => cx[k] * cx[k]);
    var b := seq(|cw|, k requires 0 <= k < |cw| => cw[k] * cw[k]);
    forall k | 0 <= k < n ensures a[k] == mu * b[k] {
      var wk := m.w[k][j];
      assert cx[k] == r * wk && cw[k] == wk;
      calc {
        a[k];
        (r * wk) * (r * wk);
        (r * r) * (wk * wk);
        mu * b[k];
      }
    }
    SumScale(b, a, mu);
    assert NormSquared(cx) == Sum(a) && NormSquared(cw) == Sum(b);
  }

  /** Modes whose force constants and eigenvectors are the kept eigenpairs
      are ordered and come from those eigenpairs. */
  lemma KeptModes(m: Modes, e: Eigh, kept: seq<nat>)
    requires kept == ModeOrder(e.values) && EighShaped(e, |e.values|) && Shaped(m, |e.values|)
    requires |m.f| == |kept| && forall j :: 0 <= j < |kept| ==> m.f[j] == e.values[kept[j]]
    requires forall i, j :: 0 <= i < |e.values| && 0 <= j < |kept| ==> m.q[i][j] == e.vectors[i][kept[j]]
    ensures Ordered(m) && FromEigenpairs(m, e)
  {
    ModesOrdered(e.values, kept, m.f);
  }

  /** The modes from the kept force constants, their eigenvectors and the
      mass-weighted displacements; a zero-length mode divides by zero. */
  function FromWeighted(f: Vector, q: Matrix, w: Matrix, s: Vector, sqrt: real -> real, uconvKm: real, uconvCm: real): (r: Result<Modes>)
    requires |f| <= |s| && Rect(q, |s|, |f|) && Rect(w, |s|, |f|)
    requires forall i, j :: 0 <= i < |s| && 0 <= j < |f| ==> w[i][j] * s[i] == q[i][j]
    ensures r.Err? ==> r.error.NonFinite?
    ensures r.Ok? ==> && r.value.f == f && r.value.q == q && Coordinates(r.value, s, sqrt)
                      && r.value.omega == Frequencies(f, sqrt, uconvKm, uconvCm)
  {
    var mu :- ReducedMasses(w, |s|, |f|);
    var x := Normalized(w, mu, |s|, sqrt);
    var omega := Frequencies(f, sqrt, uconvKm, uconvCm);
    CoordinatesOfParts(f, omega, q, w, mu, x, s, sqrt);
    Ok(Modes(f, omega, q, w, mu, x))
  }

  lemma CoordinatesOfParts(f: Vector, omega: Vector, q: Matrix, w: Matrix, mu: Vector, x: Matrix, s: Vector, sqrt: real -> real)
    requires Shaped(Modes(f, omega, q, w, mu, x), |s|) && |mu| == |f|
    requires forall i, j :: 0 <= i < |s| && 0 <= j < |f| ==> w[i][j] * s[i] == q[i][j]
    requires forall j :: 0 <= j < |mu| ==> mu[j] * NormSquared(Column(w, j)) == 1.0
    requires forall i, j :: 0 <= i < |s| && 0 <= j < |mu| ==> x[i][j] == sqrt(mu[j]) * w[i][j]
    ensures Coordinates(Modes(f, omega, q, w, mu, x), s, sqrt)
  {
  }

  /** The kept force constants. */
  function KeptValues(values: Vector, kept: seq<nat>): (f: Vector)
    requires InBounds(values, kept)
    ensures |f| == |kept| && forall j :: 0 <= j < |kept| ==> f[j] == values[kept[j]]
  {
    seq(|kept|, j requires 0 <= j < |kept| => values[kept[j]])
  }

  lemma ModesOrdered(values: Vector, kept: seq<nat>, f: Vector)
    requires kept == ModeOrder(values) && |f| == |kept|
    requires forall j :: 0 <= j < |kept| ==> f[j] == values[kept[j]]
    ensures forall a, b :: 0 <= a < b < |f| ==> f[a] <= f[b]
    ensures forall j :: 0 <= j < |f| ==> Abs(f[j]) > ZeroForceConstant
  {
    forall j | 0 <= j < |f| ensures Abs(f[j]) > ZeroForceConstant {
      assert kept[j] in kept;
      ModeOrderMembers(values, kept[j]);
    }
  }

  // ---------------------------------------------------------------------
  // The whole computation

  /** The mass-weighted Hessian with translations and rotations projected
      out: `P.T · (s⁻¹ H s⁻¹) · P`. */
  function ProjectedHessian(hess: Matrix, tr: Matrix, s: Vector): (r: Matrix)
    requires Square(hess, |s|) && Rect(tr, |tr|, |s|) && forall i :: 0 <= i < |s| ==> s[i] != 0.0
    ensures Square(r, |s|)
  {
    Projected(Projector(tr, |s|), MassWeighted(hess, s), |s|)
  }

  /** Everything after the translation/rotation space is known: the
      projector, the mass weighting (an `einsum` that cannot broadcast a
      Hessian of the wrong size), the eigenpairs and the modes. */
  function Vibrations(hess: Matrix, hessCols: nat, tr: Matrix, mass: seq<real>, sqrt: real -> real,
                      eigh: Matrix -> Eigh, uconvKm: real, uconvCm: real): (r: Result<Modes>)
    requires Rect(hess, |hess|, hessCols) && Rect(tr, |tr|, 3 * |mass|) && EighShapes(eigh)
    ensures (|hess| != 3 * |mass| || hessCols != 3 * |mass|) ==> r.Err? && r.error.ValueError?
    ensures r.Err? && |hess| == 3 * |mass| && hessCols == 3 * |mass| ==> r.error.NonFinite?
    ensures r.Ok? ==> var s := RootMasses(mass, sqrt);
                      && |hess| == |s| && (forall i :: 0 <= i < |s| ==> s[i] != 0.0)
                      && var e := eigh(ProjectedHessian(hess, tr, s));
                      && Shaped(r.value, |s|) && Ordered(r.value) && FromEigenpairs(r.value, e)
                      && Coordinates(r.value, s, sqrt)
                      && r.value.omega == Frequencies(r.value.f, sqrt, uconvKm, uconvCm)
  {
    var n := 3 * |mass|;
    if |hess| != n || hessCols != n then
      Err(ValueError("operands could not be broadcast together"))
    else
      var s := RootMasses(mass, sqrt);
      if exists i :: 0 <= i < n && s[i] == 0.0 then
        Err(NonFinite("division by a zero mass"))
      else
        var hp := ProjectedHessian(hess, tr, s);
        ModesOf(eigh(hp), s, sqrt, uconvKm, uconvCm)
  }

  /** `get_vibinfo(hess, geom, mass)`, with the centre-of-mass check as
      corrected (`corrected`) or as written.  Errors come in the source's
      order: the dimensions, the total mass, the centre of mass, the
      translation/rotation space, the Hessian's size, a zero mass, a
      zero-length mode. */
  function Run(hess: Matrix, hessCols: nat, geom: Matrix, geomCols: nat, mass: seq<real>,
               tol: real, eps: real, sqrt: real -> real, svd: Matrix -> TrSpace.Svd,
               eigh: Matrix -> Eigh, uconvKm: real, uconvCm: real, corrected: bool): (r: Result<Modes>)
    requires Rect(hess, |hess|, hessCols) && Rect(geom, |geom|, geomCols)
    requires EconomySvd(svd) && EighShapes(eigh)
    ensures var c := CheckInput(|mass|, geom, geomCols, |hess|, hessCols, mass, corrected);
            && (c.Err? ==> r == Err(c.error))
            && (r.Ok? ==> c.Ok?)
    ensures r.Ok? ==> && DimensionsAgree(|mass|, |geom|, geomCols, |hess|, hessCols)
                      && var t := TrSpace.GetTrSpace(mass, geom, "TR", tol, eps, sqrt, svd);
                      && t.Ok? && Rect(t.value, |t.value|, 3 * |mass|)
                      && r == Vibrations(hess, hessCols, t.value, mass, sqrt, eigh, uconvKm, uconvCm)
  {
    var _ :- CheckInput(|mass|, geom, geomCols, |hess|, hessCols, mass, corrected);
    var n := 3 * |mass|;
    assert TrSpace.Positions(mass, geom);
    TrSpaceShapes(mass, geom, sqrt, svd);
    var tr :- TrSpace.GetTrSpace(mass, geom, "TR", tol, eps, sqrt, svd);
    Vibrations(hess, hessCols, tr, mass, sqrt, eigh, uconvKm, uconvCm)
  }

  /** An economy decomposition fits whatever stack it is given. */
  lemma TrSpaceShapes(mass: seq<real>, geom: Matrix, sqrt: real -> real, svd: Matrix -> TrSpace.Svd)
    requires TrSpace.Positions(mass, geom) && EconomySvd(svd)
    ensures var st := TrSpace.Stack(mass, geom, "TR", sqrt);
            st.Ok? ==> TrSpace.Economy(svd(Transpose(st.value, 3 * |mass|)), 3 * |mass|, |st.value|)
  {
    var st := TrSpace.Stack(mass, geom, "TR", sqrt);
    if st.Ok? {
      var a := Transpose(st.value, 3 * |mass|);
      assert Rect(a, 3 * |mass|, |st.value|);
    }
  }

  /** `get_vibinfo` with the centre of mass held to |x| + |y| + |z| ≤ 1e-10. */
  function GetVibInfo(hess: Matrix, hessCols: nat, geom: Matrix, geomCols: nat, mass: seq<real>,
                      tol: real, eps: real, sqrt: real -> real, svd: Matrix -> TrSpace.Svd,
                      eigh: Matrix -> Eigh, uconvKm: real, uconvCm: real): (r: Result<Modes>)
    requires Rect(hess, |hess|, hessCols) && Rect(geom, |geom|, geomCols)
    requires EconomySvd(svd) && EighShapes(eigh)
    ensures !DimensionsAgree(|mass|, |geom|, geomCols, |hess|, hessCols) ==> r.Err? && r.error.AttributeError?
    ensures r.Ok? ==> && DimensionsAgree(|mass|, |geom|, geomCols, |hess|, hessCols)
                      && CenterOfMass(mass, geom).Ok? && Centered(CenterOfMass(mass, geom).value)
    ensures r.Ok? ==> var s := RootMasses(mass, sqrt);
                      && Shaped(r.value, |s|) && Ordered(r.value) && Coordinates(r.value, s, sqrt)
  {
    Run(hess, hessCols, geom, geomCols, mass, tol, eps, sqrt, svd, eigh, uconvKm, uconvCm, true)
  }

  /** `get_vibinfo` as written: the centre of mass passes when the sum of
      its coordinates is at most 1e-10. */
  function GetVibInfoAsWritten(hess: Matrix, hessCols: nat, geom: Matrix, geomCols: nat, mass: seq<real>,
                               tol: real, eps: real, sqrt: real -> real, svd: Matrix -> TrSpace.Svd,
                               eigh: Matrix -> Eigh, uconvKm: real, uconvCm: real): (r: Result<Modes>)
    requires Rect(hess, |hess|, hessCols) && Rect(geom, |geom|, geomCols)
    requires EconomySvd(svd) && EighShapes(eigh)
    ensures !DimensionsAgree(|mass|, |geom|, geomCols, |hess|, hessCols) ==> r.Err? && r.error.AttributeError?
    ensures r.Ok? ==> && DimensionsAgree(|mass|, |geom|, geomCols, |hess|, hessCols)
                      && CenterOfMass(mass, geom).Ok? && ComCheckAsWritten(CenterOfMass(mass, geom).value)
    ensures r.Ok? ==> var s := RootMasses(mass, sqrt);
                      && Shaped(r.value, |s|) && Ordered(r.value) && Coordinates(r.value, s, sqrt)
  {
    Run(hess, hessCols, geom, geomCols, mass, tol, eps, sqrt, svd, eigh, uconvKm, uconvCm, false)
  }
}
