/** Results read back from a Gaussian 09 run (`collect_hessian`,
    `collect_gradient`, `collect_rotations` in
    optrotvib/engine/g09_engine.py).

    Each collector reads its arrays out of the formatted checkpoint text
    with `ArrayFromFchk`.  A Hessian or gradient that is zero within numpy's
    `allclose` tolerance is reported as `None`.
 */
module G09Collect {

  import opened Results
  import opened Matrices
  import opened Argsort
  import opened G09Fchk

  const HessianName := "Cartesian Force Constants"
  const GradientName := "Cartesian Gradient"
  const WeightsName := "Real atomic weights"
  const FrequenciesName := "Frequencies for FD properties"
  const TensorName := "FD Optical Rotation Tensor"

  /** numpy's default `atol` and `rtol`. */
  const Atol: real := 0.00000001
  const Rtol: real := 0.00001

  /** `np.isclose(a, b)`: |a − b| ≤ atol + rtol·|b| (not symmetric in a, b). */
  predicate Close(a: real, b: real) {
    Abs(a - b) <= Atol + Rtol * Abs(b)
  }

  // ---------------------------------------------------------------------
  // Packed triangles

  /** The number of entries on or below the diagonal of the first n rows:
      n(n+1)/2, the length of `np.triu_indices(n)` and `np.tril_indices(n)`. */
  function Tri(n: nat): nat {
    if n == 0 then 0 else Tri(n - 1) + n
  }

  lemma {:induction false} TriClosed(n: nat)
    ensures 2 * Tri(n) == n * (n + 1)
  {
    if n > 0 {
      TriClosed(n - 1);
    }
  }

  lemma {:induction false} TriMonotone(a: nat, b: nat)
    requires a <= b
    ensures Tri(a) + (b - a) <= Tri(b)
    decreases b
  {
    if a < b {
      TriMonotone(a, b - 1);
    }
  }

  /** Where (i, j), j ≤ i, sits in the lower triangle listed row by row
      (the order of `np.tril_indices`, and the order Gaussian stores a
      symmetric matrix in). */
  function LowerPos(n: nat, i: nat, j: nat): (r: nat)
    requires j <= i < n
    ensures r < Tri(n)
  {
    TriMonotone(i + 1, n);
    Tri(i) + j
  }

  /** Where row i starts in the upper triangle of an n×n matrix listed row
      by row (the order of `np.triu_indices`). */
  function UpperStart(n: nat, i: nat): (r: nat)
    requires i <= n
    ensures r + Tri(n - i) == Tri(n)
  {
    if i == 0 then 0 else UpperStart(n, i - 1) + (n - (i - 1))
  }

  /** Where (i, j), i ≤ j, sits in the upper triangle listed row by row. */
  function UpperPos(n: nat, i: nat, j: nat): (r: nat)
    requires i <= j < n
    ensures r < Tri(n)
  {
    TriMonotone(0, n - i);
    UpperStart(n, i) + (j - i)
  }

  /** Every position of the packed list is the place of one lower-triangle
      entry: the lower-triangle assignment uses every value. */
  lemma {:induction false} LowerPosOnto(n: nat, k: nat) returns (i: nat, j: nat)
    requires k < Tri(n)
    ensures j <= i < n && LowerPos(n, i, j) == k
    decreases n
  {
    if k < Tri(n - 1) {
      i, j := LowerPosOnto(n - 1, k);
    } else {
      i, j := n - 1, k - Tri(n - 1);
    }
  }

  /** The lower-triangle positions follow one another along each row and
      from the end of a row to the start of the next. */
  lemma LowerPosRowMajor(n: nat, i: nat, j: nat)
    requires j <= i < n
    ensures j < i ==> LowerPos(n, i, j + 1) == LowerPos(n, i, j) + 1
    ensures j == i && i + 1 < n ==> LowerPos(n, i + 1, 0) == LowerPos(n, i, j) + 1
  {
  }

  // ---------------------------------------------------------------------
  // collect_hessian

  /** `full_data` after `full_data[triu] = d` and then `full_data[tril] = d`:
      the entries on and below the diagonal hold the packed values in
      lower-triangle order, the ones above still hold them in
      upper-triangle order. */
  function UnpackAsWritten(d: seq<real>, n: nat): (r: Matrix)
    requires |d| == Tri(n)
    ensures Square(r, n)
    ensures forall i, j :: 0 <= j <= i < n ==> r[i][j] == d[LowerPos(n, i, j)]
    ensures forall i, j :: 0 <= i < j < n ==> r[i][j] == d[UpperPos(n, i, j)]
  {
    seq(n, i requires 0 <= i < n =>
      seq(n, j requires 0 <= j < n => if j <= i then d[LowerPos(n, i, j)] else d[UpperPos(n, i, j)]))
  }

  /** `m` is n×n and lists the packed values `d` on and below its diagonal,
      row by row. */
  predicate LowerTriangle(m: Matrix, d: seq<real>, n: nat) {
    && Square(m, n) && |d| == Tri(n)
    && forall i, j :: 0 <= j <= i < n ==> m[i][j] == d[LowerPos(n, i, j)]
  }

  /** The symmetric matrix whose lower triangle the packed values list. */
  function UnpackSymmetric(d: seq<real>, n: nat): (r: Matrix)
    requires |d| == Tri(n)
    ensures Square(r, n)
  {
    seq(n, i requires 0 <= i < n =>
      seq(n, j requires 0 <= j < n => if j <= i then d[LowerPos(n, i, j)] else d[LowerPos(n, j, i)]))
  }

  /** The symmetric unpacking is symmetric, keeps the lower triangle of the
      written one, and mirrors it above the diagonal. */
  lemma UnpackSymmetricSpec(d: seq<real>, n: nat)
    requires |d| == Tri(n)
    ensures Symmetric(UnpackSymmetric(d, n))
    ensures forall i, j :: 0 <= j <= i < n ==> UnpackSymmetric(d, n)[i][j] == UnpackAsWritten(d, n)[i][j]
  {
  }

  /** A 3×3 (one atom) Hessian written as 1..6: the written unpacking is
      not symmetric, while the intended one is. */
  lemma AsWrittenNotSymmetric()
    ensures var d := [1.0, 2.0, 3.0, 4.0, 5.0, 6.0];
            && Tri(3) == |d|
            && UnpackAsWritten(d, 3)[0][2] == 3.0
            && UnpackAsWritten(d, 3)[2][0] == 4.0
            && !Symmetric(UnpackAsWritten(d, 3))
            && UnpackSymmetric(d, 3)[0][2] == 4.0
  {
    var d := [1.0, 2.0, 3.0, 4.0, 5.0, 6.0];
    assert Tri(3) == 6 by {
      assert Tri(1) == 1 && Tri(2) == 3;
    }
    var h := UnpackAsWritten(d, 3);
    assert LowerPos(3, 2, 0) == 3 by {
      assert Tri(2) == 3;
    }
    assert h[2][0] == 4.0;
    assert UpperPos(3, 0, 2) == 2;
    assert h[0][2] == 3.0;
  }

  /** An n×n matrix with every entry x: the broadcast of a single value. */
  function Fill(n: nat, x: real): (r: Matrix)
    ensures Square(r, n) && forall i, j :: 0 <= i < n && 0 <= j < n ==> r[i][j] == x
  {
    seq(n, i requires 0 <= i < n => seq(n, j requires 0 <= j < n => x))
  }

  /** `np.allclose(np.zeros(...), m)`. */
  predicate NearZero(m: Matrix) {
    forall i, j :: 0 <= i < |m| && 0 <= j < |m[i]| ==> Close(0.0, m[i][j])
  }

  /** The packed Hessian as read and checked: the atom count must not be
      negative, and the array as long as a triangle of the 3N×3N matrix or
      a single value numpy broadcasts.  A missing array is assigned as
      `None`, which numpy stores as NaN: with atoms that makes the whole
      matrix NaN, and with none there is nothing to fill, which reads as
      the empty triangle. */
  function HessianData(text: string, natom: int, pf: string -> Option<real>): (r: Result<seq<real>>)
    ensures var a := ArrayFromFchk(text, HessianName, pf);
            && (a.Err? ==> r == Err(a.error))
            && (a.Ok? && natom < 0 ==> r.Err? && r.error.ValueError?)
            && (a == Ok(None) && natom > 0 ==> r.Err? && r.error.NonFinite?)
            && (a == Ok(None) && natom == 0 ==> r == Ok([]))
            && (r.Ok? <==> a.Ok? && natom >= 0
                           && (a.value.None? ==> natom == 0)
                           && (a.value.Some? ==> |a.value.value| == Tri(3 * natom) || |a.value.value| == 1))
            && (r.Ok? && a.value.Some? ==> r.value == a.value.value)
  {
    CheckedHessian(ArrayFromFchk(text, HessianName, pf), natom)
  }

  /** The checks `collect_hessian` makes on the array it has read. */
  function CheckedHessian(a: Result<Option<seq<real>>>, natom: int): (r: Result<seq<real>>)
    ensures a.Err? ==> r == Err(a.error)
    ensures a.Ok? && natom < 0 ==> r.Err? && r.error.ValueError?
    ensures a == Ok(None) && natom > 0 ==> r.Err? && r.error.NonFinite?
    ensures a == Ok(None) && natom == 0 ==> r == Ok([])
    ensures r.Ok? <==> a.Ok? && natom >= 0
                       && (a.value.None? ==> natom == 0)
                       && (a.value.Some? ==> |a.value.value| == Tri(3 * natom) || |a.value.value| == 1)
    ensures r.Ok? && a.value.Some? ==> r.value == a.value.value
  {
    if a.Err? then Err(a.error)
    else if natom < 0 then Err(ValueError("negative dimensions are not allowed"))
    else if a.value.None? then
      if natom == 0 then Ok([]) else Err(NonFinite("a missing array is stored as NaN"))
    else
      var d := a.value.value;
      if |d| == Tri(3 * natom) || |d| == 1 then Ok(d)
      else Err(ValueError("shape mismatch: value array could not be broadcast to indexing result"))
  }

  /** The 3N×3N matrix built from checked data, mirrored or as written. */
  function HessianMatrix(d: seq<real>, n: nat, symmetric: bool): (r: Matrix)
    requires |d| == Tri(n) || |d| == 1
    ensures Square(r, n)
  {
    if |d| == Tri(n) then (if symmetric then UnpackSymmetric(d, n) else UnpackAsWritten(d, n))
    else Fill(n, d[0])
  }

  /** The mirrored unpacking (and a broadcast value) is symmetric. */
  lemma HessianMatrixSymmetric(d: seq<real>, n: nat)
    requires |d| == Tri(n) || |d| == 1
    ensures Symmetric(HessianMatrix(d, n, true))
  {
    if |d| == Tri(n) {
      UnpackSymmetricSpec(d, n);
    }
  }

  /** The matrix `collect_hessian` returns for checked data, `None` when it
      is all close to zero. */
  function HessianResult(h: Result<seq<real>>, natom: int, symmetric: bool): (r: Result<Option<Matrix>>)
    requires h.Ok? ==> natom >= 0 && (|h.value| == Tri(3 * natom) || |h.value| == 1)
    ensures h.Err? ==> r == Err(h.error)
    ensures r.Ok? ==> h.Ok?
    ensures h.Ok? && natom == 0 ==> r == Ok(None)
    ensures r.Ok? && r.value.Some? ==> Square(r.value.value, 3 * natom) && !NearZero(r.value.value)
    ensures r.Ok? && r.value.Some? && symmetric ==> Symmetric(r.value.value)
    ensures r.Ok? && r.value.Some? && |h.value| == Tri(3 * natom) ==>
              LowerTriangle(r.value.value, h.value, 3 * natom)
  {
    if h.Err? then Err(h.error)
    else
      var n := 3 * natom;
      var full := HessianMatrix(h.value, n, symmetric);
      HessianMatrixSymmetric(h.value, n);
      if NearZero(full) then Ok(None) else Ok(Some(full))
  }

  /** `collect_hessian(fchk_text, natom)` as written. */
  function CollectHessian(text: string, natom: int, pf: string -> Option<real>): (r: Result<Option<Matrix>>)
    ensures var h := HessianData(text, natom, pf);
            && (h.Err? ==> r == Err(h.error))
            && (h.Ok? && natom == 0 ==> r == Ok(None))
            && (r.Ok? ==> h.Ok? && natom >= 0)
            && (r.Ok? && r.value.Some? ==> Square(r.value.value, 3 * natom) && !NearZero(r.value.value))
            && (r.Ok? && r.value.Some? && |h.value| == Tri(3 * natom) ==>
                  LowerTriangle(r.value.value, h.value, 3 * natom))
  {
    HessianResult(HessianData(text, natom, pf), natom, false)
  }

  /** `collect_hessian` as evidently intended: the packed lower triangle
      mirrored into a symmetric matrix. */
  function CollectHessianSymmetric(text: string, natom: int, pf: string -> Option<real>): (r: Result<Option<Matrix>>)
    ensures var h := HessianData(text, natom, pf);
            && (h.Err? ==> r == Err(h.error))
            && (h.Ok? && natom == 0 ==> r == Ok(None))
            && (r.Ok? ==> h.Ok? && natom >= 0)
            && (r.Ok? && r.value.Some? ==> Square(r.value.value, 3 * natom) && !NearZero(r.value.value))
            && (r.Ok? && r.value.Some? ==> Symmetric(r.value.value))
            && (r.Ok? && r.value.Some? && |h.value| == Tri(3 * natom) ==>
                  LowerTriangle(r.value.value, h.value, 3 * natom))
  {
    HessianResult(HessianData(text, natom, pf), natom, true)
  }

  /** Every packed value is close to zero. */
  predicate AllNearZero(d: seq<real>) {
    forall k :: 0 <= k < |d| ==> Close(0.0, d[k])
  }

  /** Either unpacking is zero within tolerance exactly when every packed
      value is (or the matrix is empty). */
  lemma HessianNearZero(d: seq<real>, n: nat, symmetric: bool)
    requires |d| == Tri(n) || |d| == 1
    ensures NearZero(HessianMatrix(d, n, symmetric)) <==> n == 0 || AllNearZero(d)
  {
    var m := HessianMatrix(d, n, symmetric);
    if |d| == Tri(n) {
      if NearZero(m) {
        forall k | 0 <= k < |d| ensures Close(0.0, d[k]) {
          var i, j := LowerPosOnto(n, k);
          assert m[i][j] == d[k];
        }
      }
      if AllNearZero(d) {
        forall i, j | 0 <= i < n && 0 <= j < n ensures Close(0.0, m[i][j]) {
          if j <= i {
            assert m[i][j] == d[LowerPos(n, i, j)];
          } else if symmetric {
            assert m[i][j] == d[LowerPos(n, j, i)];
          } else {
            assert m[i][j] == d[UpperPos(n, i, j)];
          }
        }
      }
    } else if n > 0 {
      assert m[0][0] == d[0];
    }
  }

  /** `collect_hessian` returns `None` exactly when the checked data is all
      close to zero, or there are no atoms. */
  lemma CollectHessianNone(text: string, natom: int, pf: string -> Option<real>)
    ensures var h := HessianData(text, natom, pf);
            CollectHessian(text, natom, pf) == Ok(None) <==> h.Ok? && (natom == 0 || AllNearZero(h.value))
  {
    var h := HessianData(text, natom, pf);
    if h.Ok? {
      HessianNearZero(h.value, 3 * natom, false);
    }
  }

  // ---------------------------------------------------------------------
  // collect_gradient

  /** `collect_gradient(fchk_text)`: the gradient, `None` when every
      component is within `atol` of zero, a TypeError when the array is
      missing (numpy subtracts `None`). */
  function CollectGradient(text: string, pf: string -> Option<real>): (r: Result<Option<seq<real>>>)
    ensures var a := ArrayFromFchk(text, GradientName, pf);
            && (a.Err? ==> r == Err(a.error))
            && (a == Ok(None) ==> r.Err? && r.error.TypeError?)
            && (r == Ok(None) <==> a.Ok? && a.value.Some? && WithinAtol(a.value.value))
            && (r.Ok? && r.value.Some? ==> a == Ok(r.value))
  {
    GradientOf(ArrayFromFchk(text, GradientName, pf))
  }

  /** Every component is within `atol` of zero. */
  predicate WithinAtol(g: seq<real>) {
    forall k :: 0 <= k < |g| ==> Abs(g[k]) <= Atol
  }

  /** The gradient `collect_gradient` returns for the array it has read. */
  function GradientOf(a: Result<Option<seq<real>>>): (r: Result<Option<seq<real>>>)
    ensures a.Err? ==> r == Err(a.error)
    ensures a == Ok(None) ==> r.Err? && r.error.TypeError?
    ensures r == Ok(None) <==> a.Ok? && a.value.Some? && WithinAtol(a.value.value)
    ensures r.Ok? && r.value.Some? ==> a == Ok(r.value)
  {
    if a.Err? then Err(a.error)
    else if a.value.None? then Err(TypeError("unsupported operand type(s) for -: 'NoneType' and 'int'"))
    else
      var g := a.value.value;
      if forall k :: 0 <= k < |g| ==> Close(g[k], 0.0) then Ok(None) else Ok(Some(g))
  }

  // ---------------------------------------------------------------------
  // collect_rotations

  /** An entry of `prog_options['omega']`: a wavelength or a unit name. */
  datatype Omega = Wavelength(nm: real) | Unit(name: string)

  /** The program options: only `omega` is read here. */
  datatype ProgOptions = ProgOptions(omega: Option<seq<Omega>>)

  datatype G09Rotation = G09Rotation(value: real, wavelength: real, gauge: string)

  /** The wavelengths as listed, a trailing unit dropped; nothing when the
      options or `omega` are missing or empty. */
  function Requested(opts: Option<ProgOptions>): (r: seq<Omega>)
    ensures opts.None? || opts.value.omega.None? ==> r == []
    ensures opts.Some? && opts.value.omega.Some? ==>
              var ws := opts.value.omega.value;
              r == if |ws| > 0 && ws[|ws| - 1].Unit? then ws[..|ws| - 1] else ws
  {
    if opts.None? || opts.value.omega.None? then []
    else
      var ws := opts.value.omega.value;
      if |ws| > 0 && ws[|ws| - 1].Unit? then ws[..|ws| - 1] else ws
  }

  /** `sorted(xs)` followed by `reverse()`: the values largest first. */
  function Descending(xs: seq<real>): (r: seq<real>)
    ensures |r| == |xs|
    ensures forall a, b :: 0 <= a < b < |r| ==> r[a] >= r[b]
    ensures forall k :: 0 <= k < |r| ==> r[k] in xs
  {
    var p := ArgsortOf(xs);
    seq(|xs|, k requires 0 <= k < |xs| => xs[p[|xs| - 1 - k]])
  }

  /** The descending list is a rearrangement of the values: it reads them
      through an order that lists every index exactly once. */
  lemma DescendingPermutes(xs: seq<real>) returns (q: seq<nat>)
    ensures |q| == |xs| && Distinct(q) && InBounds(xs, q)
    ensures forall k :: 0 <= k < |xs| ==> k in q
    ensures forall k :: 0 <= k < |xs| ==> Descending(xs)[k] == xs[q[k]]
  {
    var p := ArgsortOf(xs);
    ArgsortIsPermutation(xs);
    var n := |xs|;
    q := seq(n, k requires 0 <= k < n => p[n - 1 - k]);
    forall k | 0 <= k < n ensures k in q {
      assert k in p;
      var a :| 0 <= a < n && p[a] == k;
      assert q[n - 1 - a] == k;
    }
  }

  /** The trace of the k-th 3×3 block of nine values, row-major
      (`np.trace(rot_tensor.reshape(3, 3))`). */
  function Trace9(t: seq<real>, k: nat): real
    requires 9 * k + 9 <= |t|
  {
    t[9 * k] + t[9 * k + 4] + t[9 * k + 8]
  }

  /** `compute_rotation(w_au, rot_tensor, mw)`; the prefactor (built from
      physical constants) is a parameter. */
  function ComputeRotation(prefactor: real, w: real, t: seq<real>, k: nat, mw: real): real
    requires 9 * k + 9 <= |t| && mw != 0.0
  {
    prefactor * (w * w) * Trace9(t, k) / mw / 3.0
  }

  /** The records `zip(au_freqs, wls, all_rot_tensors)` gives: as many as
      the shortest of the three. */
  function Records(prefactor: real, freqs: seq<real>, nms: seq<real>, t: seq<real>, mw: real): (r: seq<G09Rotation>)
    requires |t| % 9 == 0 && mw != 0.0
    ensures |r| == Min(Min(|freqs|, |nms|), |t| / 9)
    ensures forall k :: 0 <= k < |r| ==> (&& 9 * k + 9 <= |t|
                                         && r[k] == G09Rotation(ComputeRotation(prefactor, freqs[k], t, k, mw), nms[k], "GIAO"))
  {
    var n := Min(Min(|freqs|, |nms|), |t| / 9);
    seq(n, k requires 0 <= k < n =>
      assert 9 * k + 9 <= |t|;
      G09Rotation(ComputeRotation(prefactor, freqs[k], t, k, mw), nms[k], "GIAO"))
  }

  function Min(a: int, b: int): int {
    if a <= b then a else b
  }

  /** `collect_rotations(fchk_text, prog_options)`.  The atomic weights are
      read first; with no wavelengths requested nothing more is read.  The
      wavelengths are sorted largest first, which matches the frequencies'
      order in the file; only when there are exactly as many frequencies
      as wavelengths are the tensors read and one record made per
      frequency, wavelength and tensor. */
  function CollectRotations(text: string, opts: Option<ProgOptions>, pf: string -> Option<real>, prefactor: real): (r: Result<seq<G09Rotation>>)
    ensures var w := ArrayFromFchk(text, WeightsName, pf);
            && (w.Err? ==> r == Err(w.error))
            && (w.Ok? && (opts.None? || opts.value.omega.None? || opts.value.omega.value == []) ==> r == Ok([]))
    ensures r.Ok? ==> forall k :: 0 <= k < |r.value| ==> r.value[k].gauge == "GIAO"
    ensures r.Ok? ==> forall a, b :: 0 <= a < b < |r.value| ==> r.value[a].wavelength >= r.value[b].wavelength
    ensures r.Ok? ==> forall k :: 0 <= k < |r.value| ==> Wavelength(r.value[k].wavelength) in Requested(opts)
    ensures r.Ok? && |r.value| > 0 ==>
              var f := ArrayFromFchk(text, FrequenciesName, pf);
              && f.Ok? && f.value.Some? && |f.value.value| == |Requested(opts)|
              && |r.value| <= |f.value.value|
    ensures r.Ok? && |r.value| > 0 ==>
              ZippedRecords(text, Requested(opts), pf, prefactor, ArrayFromFchk(text, WeightsName, pf), r.value)
  {
    var w :- ArrayFromFchk(text, WeightsName, pf);
    if opts.None? || opts.value.omega.None? || opts.value.omega.value == [] then Ok([])
    else WavelengthRotations(text, Requested(opts), pf, prefactor, w)
  }

  /** `recs` are the records `zip` makes from the frequencies, the
      wavelengths sorted largest first and the tensors, all read from
      `text`, each rotation divided by the total atomic weight `w`: every
      wavelength is a number, and as many frequencies were read as there
      are wavelengths. */
  predicate ZippedRecords(text: string, wls: seq<Omega>, pf: string -> Option<real>, prefactor: real,
                          w: Result<Option<seq<real>>>, recs: seq<G09Rotation>)
  {
    var f := ArrayFromFchk(text, FrequenciesName, pf);
    var t := ArrayFromFchk(text, TensorName, pf);
    && (forall k :: 0 <= k < |wls| ==> wls[k].Wavelength?)
    && w.Ok? && w.value.Some? && Sum(w.value.value) != 0.0
    && f.Ok? && f.value.Some? && |f.value.value| == |wls|
    && t.Ok? && t.value.Some? && |t.value.value| % 9 == 0
    && recs == Records(prefactor, f.value.value, Descending(Nms(wls)), t.value.value, Sum(w.value.value))
  }

  /** What `collect_rotations` does once wavelengths were requested: read
      the frequencies, sort the wavelengths, and make the records when the
      counts agree. */
  function WavelengthRotations(text: string, wls: seq<Omega>, pf: string -> Option<real>, prefactor: real,
                               w: Option<seq<real>>): (r: Result<seq<G09Rotation>>)
    ensures r.Ok? ==> forall k :: 0 <= k < |r.value| ==> r.value[k].gauge == "GIAO"
    ensures r.Ok? ==> forall a, b :: 0 <= a < b < |r.value| ==> r.value[a].wavelength >= r.value[b].wavelength
    ensures r.Ok? ==> forall k :: 0 <= k < |r.value| ==> Wavelength(r.value[k].wavelength) in wls
    ensures r.Ok? && |r.value| > 0 ==>
              var f := ArrayFromFchk(text, FrequenciesName, pf);
              && f.Ok? && f.value.Some? && |f.value.value| == |wls|
              && |r.value| <= |f.value.value|
    ensures r.Ok? && |r.value| > 0 ==> ZippedRecords(text, wls, pf, prefactor, Ok(w), r.value)
  {
    var f :- ArrayFromFchk(text, FrequenciesName, pf);
    if exists k :: 0 <= k < |wls| && wls[k].Unit? then
      Err(TypeError("'<' not supported between instances of 'str' and 'float'"))
    else
      var nms := Descending(Nms(wls));
      NmsListed(wls, nms);
      if f.None? || |f.value| != |nms| then Ok([])
      else RotationsOf(text, pf, prefactor, w, f.value, nms, wls)
  }

  /** The wavelengths' values. */
  function Nms(wls: seq<Omega>): (r: seq<real>)
    requires forall k :: 0 <= k < |wls| ==> wls[k].Wavelength?
    ensures |r| == |wls| && forall k :: 0 <= k < |wls| ==> wls[k] == Wavelength(r[k])
  {
    seq(|wls|, k requires 0 <= k < |wls| => wls[k].nm)
  }

  lemma NmsListed(wls: seq<Omega>, nms: seq<real>)
    requires forall k :: 0 <= k < |wls| ==> wls[k].Wavelength?
    requires forall k :: 0 <= k < |nms| ==> nms[k] in Nms(wls)
    ensures forall k :: 0 <= k < |nms| ==> Wavelength(nms[k]) in wls
  {
    var xs := Nms(wls);
    forall k | 0 <= k < |nms| ensures Wavelength(nms[k]) in wls {
      var j :| 0 <= j < |xs| && xs[j] == nms[k];
      assert wls[j] == Wavelength(nms[k]);
    }
  }

  /** Reading the tensors and making the records. */
  function RotationsOf(text: string, pf: string -> Option<real>, prefactor: real, w: Option<seq<real>>,
                       freqs: seq<real>, nms: seq<real>, wls: seq<Omega>): (r: Result<seq<G09Rotation>>)
    requires |nms| == |wls| == |freqs|
    requires forall k :: 0 <= k < |nms| ==> Wavelength(nms[k]) in wls
    requires forall a, b :: 0 <= a < b < |nms| ==> nms[a] >= nms[b]
    ensures r.Ok? ==> |r.value| <= |freqs|
    ensures r.Ok? ==> var t := ArrayFromFchk(text, TensorName, pf);
              && t.Ok? && t.value.Some? && |t.value.value| % 9 == 0
              && |r.value| == Min(|freqs|, |t.value.value| / 9)
    ensures r.Ok? && |r.value| > 0 ==> var t := ArrayFromFchk(text, TensorName, pf);
              && t.Ok? && t.value.Some? && |t.value.value| % 9 == 0
              && w.Some? && Sum(w.value) != 0.0
              && r.value == Records(prefactor, freqs, nms, t.value.value, Sum(w.value))
    ensures r.Ok? ==> forall k :: 0 <= k < |r.value| ==> r.value[k].gauge == "GIAO" && r.value[k].wavelength == nms[k]
    ensures r.Ok? ==> forall k :: 0 <= k < |r.value| ==> Wavelength(r.value[k].wavelength) in wls
  {
    TensorRecords(ArrayFromFchk(text, TensorName, pf), prefactor, w, freqs, nms, wls)
  }

  /** The records made from the tensors as read. */
  function TensorRecords(t: Result<Option<seq<real>>>, prefactor: real, w: Option<seq<real>>,
                         freqs: seq<real>, nms: seq<real>, wls: seq<Omega>): (r: Result<seq<G09Rotation>>)
    requires |nms| == |wls| == |freqs|
    requires forall k :: 0 <= k < |nms| ==> Wavelength(nms[k]) in wls
    ensures t.Err? ==> r == Err(t.error)
    ensures t == Ok(None) ==> r.Err? && r.error.AttributeError?
    ensures r.Ok? ==> |r.value| <= |freqs|
    ensures r.Ok? ==> && t.Ok? && t.value.Some? && |t.value.value| % 9 == 0
                      && |r.value| == Min(|freqs|, |t.value.value| / 9)
    ensures r.Ok? && |r.value| > 0 ==>
              && t.Ok? && t.value.Some? && |t.value.value| % 9 == 0
              && w.Some? && Sum(w.value) != 0.0
              && r.value == Records(prefactor, freqs, nms, t.value.value, Sum(w.value))
    ensures r.Ok? ==> forall k :: 0 <= k < |r.value| ==> r.value[k].gauge == "GIAO" && r.value[k].wavelength == nms[k]
    ensures r.Ok? ==> forall k :: 0 <= k < |r.value| ==> Wavelength(r.value[k].wavelength) in wls
  {
    if t.Err? then Err(t.error)
    else if t.value.None? then Err(AttributeError("'NoneType' object has no attribute 'reshape'"))
    else if |t.value.value| % 9 != 0 then Err(ValueError("cannot reshape array into shape (9)"))
    else if Min(|freqs|, |t.value.value| / 9) == 0 then Ok([])
    else if w.None? then Err(TypeError("unsupported operand type(s) for /: 'float' and 'NoneType'"))
    else if Sum(w.value) == 0.0 then Err(NonFinite("division by a zero total atomic weight"))
    else Ok(Records(prefactor, freqs, nms, t.value.value, Sum(w.value)))
  }
}
