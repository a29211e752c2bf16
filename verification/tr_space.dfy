/** The idealised translation and rotation space (`_get_TR_space`,
    optrotvib/findif.py).

    For n atoms with masses m and coordinates g, the three translations and
    the three infinitesimal rotations are vectors of length 3n, indexed
    atom-major (entry 3a + c is atom a, axis c).  They are stacked as rows,
    orthogonalised through a singular value decomposition, and cut to the
    numerical rank.  The square root and the SVD are parameters.
 */
module TrSpace {

  import opened Results
  import opened Strs
  import opened Matrices

  /** Entry c of an atom's triple in `ux`, `uy`, `uz`. */
  function Unit(c: nat, k: nat): real {
    if c == k then 1.0 else 0.0
  }

  /** The mass and coordinates every atom's triple reads. */
  predicate Positions(m: seq<real>, geom: Matrix) {
    Rect(geom, |m|, 3)
  }

  /** Translation along axis k, atom by atom: √m_a on axis k. */
  function TranslationAtoms(m: seq<real>, sqrt: real -> real, k: nat): (g: Matrix)
    ensures Rect(g, |m|, 3)
  {
    seq(|m|, a requires 0 <= a < |m| => seq(3, c requires 0 <= c < 3 => sqrt(m[a]) * Unit(c, k)))
  }

  /** Rotation about axis k, atom by atom: √m_a (g_a[k+1] u_{k+2} −
      g_a[k+2] u_{k+1}), axes counted modulo 3, as in `yyy * uz - zzz * uy`
      for k = x. */
  function RotationAtoms(m: seq<real>, geom: Matrix, sqrt: real -> real, k: nat): (g: Matrix)
    requires Positions(m, geom)
    ensures Rect(g, |m|, 3)
  {
    var p, q := (k + 1) % 3, (k + 2) % 3;
    seq(|m|, a requires 0 <= a < |m| =>
      seq(3, c requires 0 <= c < 3 => sqrt(m[a]) * (geom[a][p] * Unit(c, q) - geom[a][q] * Unit(c, p))))
  }

  /** The 3n-vectors the source builds with `np.repeat` and
      `np.ravel(order='F')`: atom a's triple at entries 3a..3a+2. */
  function Translation(m: seq<real>, sqrt: real -> real, k: nat): (t: Vector)
    ensures |t| == 3 * |m|
  {
    RavelIndex(TranslationAtoms(m, sqrt, k), |m|);
    Ravel(TranslationAtoms(m, sqrt, k))
  }

  function Rotation(m: seq<real>, geom: Matrix, sqrt: real -> real, k: nat): (r: Vector)
    requires Positions(m, geom)
    ensures |r| == 3 * |m|
  {
    RavelIndex(RotationAtoms(m, geom, sqrt, k), |m|);
    Ravel(RotationAtoms(m, geom, sqrt, k))
  }

  /** The stacked space for `space`: the translations when it contains
      `T`, then the rotations when it contains `R`; nothing to stack is the
      ValueError of `np.vstack([])`. */
  function Stack(m: seq<real>, geom: Matrix, space: string, sqrt: real -> real): (r: Result<Matrix>)
    requires Positions(m, geom)
    ensures r.Ok? <==> Contains(space, "T") || Contains(space, "R")
    ensures r.Err? ==> r.error.ValueError?
    ensures r.Ok? ==> |r.value| == (if Contains(space, "T") then 3 else 0) + (if Contains(space, "R") then 3 else 0)
    ensures r.Ok? ==> Rect(r.value, |r.value|, 3 * |m|)
    ensures r.Ok? && Contains(space, "T") ==> forall k :: 0 <= k < 3 ==> r.value[k] == Translation(m, sqrt, k)
    ensures r.Ok? && Contains(space, "R") ==> forall k :: 0 <= k < 3 ==>
              r.value[|r.value| - 3 + k] == Rotation(m, geom, sqrt, k)
  {
    var t := seq(3, k requires 0 <= k < 3 => Translation(m, sqrt, k));
    var rot := seq(3, k requires 0 <= k < 3 => Rotation(m, geom, sqrt, k));
    var rows := (if Contains(space, "T") then t else []) + (if Contains(space, "R") then rot else []);
    if rows == [] then Err(ValueError("need at least one array to concatenate"))
    else Ok(rows)
  }

  // ---------------------------------------------------------------------
  // Rank cut

  /** The economy SVD of an M×N matrix: u is M×min(M,N) and there are
      min(M,N) singular values; `vh` is never read. */
  datatype Svd = Svd(u: Matrix, s: Vector)

  function Min(a: nat, b: nat): nat {
    if a <= b then a else b
  }

  function Max(a: real, b: real): real {
    if a >= b then a else b
  }

  predicate Economy(d: Svd, rows: nat, cols: nat) {
    Rect(d.u, rows, Min(rows, cols)) && |d.s| == Min(rows, cols)
  }

  /** `np.sum(s > tol)`. */
  function CountAbove(s: Vector, tol: real): (k: nat)
    ensures k <= |s|
    ensures k == |s| <==> forall i :: 0 <= i < |s| ==> s[i] > tol
    ensures k == 0 <==> forall i :: 0 <= i < |s| ==> s[i] <= tol
    decreases |s|
  {
    if |s| == 0 then 0
    else (if s[0] > tol then 1 else 0) + CountAbove(s[1..], tol)
  }

  /** A larger tolerance never keeps more directions. */
  lemma {:induction false} CountAboveAntitone(s: Vector, lo: real, hi: real)
    requires lo <= hi
    ensures CountAbove(s, hi) <= CountAbove(s, lo)
    decreases |s|
  {
    if |s| > 0 {
      CountAboveAntitone(s[1..], lo, hi);
    }
  }

  /** `np.amax(s)`. */
  function MaxOf(s: Vector): (x: real)
    requires |s| > 0
    ensures forall i :: 0 <= i < |s| ==> s[i] <= x
    ensures exists i :: 0 <= i < |s| && s[i] == x
    decreases |s|
  {
    if |s| == 1 then s[0]
    else
      var rest := MaxOf(s[1..]);
      assert forall i :: 1 <= i < |s| ==> s[i] == s[1..][i - 1];
      Max(s[0], rest)
  }

  /** The tolerance `orth` uses: the given one, or when it is zero
      max(M, N)·max(s)·eps, a ValueError when there is no singular value. */
  function CutTolerance(s: Vector, rows: nat, cols: nat, tol: real, eps: real): (r: Result<real>)
    ensures r.Err? <==> tol == 0.0 && |s| == 0
    ensures tol != 0.0 ==> r == Ok(tol)
  {
    if tol != 0.0 then Ok(tol)
    else if |s| == 0 then Err(ValueError("zero-size array to reduction operation maximum which has no identity"))
    else Ok((if rows >= cols then rows else cols) as real * MaxOf(s) * eps)
  }

  /** `orth(A).T` for an M×N matrix A with economy SVD d: the first `num`
      left singular vectors as rows, `num` the count of singular values above
      the tolerance. */
  function Orth(rows: nat, cols: nat, d: Svd, tol: real, eps: real): (r: Result<Matrix>)
    requires Economy(d, rows, cols)
    ensures r.Ok? <==> CutTolerance(d.s, rows, cols, tol, eps).Ok?
    ensures r.Ok? ==> var num := CountAbove(d.s, CutTolerance(d.s, rows, cols, tol, eps).value);
              && num <= cols && num <= rows
              && Rect(r.value, num, rows)
              && forall j, i :: 0 <= j < num && 0 <= i < rows ==> r.value[j][i] == d.u[i][j]
  {
    var t :- CutTolerance(d.s, rows, cols, tol, eps);
    var num := CountAbove(d.s, t);
    Ok(seq(num, j requires 0 <= j < num => seq(rows, i requires 0 <= i < rows => d.u[i][j])))
  }

  /** `_get_TR_space(m, geom, space, tol)`: stack, transpose, decompose and
      cut.  The result has at most as many rows as were stacked, each of
      length 3n. */
  function GetTrSpace(m: seq<real>, geom: Matrix, space: string, tol: real, eps: real,
                      sqrt: real -> real, svd: Matrix -> Svd): (r: Result<Matrix>)
    requires Positions(m, geom)
    requires var st := Stack(m, geom, space, sqrt);
             st.Ok? ==> Economy(svd(Transpose(st.value, 3 * |m|)), 3 * |m|, |st.value|)
    ensures r.Ok? ==> Stack(m, geom, space, sqrt).Ok?
    ensures !Stack(m, geom, space, sqrt).Ok? ==> r.Err? && r.error.ValueError?
    ensures r.Ok? ==> Rect(r.value, |r.value|, 3 * |m|) && |r.value| <= |Stack(m, geom, space, sqrt).value|
  {
    var st :- Stack(m, geom, space, sqrt);
    var a := Transpose(st, 3 * |m|);
    Orth(3 * |m|, |st|, svd(a), tol, eps)
  }

  // ---------------------------------------------------------------------
  // Orthogonality of the stacked space

  /** The square root the masses go through. */
  predicate RootsOf(m: seq<real>, sqrt: real -> real) {
    forall a :: 0 <= a < |m| ==> sqrt(m[a]) * sqrt(m[a]) == m[a]
  }

  /** The mass-weighted coordinate sums Σ m_a g_a[c]. */
  function FirstMoment(m: seq<real>, geom: Matrix, c: nat): real
    requires Positions(m, geom) && c < 3
  {
    Sum(seq(|m|, a requires 0 <= a < |m| => m[a] * geom[a][c]))
  }

  /** Per atom, the translations' products are m_a on matching axes. */
  lemma TranslationBlock(m: seq<real>, sqrt: real -> real, k: nat, l: nat, a: nat)
    requires k < 3 && l < 3 && a < |m| && sqrt(m[a]) * sqrt(m[a]) == m[a]
    ensures Dot(TranslationAtoms(m, sqrt, k)[a], TranslationAtoms(m, sqrt, l)[a]) == if k == l then m[a] else 0.0
  {
    var t, u := TranslationAtoms(m, sqrt, k)[a], TranslationAtoms(m, sqrt, l)[a];
    Dot3(t, u);
    var x := sqrt(m[a]);
    assert t == [x * Unit(0, k), x * Unit(1, k), x * Unit(2, k)];
    assert u == [x * Unit(0, l), x * Unit(1, l), x * Unit(2, l)];
  }

  /** The three translations are mutually orthogonal, each with squared
      norm the total mass. */
  lemma TranslationsOrthogonal(m: seq<real>, sqrt: real -> real, k: nat, l: nat)
    requires RootsOf(m, sqrt) && k < 3 && l < 3
    ensures Dot(Translation(m, sqrt, k), Translation(m, sqrt, l)) == if k == l then Sum(m) else 0.0
  {
    var n := |m|;
    var g, h := TranslationAtoms(m, sqrt, k), TranslationAtoms(m, sqrt, l);
    DotRavel(g, h, n);
    var blocks := seq(n, a requires 0 <= a < n => Dot(g[a], h[a]));
    forall a | 0 <= a < n ensures blocks[a] == if k == l then m[a] else 0.0 {
      TranslationBlock(m, sqrt, k, l, a);
    }
    if k == l {
      assert blocks == m;
    } else {
      SumZero(blocks);
    }
  }

  /** Per atom, translation k against rotation l weighs one coordinate. */
  lemma MixedBlock(m: seq<real>, geom: Matrix, sqrt: real -> real, k: nat, l: nat, a: nat)
    requires Positions(m, geom) && k < 3 && l < 3 && a < |m| && sqrt(m[a]) * sqrt(m[a]) == m[a]
    ensures Dot(TranslationAtoms(m, sqrt, k)[a], RotationAtoms(m, geom, sqrt, l)[a])
            == (if k == (l + 2) % 3 then m[a] * geom[a][(l + 1) % 3] else 0.0)
               - (if k == (l + 1) % 3 then m[a] * geom[a][(l + 2) % 3] else 0.0)
  {
    var t, r := TranslationAtoms(m, sqrt, k)[a], RotationAtoms(m, geom, sqrt, l)[a];
    var x := sqrt(m[a]);
    var p, q := (l + 1) % 3, (l + 2) % 3;
    var gp, gq := geom[a][p], geom[a][q];
    SingleAxisDot(t, r, x, k);
    assert r[k] == x * (gp * Unit(k, q) - gq * Unit(k, p));
    WeighedDifference(x, gp * Unit(k, q), gq * Unit(k, p), m[a]);
  }

  /** A triple that is x on axis k only picks entry k of the other. */
  lemma SingleAxisDot(t: Vector, r: Vector, x: real, k: nat)
    requires k < 3 && |r| == 3 && t == [x * Unit(0, k), x * Unit(1, k), x * Unit(2, k)]
    ensures Dot(t, r) == x * r[k]
  {
    Dot3(t, r);
  }

  lemma WeighedDifference(x: real, u: real, v: real, w: real)
    requires x * x == w
    ensures x * (x * (u - v)) == w * u - w * v
  {
    calc {
      x * (x * (u - v));
      (x * x) * (u - v);
      w * (u - v);
    }
  }

  /** At the centre of mass every translation is orthogonal to every
      rotation. */
  lemma RotationsOrthogonalToTranslations(m: seq<real>, geom: Matrix, sqrt: real -> real, k: nat, l: nat)
    requires Positions(m, geom) && RootsOf(m, sqrt) && k < 3 && l < 3
    requires forall c :: 0 <= c < 3 ==> FirstMoment(m, geom, c) == 0.0
    ensures Dot(Translation(m, sqrt, k), Rotation(m, geom, sqrt, l)) == 0.0
  {
    var n := |m|;
    var g, h := TranslationAtoms(m, sqrt, k), RotationAtoms(m, geom, sqrt, l);
    DotRavel(g, h, n);
    var blocks := seq(n, a requires 0 <= a < n => Dot(g[a], h[a]));
    var pc, qc := (l + 1) % 3, (l + 2) % 3;
    var wp := seq(n, a requires 0 <= a < n => m[a] * geom[a][pc]);
    var wq := seq(n, a requires 0 <= a < n => m[a] * geom[a][qc]);
    MixedBlocks(m, geom, sqrt, k, l, g, h, blocks, wp, wq);
    assert Sum(wp) == FirstMoment(m, geom, pc) && Sum(wq) == FirstMoment(m, geom, qc);
    SumOfDifference(blocks, wp, wq, k == qc, k == pc);
  }

  /** Every atom's block of translation k against rotation l, as
      `MixedBlock` gives it, over the weighted coordinates. */
  lemma MixedBlocks(m: seq<real>, geom: Matrix, sqrt: real -> real, k: nat, l: nat,
                    g: Matrix, h: Matrix, blocks: seq<real>, wp: seq<real>, wq: seq<real>)
    requires Positions(m, geom) && RootsOf(m, sqrt) && k < 3 && l < 3
    requires g == TranslationAtoms(m, sqrt, k) && h == RotationAtoms(m, geom, sqrt, l)
    requires |blocks| == |wp| == |wq| == |m|
    requires forall a :: 0 <= a < |m| ==> blocks[a] == Dot(g[a], h[a])
    requires forall a :: 0 <= a < |m| ==> wp[a] == m[a] * geom[a][(l + 1) % 3]
    requires forall a :: 0 <= a < |m| ==> wq[a] == m[a] * geom[a][(l + 2) % 3]
    ensures forall a :: 0 <= a < |m| ==>
              blocks[a] == (if k == (l + 2) % 3 then wp[a] else 0.0) - (if k == (l + 1) % 3 then wq[a] else 0.0)
  {
    forall a | 0 <= a < |m|
      ensures blocks[a] == (if k == (l + 2) % 3 then wp[a] else 0.0) - (if k == (l + 1) % 3 then wq[a] else 0.0)
    {
      MixedBlock(m, geom, sqrt, k, l, a);
    }
  }

  /** Selected pieces of two zero-sum sequences sum to zero. */
  lemma SumOfDifference(b: seq<real>, x: seq<real>, y: seq<real>, i: bool, j: bool)
    requires |b| == |x| == |y| && Sum(x) == 0.0 && Sum(y) == 0.0
    requires forall a :: 0 <= a < |b| ==> b[a] == (if i then x[a] else 0.0) - (if j then y[a] else 0.0)
    ensures Sum(b) == 0.0
  {
    var xs := Picked(x, i);
    var ys := Scale(-1.0, Picked(y, j));
    SumPointwiseAdd(xs, ys, b);
    PickedSum(x, i);
    PickedSum(y, j);
    SumScale(Picked(y, j), ys, -1.0);
  }

  function Picked(x: seq<real>, i: bool): (r: seq<real>)
    ensures |r| == |x| && forall a :: 0 <= a < |x| ==> r[a] == if i then x[a] else 0.0
  {
    if i then x else seq(|x|, a requires 0 <= a < |x| => 0.0)
  }

  lemma PickedSum(x: seq<real>, i: bool)
    requires Sum(x) == 0.0
    ensures Sum(Picked(x, i)) == 0.0
  {
    if !i {
      SumZero(Picked(x, i));
    }
  }
}
