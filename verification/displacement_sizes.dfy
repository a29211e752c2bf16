/** Displacement sizes for finite differences along normal modes
    (`wiberg_displacement_sizes` and `mort_displacment_sizes`,
    optrotvib/findif.py).

    The square root, the hyperbolic cotangent and the bohr/angstrom ratio are
    parameters; the frequencies are Python floats, so a zero frequency is a
    ZeroDivisionError.
 */
module DisplacementSizes {

  import opened Results
  import opened Matrices
  import opened Elements

  /** The empirical constants of the temperature-weighted policy. */
  const WibergC1: real := 16.857
  const WibergC2: real := 0.719384

  const NegativeTemperature := "Temperature must be in Kelvin, therefore it can't be negative"
  const ZeroTemperature := "Wiberg zero point displacement sizes have not been implemented yet"

  /** The size for one frequency, in angstrom. */
  function WibergSize(v: real, temp: real, sqrt: real -> real, coth: real -> real): real
    requires v != 0.0 && temp != 0.0
  {
    sqrt((WibergC1 / v) * coth(WibergC2 * v / temp))
  }

  /** `wiberg_displacement_sizes(omegas, temp)`: a negative temperature and
      the zero temperature are ValueErrors (checked before and after the
      sizes are formed); a zero frequency divides by zero; otherwise one
      size per frequency, in order, converted to bohr. */
  function WibergSizes(omegas: seq<real>, temp: real, sqrt: real -> real, coth: real -> real,
                       bohr2angstroms: PositiveReal): (r: Result<seq<real>>)
    ensures temp < 0.0 ==> r == Err(ValueError(NegativeTemperature))
    ensures temp == 0.0 ==> r == Err(ValueError(ZeroTemperature))
    ensures temp > 0.0 ==> (r.Ok? <==> forall i :: 0 <= i < |omegas| ==> omegas[i] != 0.0)
    ensures temp > 0.0 && r.Err? ==> r.error.ZeroDivisionError?
    ensures r.Ok? ==> |r.value| == |omegas|
    ensures r.Ok? ==> forall i :: 0 <= i < |omegas| ==>
              omegas[i] != 0.0 && r.value[i] * bohr2angstroms == WibergSize(omegas[i], temp, sqrt, coth)
  {
    if temp < 0.0 then Err(ValueError(NegativeTemperature))
    else if temp > 0.0 then
      if exists i :: 0 <= i < |omegas| && omegas[i] == 0.0 then Err(ZeroDivisionError("float division by zero"))
      else
        Ok(seq(|omegas|, i requires 0 <= i < |omegas| => WibergSize(omegas[i], temp, sqrt, coth) / bohr2angstroms))
    else Err(ValueError(ZeroTemperature))
  }

  /** Each size depends on its own frequency alone: the sizes of two lists
      put together are the two lists of sizes put together, and the joined
      list fails exactly when one of the parts does. */
  lemma WibergSizesAppend(a: seq<real>, b: seq<real>, temp: real, sqrt: real -> real, coth: real -> real,
                          bohr2angstroms: PositiveReal)
    ensures var r := WibergSizes(a + b, temp, sqrt, coth, bohr2angstroms);
            var ra := WibergSizes(a, temp, sqrt, coth, bohr2angstroms);
            var rb := WibergSizes(b, temp, sqrt, coth, bohr2angstroms);
            && (r.Ok? <==> ra.Ok? && rb.Ok?)
            && (r.Ok? ==> r.value == ra.value + rb.value)
  {
    var r := WibergSizes(a + b, temp, sqrt, coth, bohr2angstroms);
    var ra := WibergSizes(a, temp, sqrt, coth, bohr2angstroms);
    var rb := WibergSizes(b, temp, sqrt, coth, bohr2angstroms);
    if temp > 0.0 {
      assert forall i :: 0 <= i < |a| ==> (a + b)[i] == a[i];
      assert forall i :: 0 <= i < |b| ==> (a + b)[|a| + i] == b[i];
      if r.Ok? {
        forall i | 0 <= i < |a| + |b|
          ensures r.value[i] == (ra.value + rb.value)[i]
        {
          if i < |a| {
            assert r.value[i] * bohr2angstroms == ra.value[i] * bohr2angstroms;
          } else {
            assert r.value[i] * bohr2angstroms == rb.value[i - |a|] * bohr2angstroms;
          }
        }
      }
    }
  }

  // ---------------------------------------------------------------------
  // Fixed-average sizes

  /** As written, `natom` is `three_n / 3`, a float in Python 3, so
      `range(natom)` is a TypeError as soon as there is a mode.  With no
      mode the loops never run, the step is nan and `[delta] * 0` is the
      empty list. */
  function MortSizesAsWritten(s: Matrix, nmode: nat, avg: real): (r: Result<seq<real>>)
    requires Rect(s, |s|, nmode)
    ensures nmode > 0 <==> r.Err?
    ensures r.Err? ==> r.error.TypeError?
    ensures r.Ok? ==> r.value == []
  {
    if nmode > 0 then Err(TypeError("'float' object cannot be interpreted as an integer"))
    else Ok([])
  }

  /** The squared displacement of atom `n` in mode `m`: its three rows. */
  function AtomSquares(s: Matrix, nmode: nat, n: nat, m: nat): real
    requires Rect(s, |s|, nmode) && 3 * n + 2 < |s| && m < nmode
  {
    s[3 * n][m] * s[3 * n][m] + s[3 * n + 1][m] * s[3 * n + 1][m] + s[3 * n + 2][m] * s[3 * n + 2][m]
  }

  /** As written, atom `n`'s sum reads rows n, n+1 and n+2. */
  function AtomSquaresAsWritten(s: Matrix, nmode: nat, n: nat, m: nat): real
    requires Rect(s, |s|, nmode) && n + 2 < |s| && m < nmode
  {
    s[n][m] * s[n][m] + s[n + 1][m] * s[n + 1][m] + s[n + 2][m] * s[n + 2][m]
  }

  /** One mode's total displacement length, atom by atom. */
  function ModeLength(s: Matrix, nmode: nat, natom: nat, m: nat, sqrt: real -> real): real
    requires Rect(s, |s|, nmode) && 3 * natom <= |s| && m < nmode
  {
    Sum(seq(natom, n requires 0 <= n < natom => sqrt(AtomSquares(s, nmode, n, m))))
  }

  function TotalLength(s: Matrix, nmode: nat, natom: nat, sqrt: real -> real): real
    requires Rect(s, |s|, nmode) && 3 * natom <= |s|
  {
    Sum(seq(nmode, m requires 0 <= m < nmode => ModeLength(s, nmode, natom, m, sqrt)))
  }

  /** `mort_displacment_sizes(S, avg)` as evidently intended: `natom` is
      `three_n // 3` and atom n's length reads rows 3n..3n+2; one shared
      step avg·(nmode·natom)/(√3·d) per mode, where d sums every atom's
      displacement length over every mode.  With no mode the list is empty
      whatever the step; otherwise d = 0 makes the step inf or nan. */
  function MortSizes(s: Matrix, nmode: nat, avg: real, sqrt: real -> real): (r: Result<seq<real>>)
    requires Rect(s, |s|, nmode)
    ensures r.Ok? <==> nmode == 0 || sqrt(3.0) * TotalLength(s, nmode, |s| / 3, sqrt) != 0.0
    ensures r.Err? ==> r.error.NonFinite?
    ensures r.Ok? ==> |r.value| == nmode && forall k :: 0 <= k < nmode ==> r.value[k] == r.value[0]
    ensures r.Ok? && nmode > 0 ==>
              r.value[0] * (sqrt(3.0) * TotalLength(s, nmode, |s| / 3, sqrt)) == avg * (nmode * (|s| / 3)) as real
  {
    var natom := |s| / 3;
    var d := TotalLength(s, nmode, natom, sqrt);
    if nmode == 0 then Ok([])
    else if sqrt(3.0) * d == 0.0 then Err(NonFinite("division by zero"))
    else
      var delta := avg * (nmode * natom) as real / (sqrt(3.0) * d);
      Ok(seq(nmode, _ => delta))
  }

  /** The step depends on each atom's displacement only through its length:
      two mode matrices that agree on every atom's squared displacement in
      every mode give the same sizes. */
  lemma MortSeesOnlyAtomLengths(s: Matrix, s': Matrix, nmode: nat, avg: real, sqrt: real -> real)
    requires Rect(s, |s|, nmode) && Rect(s', |s|, nmode)
    requires forall n, m :: 0 <= n < |s| / 3 && 0 <= m < nmode ==>
               AtomSquares(s, nmode, n, m) == AtomSquares(s', nmode, n, m)
    ensures MortSizes(s, nmode, avg, sqrt) == MortSizes(s', nmode, avg, sqrt)
  {
    TotalLengthsAgree(s, s', nmode, |s| / 3, sqrt);
    var a := MortSizes(s, nmode, avg, sqrt);
    var b := MortSizes(s', nmode, avg, sqrt);
    if a.Ok? {
      assert |a.value| == |b.value|;
      forall k | 0 <= k < nmode ensures a.value[k] == b.value[k] {}
    }
  }

  lemma ModeLengthsAgree(s: Matrix, s': Matrix, nmode: nat, natom: nat, m: nat, sqrt: real -> real)
    requires Rect(s, |s|, nmode) && Rect(s', |s|, nmode) && 3 * natom <= |s| && m < nmode
    requires forall n :: 0 <= n < natom ==> AtomSquares(s, nmode, n, m) == AtomSquares(s', nmode, n, m)
    ensures ModeLength(s, nmode, natom, m, sqrt) == ModeLength(s', nmode, natom, m, sqrt)
  {
    assert seq(natom, n requires 0 <= n < natom => sqrt(AtomSquares(s, nmode, n, m)))
        == seq(natom, n requires 0 <= n < natom => sqrt(AtomSquares(s', nmode, n, m)));
  }

  lemma TotalLengthsAgree(s: Matrix, s': Matrix, nmode: nat, natom: nat, sqrt: real -> real)
    requires Rect(s, |s|, nmode) && Rect(s', |s|, nmode) && 3 * natom <= |s|
    requires forall n, m :: 0 <= n < natom && 0 <= m < nmode ==>
               AtomSquares(s, nmode, n, m) == AtomSquares(s', nmode, n, m)
    ensures TotalLength(s, nmode, natom, sqrt) == TotalLength(s', nmode, natom, sqrt)
  {
    var a := seq(nmode, m requires 0 <= m < nmode => ModeLength(s, nmode, natom, m, sqrt));
    var b := seq(nmode, m requires 0 <= m < nmode => ModeLength(s', nmode, natom, m, sqrt));
    forall m | 0 <= m < nmode ensures a[m] == b[m] {
      ModeLengthsAgree(s, s', nmode, natom, m, sqrt);
    }
    assert a == b;
  }

  /** The sign of a normal mode is arbitrary, and the step does not see it. */
  lemma MortSignInvariant(s: Matrix, nmode: nat, col: nat, avg: real, sqrt: real -> real)
    requires Rect(s, |s|, nmode)
    ensures MortSizes(NegateColumn(s, nmode, col), nmode, avg, sqrt) == MortSizes(s, nmode, avg, sqrt)
  {
    var s' := NegateColumn(s, nmode, col);
    MortSeesOnlyAtomLengths(s, s', nmode, avg, sqrt);
  }

  /** As written, with two atoms the last atom's z row is never read: a
      mode moving only that coordinate has zero length, where the intended
      sum gives it its full length. */
  lemma MortRowsSkipLastAtom(sqrt: real -> real)
    requires sqrt(0.0) == 0.0 && sqrt(1.0) == 1.0
    ensures var s := [[0.0], [0.0], [0.0], [0.0], [0.0], [1.0]];
            && Rect(s, 6, 1)
            && sqrt(AtomSquaresAsWritten(s, 1, 0, 0)) + sqrt(AtomSquaresAsWritten(s, 1, 1, 0)) == 0.0
            && ModeLength(s, 1, 2, 0, sqrt) == 1.0
  {
    var s := [[0.0], [0.0], [0.0], [0.0], [0.0], [1.0]];
    assert AtomSquares(s, 1, 0, 0) == 0.0;
    assert AtomSquares(s, 1, 1, 0) == 1.0;
    var terms := seq(2, n requires 0 <= n < 2 => sqrt(AtomSquares(s, 1, n, 0)));
    assert terms == [0.0, 1.0];
    assert terms[1..][1..] == [];
    assert Sum(terms[1..]) == 1.0 + Sum(terms[1..][1..]);
  }
}
