/** Specific rotations picked out of psi4's variables
    (`extract_rotations`, optrotvib/engine/psi4_engine.py).

    psi4 reports each specific rotation under a name such as
    `CC2 SPECIFIC ROTATION (LEN) @ 589NM`.  Every variable whose name
    contains `SPECIFIC ROTATION` becomes one record: the value as stored,
    the gauge read from the fourth word and the wavelength read from the
    sixth.  The variables are the dictionary's entries in its iteration
    order; the values are of any type and pass through untouched.
 */
module Psi4Rotations {

  import opened Results
  import opened Strs

  datatype Rotation<V> = Rotation(value: V, wavelength: int, gauge: string)

  const SpecificRotation := "SPECIFIC ROTATION"

  predicate IsRotationKey(k: string) {
    Contains(k, SpecificRotation)
  }

  const Parens: set<char> := {')'}
  const OpenParens: set<char> := {'('}
  const WavelengthUnit: set<char> := {'N', 'M'}

  /** The entries whose name names a specific rotation, in order. */
  function RotationEntries<V>(vars: seq<(string, V)>): (r: seq<(string, V)>)
    ensures |r| <= |vars|
    ensures forall j :: 0 <= j < |r| ==> IsRotationKey(r[j].0)
    decreases |vars|
  {
    if |vars| == 0 then []
    else (if IsRotationKey(vars[0].0) then [vars[0]] else []) + RotationEntries(vars[1..])
  }

  /** An entry is picked exactly when it is a variable with a rotation name. */
  lemma {:induction false} RotationEntriesMembers<V>(vars: seq<(string, V)>, e: (string, V))
    ensures e in RotationEntries(vars) <==> e in vars && IsRotationKey(e.0)
    decreases |vars|
  {
    if |vars| > 0 {
      RotationEntriesMembers(vars[1..], e);
      assert vars == [vars[0]] + vars[1..];
    }
  }

  /** One variable's record.  The name must split into exactly six words
      (else the unpacking is a ValueError); the gauge is the fourth word
      stripped of `)` and then of `(`; the wavelength is `int` of the sixth
      word stripped of `N` and `M`, a ValueError when that is not an
      integer. */
  function ParseKey<V>(k: string, value: V): (r: Result<Rotation<V>>)
    ensures |Words(k)| > 6 ==> r == Err(ValueError("too many values to unpack (expected 6)"))
    ensures |Words(k)| < 6 ==> r.Err? && r.error.ValueError?
    ensures r.Ok? <==> |Words(k)| == 6 && ParseInt(StripChars(Words(k)[5], WavelengthUnit)).Some?
    ensures r.Err? ==> r.error.ValueError?
    ensures r.Ok? ==> && r.value.value == value
                      && r.value.gauge == StripChars(StripChars(Words(k)[3], Parens), OpenParens)
                      && Some(r.value.wavelength) == ParseInt(StripChars(Words(k)[5], WavelengthUnit))
  {
    var ws := Words(k);
    if |ws| > 6 then Err(ValueError("too many values to unpack (expected 6)"))
    else if |ws| < 6 then Err(ValueError("not enough values to unpack (expected 6, got " + IntToString(|ws|) + ")"))
    else
      var gauge := StripChars(StripChars(ws[3], Parens), OpenParens);
      var wl := StripChars(ws[5], WavelengthUnit);
      match ParseInt(wl)
      case None => Err(ValueError("invalid literal for int() with base 10: '" + wl + "'"))
      case Some(n) => Ok(Rotation(value, n, gauge))
  }

  /** `extract_rotations(all_vars_dict)`: one record per variable whose name
      contains `SPECIFIC ROTATION`, in the dictionary's order. */
  function ExtractRotations<V>(vars: seq<(string, V)>): (r: Result<seq<Rotation<V>>>)
    ensures var es := RotationEntries(vars);
            && (r.Ok? <==> forall j :: 0 <= j < |es| ==> ParseKey(es[j].0, es[j].1).Ok?)
            && (r.Ok? ==> |r.value| == |es|
                          && forall j :: 0 <= j < |es| ==> r.value[j] == ParseKey(es[j].0, es[j].1).value)
            && (r.Err? ==> exists j :: 0 <= j < |es| && ParseKey(es[j].0, es[j].1).Err?
                                     && r.error == ParseKey(es[j].0, es[j].1).error
                                     && forall i :: 0 <= i < j ==> ParseKey(es[i].0, es[i].1).Ok?)
  {
    Collect(RotationEntries(vars), (e: (string, V)) => ParseKey(e.0, e.1))
  }

  // ---------------------------------------------------------------------
  // Names as psi4 writes them

  /** The name psi4 gives the rotation of `theory` (the method) in `gauge` at `nm`
      nanometres. */
  function RotationName(theory: string, gauge: string, nm: int): string {
    Join([theory, "SPECIFIC", "ROTATION", "(" + gauge + ")", "@", IntToString(nm) + "NM"], " ")
  }

  /** A gauge psi4 prints between parentheses. */
  predicate GaugeShaped(g: string) {
    && |g| > 0 && NoSpace(g)
    && g[0] !in Parens + OpenParens && g[|g| - 1] !in Parens + OpenParens
  }

  /** A psi4 rotation name is read back as the theory's rotation: its gauge
      and its wavelength. */
  lemma ParseKeyOfName<V>(theory: string, gauge: string, nm: int, value: V)
    requires IsWord(theory) && GaugeShaped(gauge)
    ensures ParseKey(RotationName(theory, gauge, nm), value) == Ok(Rotation(value, nm, gauge))
  {
    var k := RotationName(theory, gauge, nm);
    NameSplit(theory, gauge, nm);
    GaugeRead(gauge);
    WavelengthRead(nm);
    ParseKeyOfWords(k, value, Words(k), nm, gauge);
  }

  /** A name of six words reads as the record its fourth and sixth words
      give. */
  lemma ParseKeyOfWords<V>(k: string, value: V, ws: seq<string>, nm: int, gauge: string)
    requires Words(k) == ws && |ws| == 6
    requires StripChars(StripChars(ws[3], Parens), OpenParens) == gauge
    requires ParseInt(StripChars(ws[5], WavelengthUnit)) == Some(nm)
    ensures ParseKey(k, value) == Ok(Rotation(value, nm, gauge))
  {
  }

  lemma NameSplit(theory: string, gauge: string, nm: int)
    requires IsWord(theory) && GaugeShaped(gauge)
    ensures Words(RotationName(theory, gauge, nm))
            == [theory, "SPECIFIC", "ROTATION", "(" + gauge + ")", "@", IntToString(nm) + "NM"]
  {
    var num := IntToString(nm);
    NumberFramed(nm);
    NameWords(theory, gauge, num);
    WordsJoinRoundTrip([theory, "SPECIFIC", "ROTATION", "(" + gauge + ")", "@", num + "NM"]);
  }

  /** `(g)` stripped of `)` and then of `(` is `g`. */
  lemma GaugeRead(gauge: string)
    requires GaugeShaped(gauge)
    ensures StripChars(StripChars("(" + gauge + ")", Parens), OpenParens) == gauge
  {
    StripCharsFramed("", "(" + gauge, ")", Parens);
    assert "" + ("(" + gauge) + ")" == "(" + gauge + ")";
    StripCharsFramed("(", gauge, "", OpenParens);
    assert "(" + gauge + "" == "(" + gauge;
  }

  /** `<n>NM` stripped of `N` and `M` reads as `n`. */
  lemma WavelengthRead(nm: int)
    ensures ParseInt(StripChars(IntToString(nm) + "NM", WavelengthUnit)) == Some(nm)
  {
    var num := IntToString(nm);
    NumberFramed(nm);
    assert forall i :: 0 <= i < |"NM"| ==> "NM"[i] in WavelengthUnit by {
      assert "NM" == ['N', 'M'];
    }
    StripCharsFramed("", num, "NM", WavelengthUnit);
    assert "" + num + "NM" == num + "NM";
    ParseIntOfIntToString(nm);
  }

  lemma NameWords(theory: string, gauge: string, num: string)
    requires IsWord(theory) && GaugeShaped(gauge) && |num| > 0 && NoSpace(num)
    ensures var ws := [theory, "SPECIFIC", "ROTATION", "(" + gauge + ")", "@", num + "NM"];
            forall k :: 0 <= k < |ws| ==> IsWord(ws[k])
  {
    var g := "(" + gauge + ")";
    forall i | 0 <= i < |g| ensures !IsSpace(g[i]) {
      if 0 < i < |g| - 1 {
        assert g[i] == gauge[i - 1];
      }
    }
    var w := num + "NM";
    forall i | 0 <= i < |w| ensures !IsSpace(w[i]) {
      if i < |num| {
        assert w[i] == num[i];
      }
    }
  }

  /** A printed integer neither starts nor ends with `N` or `M`. */
  lemma NumberFramed(nm: int)
    ensures var s := IntToString(nm);
            && |s| > 0 && NoSpace(s) && s[0] !in WavelengthUnit && s[|s| - 1] !in WavelengthUnit
  {
    var s := IntToString(nm);
    if nm < 0 {
      assert s[1..][|s| - 2] == s[|s| - 1];
      assert forall i :: 1 <= i < |s| ==> s[i] == s[1..][i - 1];
    }
  }

  /** A psi4 rotation name is picked as a rotation. */
  lemma NameIsRotationKey(theory: string, gauge: string, nm: int)
    ensures IsRotationKey(RotationName(theory, gauge, nm))
  {
    var ws := [theory, "SPECIFIC", "ROTATION", "(" + gauge + ")", "@", IntToString(nm) + "NM"];
    var k := RotationName(theory, gauge, nm);
    var t := Join(ws[3..], " ");
    assert ws[1..][1..] == ws[2..] && ws[2..][1..] == ws[3..];
    assert Join(ws[2..], " ") == "ROTATION" + " " + t;
    assert Join(ws[1..], " ") == "SPECIFIC" + " " + Join(ws[2..], " ");
    assert k == theory + " " + Join(ws[1..], " ");
    assert k == (theory + " ") + SpecificRotation + (" " + t);
    var i := |theory| + 1;
    assert k[i..i + |SpecificRotation|] == SpecificRotation;
    assert OccursAt(k, SpecificRotation, i);
  }


  /** Next to an unrelated variable, a rotation psi4 reports gives
      exactly one record, with the stored value. */
  lemma ExtractOneRotation<V>(other: string, x: V, theory: string, gauge: string, nm: int, y: V)
    requires !IsRotationKey(other) && IsWord(theory) && GaugeShaped(gauge)
    ensures ExtractRotations([(other, x), (RotationName(theory, gauge, nm), y)])
            == Ok([Rotation(y, nm, gauge)])
  {
    NameIsRotationKey(theory, gauge, nm);
    ParseKeyOfName(theory, gauge, nm, y);
    ExtractOfPair(other, x, RotationName(theory, gauge, nm), y, Rotation(y, nm, gauge));
  }

  lemma ExtractOfPair<V>(other: string, x: V, k: string, y: V, rot: Rotation<V>)
    requires !IsRotationKey(other) && IsRotationKey(k) && ParseKey(k, y) == Ok(rot)
    ensures ExtractRotations([(other, x), (k, y)]) == Ok([rot])
  {
    var vars := [(other, x), (k, y)];
    assert vars[1..] == [(k, y)] && [(k, y)][1..] == [];
    assert RotationEntries(vars) == [(k, y)];
    var r := ExtractRotations(vars);
    assert r.Ok? && |r.value| == 1 && r.value[0] == rot;
    assert r.value == [rot];
  }
}
