/** The molecule record (optrotvib/molecule.py, class `Molecule`) and the
    operations on it that only move data around: the mass property, the
    (Z, x, y, z) array constructor and fragment extraction.

    A molecule is an immutable value here; every operation returns a new one.
    `fix_com` and `fix_orientation` are always True in the source and are not
    stored; `provenance` is always empty and is not stored either.
 */
module Molecules {

  import opened Results
  import opened Strs
  import opened Matrices
  import opened Elements

  datatype Molecule = Molecule(
    name: string,
    comment: string,
    symbols: seq<string>,
    geometry: Matrix,               // one row (x, y, z) per atom, in bohr
    storedMasses: seq<real>,        // `_masses`, meaningful when customMasses
    customMasses: bool,             // `_custom_masses`
    charge: real,
    multiplicity: int,
    isReal: seq<bool>,
    fragments: seq<seq<int>>,       // atom indices of each fragment
    fragmentCharges: seq<real>,
    fragmentMultiplicities: seq<int>)

  /** `Molecule(None, name=name)`: every field at its initial value. */
  function Blank(name: string): Molecule {
    Molecule(name, "", [], [], [], false, 0.0, 1, [], [], [], [])
  }

  function AtomCount(m: Molecule): nat {
    |m.symbols|
  }

  /** The invariant every constructor establishes: one symbol, one geometry
      row of three coordinates and one real flag per atom; fragments hold
      atom indices; each fragment has a charge and a multiplicity; custom
      masses come one per atom. */
  predicate WellFormed(m: Molecule) {
    && |m.geometry| == |m.symbols|
    && |m.isReal| == |m.symbols|
    && Rect(m.geometry, |m.symbols|, 3)
    && (forall f, k :: 0 <= f < |m.fragments| && 0 <= k < |m.fragments[f]| ==>
          0 <= m.fragments[f][k] < |m.symbols|)
    && |m.fragmentCharges| >= |m.fragments|
    && |m.fragmentMultiplicities| >= |m.fragments|
    && (m.customMasses ==> |m.storedMasses| == |m.symbols|)
  }

  // ---------------------------------------------------------------------
  // Masses

  /** The `masses` property: the stored list when masses were set
      explicitly, otherwise the table mass of every symbol. */
  function Masses(m: Molecule, t: Table): (r: Result<seq<real>>)
    ensures m.customMasses ==> r == Ok(m.storedMasses)
    ensures !m.customMasses ==>
              && (r.Ok? <==> forall i :: 0 <= i < |m.symbols| ==> m.symbols[i] in t.bySymbol)
              && (r.Ok? ==> |r.value| == |m.symbols|
                            && forall i :: 0 <= i < |m.symbols| ==> r.value[i] == t.bySymbol[m.symbols[i]].mass)
              && (r.Err? ==> r.error.KeyError?)
  {
    if m.customMasses then Ok(m.storedMasses) else MassesOf(t, m.symbols)
  }

  /** The `masses` setter: marks the masses as custom and stores them. */
  function SetMasses(m: Molecule, value: seq<real>): (r: Molecule)
    ensures r.customMasses && r.storedMasses == value
    ensures r.(storedMasses := m.storedMasses, customMasses := m.customMasses) == m
  {
    m.(storedMasses := value, customMasses := true)
  }

  /** Reading the masses back after setting them gives what was set,
      whatever the table says. */
  lemma MassesAfterSet(m: Molecule, value: seq<real>, t: Table)
    ensures Masses(SetMasses(m, value), t) == Ok(value)
  {
  }

  // ---------------------------------------------------------------------
  // Index ranges and fragment layouts

  /** `list(range(a, b))`. */
  function Range(a: int, b: int): (r: seq<int>)
    ensures |r| == if a < b then b - a else 0
    ensures forall k :: 0 <= k < |r| ==> r[k] == a + k
  {
    seq(if a < b then b - a else 0, k => a + k)
  }

  lemma RangeAppend(a: int, b: int, c: int)
    requires a <= b <= c
    ensures Range(a, b) + Range(b, c) == Range(a, c)
  {
  }

  /** All indices of all fragments, fragment after fragment. */
  function Flatten(fs: seq<seq<int>>): seq<int>
    decreases |fs|
  {
    if |fs| == 0 then [] else fs[0] + Flatten(fs[1..])
  }

  lemma {:induction false} FlattenAppend(a: seq<seq<int>>, b: seq<seq<int>>)
    ensures Flatten(a + b) == Flatten(a) + Flatten(b)
    decreases |a|
  {
    if |a| == 0 {
      assert a + b == b;
    } else {
      assert (a + b)[1..] == a[1..] + b;
      FlattenAppend(a[1..], b);
    }
  }

  /** The fragments `[start, s0), [s0, s1), ...` that a list of split points
      describes. */
  function SplitRanges(start: int, splits: seq<int>): (r: seq<seq<int>>)
    ensures |r| == |splits|
    decreases |splits|
  {
    if |splits| == 0 then [] else [Range(start, splits[0])] + SplitRanges(splits[0], splits[1..])
  }

  predicate NonDecreasing(xs: seq<int>) {
    forall i, j :: 0 <= i <= j < |xs| ==> xs[i] <= xs[j]
  }

  /** Ascending split points cut `[start, last)` into consecutive pieces
      that cover it exactly once, in order. */
  lemma {:induction false} SplitRangesCover(start: int, splits: seq<int>)
    requires |splits| > 0 && start <= splits[0] && NonDecreasing(splits)
    ensures Flatten(SplitRanges(start, splits)) == Range(start, splits[|splits| - 1])
    decreases |splits|
  {
    var rest := splits[1..];
    if |rest| == 0 {
      assert Flatten(SplitRanges(splits[0], rest)) == [];
    } else {
      SplitRangesCover(splits[0], rest);
      RangeAppend(start, splits[0], rest[|rest| - 1]);
    }
  }

  /** The fragments `[start, start + n0), [start + n0, ...)` of the given
      sizes, one after the other. */
  function SizedRanges(start: int, sizes: seq<nat>): (r: seq<seq<int>>)
    ensures |r| == |sizes|
    decreases |sizes|
  {
    if |sizes| == 0 then [] else [Range(start, start + sizes[0])] + SizedRanges(start + sizes[0], sizes[1..])
  }

  function SumNat(xs: seq<nat>): nat
    decreases |xs|
  {
    if |xs| == 0 then 0 else xs[0] + SumNat(xs[1..])
  }

  /** Consecutive fragments of the given sizes cover `[start, start + total)`. */
  lemma {:induction false} SizedRangesCover(start: int, sizes: seq<nat>)
    ensures Flatten(SizedRanges(start, sizes)) == Range(start, start + SumNat(sizes))
    decreases |sizes|
  {
    if |sizes| > 0 {
      SizedRangesCover(start + sizes[0], sizes[1..]);
      RangeAppend(start, start + sizes[0], start + SumNat(sizes));
    }
  }

  // ---------------------------------------------------------------------
  // The (Z, x, y, z) array constructor

  /** The coordinate factor the unit names select: 1 for bohr, the inverse
      of bohr2angstroms for angstrom, KeyError otherwise. */
  function UnitFactor(units: string, t: Table): (r: Result<real>)
    ensures r.Ok? <==> units == "bohr" || units == "angstrom"
    ensures units == "bohr" ==> r == Ok(1.0)
    ensures units == "angstrom" ==> r.Ok? && r.value * t.bohr2angstroms == 1.0
    ensures r.Err? ==> r.error.KeyError?
  {
    if units == "bohr" then Ok(1.0)
    else if units == "angstrom" then Ok(1.0 / t.bohr2angstroms)
    else Err(KeyError("Unit '" + units + "' not understood"))
  }

  /** The split list after the constructor's completion step: the atom
      count is appended unless the list is empty or already ends with it. */
  function CompleteSplits(frags: seq<int>, n: nat): (r: seq<int>)
    ensures |frags| == 0 ==> r == []
    ensures |frags| > 0 ==> |r| >= |frags| && r[|r| - 1] == n && r[..|frags|] == frags
    ensures |frags| > 0 && frags[|frags| - 1] != n ==> r == frags + [n]
    ensures |frags| > 0 && frags[|frags| - 1] == n ==> r == frags
  {
    if |frags| > 0 && frags[|frags| - 1] != n then frags + [n] else frags
  }

  /** `Molecule(arr, dtype="numpy", frags=frags, units=units, name=name)`
      before centring and orientation: `arr` holds one (Z, x, y, z) row per
      atom.  An empty array has no second dimension (IndexError), ragged rows
      do not form an array (ValueError), a width other than 4 is an
      AttributeError; a well-shaped array goes on to `FromRows`. */
  function FromNumpy(arr: Matrix, frags: seq<int>, units: string, t: Table, name: string): (r: Result<Molecule>)
    ensures |arr| == 0 ==> r.Err? && r.error.IndexError?
    ensures |arr| > 0 && !Rect(arr, |arr|, |arr[0]|) ==> r.Err? && r.error.ValueError?
    ensures |arr| > 0 && Rect(arr, |arr|, |arr[0]|) && |arr[0]| != 4 ==> r.Err? && r.error.AttributeError?
    ensures r.Ok? ==> Rect(arr, |arr|, 4) && |arr| > 0
    ensures Rect(arr, |arr|, 4) && |arr| > 0 ==> r == FromRows(arr, frags, units, t, name)
  {
    if |arr| == 0 then Err(IndexError("tuple index out of range"))
    else if !Rect(arr, |arr|, |arr[0]|) then Err(ValueError("inhomogeneous shape"))
    else if |arr[0]| != 4 then Err(AttributeError("Molecule should be shape (N, 4)"))
    else FromRows(arr, frags, units, t, name)
  }

  /** The array constructor on a well-shaped N×4 array: an unknown unit name
      or atomic number is a KeyError; otherwise the symbols come from the Z
      column, the coordinates are scaled to bohr, every atom is real and the
      split list becomes consecutive fragments of charge 0 and
      multiplicity 1. */
  function FromRows(arr: Matrix, frags: seq<int>, units: string, t: Table, name: string): (r: Result<Molecule>)
    requires Rect(arr, |arr|, 4) && |arr| > 0
    ensures r.Ok? <==> (units == "bohr" || units == "angstrom")
                       && forall i :: 0 <= i < |arr| ==> SymbolOf(t, arr[i][0]).Ok?
    ensures r.Err? ==> r.error.KeyError?
    ensures r.Ok? ==>
              var m := r.value;
              && |m.symbols| == |arr|
              && (forall i :: 0 <= i < |arr| ==> m.symbols[i] == SymbolOf(t, arr[i][0]).value)
              && m == Build(arr, m.symbols, UnitFactor(units, t).value, frags, name)
  {
    var c :- UnitFactor(units, t);
    var zs := Column(arr, 0);
    assert forall i :: 0 <= i < |arr| ==> zs[i] == arr[i][0];
    var symbols :- SymbolsOf(t, zs);
    Ok(Build(arr, symbols, c, frags, name))
  }

  /** The molecule of a well-shaped (Z, x, y, z) array once its symbols and
      unit factor are known. */
  function Build(arr: Matrix, symbols: seq<string>, c: real, frags: seq<int>, name: string): (m: Molecule)
    requires Rect(arr, |arr|, 4) && |symbols| == |arr|
    ensures var splits := CompleteSplits(frags, |arr|);
            && m.name == name && m.comment == "" && m.symbols == symbols
            && Rect(m.geometry, |arr|, 3)
            && (forall i, k :: 0 <= i < |arr| && 0 <= k < 3 ==> m.geometry[i][k] == arr[i][k + 1] * c)
            && m.isReal == seq(|arr|, _ => true)
            && m.fragments == SplitRanges(0, splits)
            && m.fragmentCharges == seq(|splits|, _ => 0.0)
            && m.fragmentMultiplicities == seq(|splits|, _ => 1)
            && !m.customMasses && m.charge == 0.0 && m.multiplicity == 1
  {
    var n := |arr|;
    var splits := CompleteSplits(frags, n);
    Molecule(name, "", symbols,
             seq(n, i requires 0 <= i < n => [arr[i][1] * c, arr[i][2] * c, arr[i][3] * c]),
             [], false, 0.0, 1,
             seq(n, _ => true),
             SplitRanges(0, splits),
             seq(|splits|, _ => 0.0),
             seq(|splits|, _ => 1))
  }

  /** With ascending split points inside `[0, N]`, the array constructor's
      fragments cover every atom exactly once, in order, and the molecule is
      well formed. */
  lemma FromNumpyFragments(arr: Matrix, frags: seq<int>, units: string, t: Table, name: string)
    requires FromNumpy(arr, frags, units, t, name).Ok?
    requires |frags| > 0 && NonDecreasing(frags) && 0 <= frags[0] && frags[|frags| - 1] <= |arr|
    ensures var m := FromNumpy(arr, frags, units, t, name).value;
            Flatten(m.fragments) == Range(0, |arr|) && WellFormed(m)
  {
    var m := FromNumpy(arr, frags, units, t, name).value;
    var splits := CompleteSplits(frags, |arr|);
    assert NonDecreasing(splits);
    SplitRangesCover(0, splits);
    forall f, k | 0 <= f < |m.fragments| && 0 <= k < |m.fragments[f]|
      ensures 0 <= m.fragments[f][k] < |m.symbols|
    {
      FlattenMember(m.fragments, f, k);
    }
  }

  /** Every index of every fragment occurs in the flattened list. */
  lemma {:induction false} FlattenMember(fs: seq<seq<int>>, f: nat, k: nat)
    requires f < |fs| && k < |fs[f]|
    ensures fs[f][k] in Flatten(fs)
    decreases f
  {
    if f > 0 {
      FlattenMember(fs[1..], f - 1, k);
    }
  }

  // ---------------------------------------------------------------------
  // Fragment extraction

  /** The `real`/`ghost` argument of `get_fragment`: one index or a list. */
  datatype Selection = Index(i: int) | Indices(items: seq<int>)

  function AsList(s: Selection): seq<int> {
    match s
    case Index(i) => [i]
    case Indices(items) => items
  }

  /** `str(list_of_ints)`. */
  function ListText(xs: seq<int>): string {
    "[" + Join(seq(|xs|, k requires 0 <= k < |xs| => IntToString(xs[k])), ", ") + "]"
  }

  /** Python indexing of `xs` by every entry of `idx`, failing with an
      IndexError at any index out of range. */
  function PickAll<T>(xs: seq<T>, idx: seq<int>): (r: Result<seq<T>>)
    ensures r.Ok? <==> forall k :: 0 <= k < |idx| ==> -|xs| <= idx[k] < |xs|
    ensures r.Ok? ==> |r.value| == |idx| && forall k :: 0 <= k < |idx| ==> r.value[k] == PyAt(xs, idx[k]).value
    ensures r.Err? ==> r.error.IndexError?
    decreases |idx|
  {
    if |idx| == 0 then Ok([])
    else
      var x :- PyAt(xs, idx[0]);
      var rest :- PickAll(xs, idx[1..]);
      assert forall k :: 1 <= k < |idx| ==> idx[k] == idx[1..][k - 1];
      Ok([x] + rest)
  }

  /** The entries of `xs` at the (valid, non-negative) positions `idx`. */
  function Gather<T>(xs: seq<T>, idx: seq<int>): (r: seq<T>)
    requires forall k :: 0 <= k < |idx| ==> 0 <= idx[k] < |xs|
    ensures |r| == |idx| && forall k :: 0 <= k < |idx| ==> r[k] == xs[idx[k]]
  {
    seq(|idx|, k requires 0 <= k < |idx| => xs[idx[k]])
  }

  predicate Overlap(a: seq<int>, b: seq<int>) {
    exists i, j :: 0 <= i < |a| && 0 <= j < |b| && a[i] == b[j]
  }

  function Sizes(fs: seq<seq<int>>): (r: seq<nat>)
    ensures |r| == |fs| && forall k :: 0 <= k < |fs| ==> r[k] == |fs[k]|
  {
    seq(|fs|, k requires 0 <= k < |fs| => |fs[k]|)
  }

  /** Σ (m - 1) over multiplicities, the source's combination rule. */
  function UnpairedSum(ms: seq<int>): int
    decreases |ms|
  {
    if |ms| == 0 then 0 else (ms[0] - 1) + UnpairedSum(ms[1..])
  }

  lemma {:induction false} FlattenIndices(fs: seq<seq<int>>, n: nat)
    requires forall f, k :: 0 <= f < |fs| && 0 <= k < |fs[f]| ==> 0 <= fs[f][k] < n
    ensures forall k :: 0 <= k < |Flatten(fs)| ==> 0 <= Flatten(fs)[k] < n
    decreases |fs|
  {
    if |fs| > 0 {
      FlattenIndices(fs[1..], n);
    }
  }

  lemma FlattenLength(fs: seq<seq<int>>)
    ensures |Flatten(fs)| == SumNat(Sizes(fs))
    decreases |fs|
  {
    if |fs| > 0 {
      FlattenLength(fs[1..]);
      assert Sizes(fs)[1..] == Sizes(fs[1..]);
    }
  }

  /** Python indices `idx` are valid for the fragment list and for both
      per-fragment lists. */
  predicate InRange(m: Molecule, idx: seq<int>) {
    forall k :: 0 <= k < |idx| ==>
      && -|m.fragments| <= idx[k] < |m.fragments|
      && -|m.fragmentCharges| <= idx[k] < |m.fragmentCharges|
      && -|m.fragmentMultiplicities| <= idx[k] < |m.fragmentMultiplicities|
  }

  /** The fragments, charges and multiplicities a list of fragment indices
      selects. */
  datatype Picked = Picked(frags: seq<seq<int>>, charges: seq<real>, mults: seq<int>)

  /** Looking up every selected fragment, its charge and its multiplicity:
      an IndexError exactly when one index is out of range. */
  function Pick(m: Molecule, idx: seq<int>): (r: Result<Picked>)
    requires WellFormed(m)
    ensures r.Ok? <==> InRange(m, idx)
    ensures r.Err? ==> r.error.IndexError?
    ensures r.Ok? ==>
              && |r.value.frags| == |r.value.charges| == |r.value.mults| == |idx|
              && (forall k :: 0 <= k < |idx| ==>
                    && r.value.frags[k] == PyAt(m.fragments, idx[k]).value
                    && r.value.charges[k] == PyAt(m.fragmentCharges, idx[k]).value
                    && r.value.mults[k] == PyAt(m.fragmentMultiplicities, idx[k]).value)
              && FragsIn(r.value.frags, |m.symbols|)
  {
    var frags :- PickAll(m.fragments, idx);
    var charges :- PickAll(m.fragmentCharges, idx);
    var mults :- PickAll(m.fragmentMultiplicities, idx);
    assert forall k :: 0 <= k < |idx| ==> frags[k] in m.fragments;
    Ok(Picked(frags, charges, mults))
  }

  /** Every index of every fragment in `fs` names one of `n` atoms. */
  predicate FragsIn(fs: seq<seq<int>>, n: nat) {
    forall f, k :: 0 <= f < |fs| && 0 <= k < |fs[f]| ==> 0 <= fs[f][k] < n
  }

  /** The molecule `get_fragment` builds from the selected real and ghost
      fragments: their atoms in selection order, consecutive new fragments,
      real flags, the summed charge and the Σ (m - 1) multiplicity. */
  function Assemble(m: Molecule, name: string, re: Picked, gh: Picked): (r: Molecule)
    requires WellFormed(m)
    requires FragsIn(re.frags, |m.symbols|) && FragsIn(gh.frags, |m.symbols|)
    ensures var nReal := |Flatten(re.frags)|;
            var n := nReal + |Flatten(gh.frags)|;
            && |r.symbols| == n
            && Flatten(r.fragments) == Range(0, n)
            && r.fragments == SizedRanges(0, Sizes(re.frags) + Sizes(gh.frags))
            && |r.isReal| == n
            && (forall i :: 0 <= i < n ==> (r.isReal[i] <==> i < nReal))
            && r.charge == Sum(re.charges)
            && r.multiplicity == UnpairedSum(re.mults)
            && r.fragmentCharges == re.charges + gh.charges
            && r.fragmentMultiplicities == re.mults + gh.mults
  {
    FlattenIndices(re.frags, |m.symbols|);
    FlattenIndices(gh.frags, |m.symbols|);
    var atoms := Flatten(re.frags) + Flatten(gh.frags);
    var frags := SizedRanges(0, Sizes(re.frags) + Sizes(gh.frags));
    AssembleLayout(re.frags, gh.frags);
    Molecule(
      name, "",
      Gather(m.symbols, atoms),
      Gather(m.geometry, atoms),
      if m.customMasses then Gather(m.storedMasses, atoms) else [],
      m.customMasses,
      Sum(re.charges),
      UnpairedSum(re.mults),
      RealFlags(|Flatten(re.frags)|, |Flatten(gh.frags)|),
      frags,
      re.charges + gh.charges,
      re.mults + gh.mults)
  }

  /** Atom i of the extracted molecule is the i-th atom of the selected
      real fragments followed by the selected ghost fragments: same symbol,
      same position. */
  lemma AssembleAtoms(m: Molecule, name: string, re: Picked, gh: Picked)
    requires WellFormed(m)
    requires FragsIn(re.frags, |m.symbols|) && FragsIn(gh.frags, |m.symbols|)
    ensures var r := Assemble(m, name, re, gh);
            var atoms := Flatten(re.frags) + Flatten(gh.frags);
            && |r.symbols| == |r.geometry| == |atoms|
            && forall i :: 0 <= i < |atoms| ==>
                 && 0 <= atoms[i] < |m.symbols|
                 && r.symbols[i] == m.symbols[atoms[i]]
                 && r.geometry[i] == m.geometry[atoms[i]]
  {
    FlattenIndices(re.frags, |m.symbols|);
    FlattenIndices(gh.frags, |m.symbols|);
  }

  /** True for the real atoms, then False for the ghosts. */
  function RealFlags(nReal: nat, nGhost: nat): (r: seq<bool>)
    ensures |r| == nReal + nGhost && forall i :: 0 <= i < |r| ==> (r[i] <==> i < nReal)
  {
    seq(nReal, _ => true) + seq(nGhost, _ => false)
  }

  /** With one charge and one multiplicity per selected fragment, the
      extracted molecule is well formed again. */
  lemma AssembleWellFormed(m: Molecule, name: string, re: Picked, gh: Picked)
    requires WellFormed(m)
    requires FragsIn(re.frags, |m.symbols|) && FragsIn(gh.frags, |m.symbols|)
    requires |re.charges| == |re.mults| == |re.frags| && |gh.charges| == |gh.mults| == |gh.frags|
    ensures WellFormed(Assemble(m, name, re, gh))
  {
    var r := Assemble(m, name, re, gh);
    FlattenIndices(re.frags, |m.symbols|);
    FlattenIndices(gh.frags, |m.symbols|);
    var atoms := Flatten(re.frags) + Flatten(gh.frags);
    assert |r.geometry| == |atoms|;
    assert forall g, k :: 0 <= g < |r.fragments| && 0 <= k < |r.fragments[g]| ==> 0 <= r.fragments[g][k] < |r.symbols| by {
      forall g, k | 0 <= g < |r.fragments| && 0 <= k < |r.fragments[g]|
        ensures 0 <= r.fragments[g][k] < |r.symbols|
      {
        FlattenMember(r.fragments, g, k);
      }
    }
  }

  /** The new fragment list covers the new atom indices, fragment sizes
      carried over. */
  lemma AssembleLayout(re: seq<seq<int>>, gh: seq<seq<int>>)
    ensures var frags := SizedRanges(0, Sizes(re) + Sizes(gh));
            && Flatten(frags) == Range(0, |Flatten(re) + Flatten(gh)|)
            && |frags| == |re| + |gh|
            && (forall k :: 0 <= k < |re| ==> |frags[k]| == |re[k]|)
            && (forall k :: 0 <= k < |gh| ==> |frags[|re| + k]| == |gh[k]|)
  {
    var sizes := Sizes(re) + Sizes(gh);
    var frags := SizedRanges(0, sizes);
    assert sizes == Sizes(re + gh);
    FlattenAppend(re, gh);
    FlattenLength(re + gh);
    SizedRangesCover(0, sizes);
    SizedRangesSizes(0, sizes);
    forall k | 0 <= k < |gh| ensures |frags[|re| + k]| == |gh[k]| {
      assert sizes[|re| + k] == |gh[k]|;
    }
  }

  /** `get_fragment(real, ghost, orient=False)`.  Overlapping index lists
      raise TypeError before anything else; an index outside the fragment,
      charge or multiplicity lists is an IndexError; selecting nothing at all
      leaves `np.vstack` nothing to stack (ValueError). */
  function GetFragment(m: Molecule, realSel: Selection, ghostSel: Option<Selection>): (r: Result<Molecule>)
    requires WellFormed(m)
  {
    var rs := AsList(realSel);
    var gs := GhostList(ghostSel);
    var name := m.name + " (" + ListText(rs) + "," + ListText(gs) + ")";
    if Overlap(rs, gs) then Err(TypeError("real and ghost sets are overlaping"))
    else
      var re :- Pick(m, rs);
      var gh :- Pick(m, gs);
      if |rs| + |gs| == 0 then Err(ValueError("need at least one array to concatenate"))
      else Ok(Assemble(m, name, re, gh))
  }

  /** `ghost=None` means no ghost fragments. */
  function GhostList(ghostSel: Option<Selection>): seq<int> {
    if ghostSel.None? then [] else AsList(ghostSel.value)
  }

  /** The error cases of `get_fragment`, both directions: TypeError exactly
      for overlapping lists, IndexError exactly for an index outside one of
      the per-fragment lists, ValueError exactly for an empty selection. */
  lemma GetFragmentErrors(m: Molecule, realSel: Selection, ghostSel: Option<Selection>)
    requires WellFormed(m)
    ensures var rs := AsList(realSel);
            var gs := GhostList(ghostSel);
            var r := GetFragment(m, realSel, ghostSel);
            && (r.Err? && r.error.TypeError? <==> Overlap(rs, gs))
            && (r.Err? && r.error.IndexError? <==> !Overlap(rs, gs) && !(InRange(m, rs) && InRange(m, gs)))
            && (r.Err? && r.error.ValueError? <==> !Overlap(rs, gs) && InRange(m, rs) && InRange(m, gs) && |rs| + |gs| == 0)
            && (r.Ok? <==> !Overlap(rs, gs) && InRange(m, rs) && InRange(m, gs) && |rs| + |gs| > 0)
  {
  }

  /** A successful extraction lists the real fragments' atoms, then the
      ghost fragments' atoms, in consecutive fragments that cover the new
      atom indices exactly once; real atoms are flagged True and ghosts
      False; the charge is the sum of the real fragments' charges and the
      multiplicity is Σ (m - 1) over the real fragments, as written. */
  lemma GetFragmentLayout(m: Molecule, realSel: Selection, ghostSel: Option<Selection>)
    requires WellFormed(m)
    requires GetFragment(m, realSel, ghostSel).Ok?
    ensures var re := Pick(m, AsList(realSel)).value;
            var gh := Pick(m, GhostList(ghostSel)).value;
            var f := GetFragment(m, realSel, ghostSel).value;
            var nReal := |Flatten(re.frags)|;
            var n := nReal + |Flatten(gh.frags)|;
            && |f.symbols| == n
            && Flatten(f.fragments) == Range(0, n)
            && |f.fragments| == |AsList(realSel)| + |GhostList(ghostSel)|
            && (forall i :: 0 <= i < n ==> (f.isReal[i] <==> i < nReal))
            && f.charge == Sum(re.charges)
            && f.multiplicity == UnpairedSum(re.mults)
            && f.fragmentCharges == re.charges + gh.charges
            && WellFormed(f)
  {
    var rs, gs := AsList(realSel), GhostList(ghostSel);
    var re, gh := Pick(m, rs).value, Pick(m, gs).value;
    var name := m.name + " (" + ListText(rs) + "," + ListText(gs) + ")";
    assert GetFragment(m, realSel, ghostSel).value == Assemble(m, name, re, gh);
    AssembleWellFormed(m, name, re, gh);
  }

  lemma {:induction false} SizedRangesSizes(start: int, sizes: seq<nat>)
    ensures forall k :: 0 <= k < |sizes| ==> |SizedRanges(start, sizes)[k]| == sizes[k]
    decreases |sizes|
  {
    if |sizes| > 0 {
      SizedRangesSizes(start + sizes[0], sizes[1..]);
    }
  }

  // ---------------------------------------------------------------------
  // Finding: the combined multiplicity

  /** As written, one singlet fragment (multiplicity 1) is reported with
      multiplicity 0, which is no spin multiplicity at all. */
  lemma SingletFragmentMultiplicityZero()
    ensures var m := Molecule("", "", ["H", "H"], [[0.0, 0.0, 0.0], [0.0, 0.0, 1.4]], [], false,
                              0.0, 1, [true, true], [[0, 1]], [0.0], [1]);
            && WellFormed(m)
            && GetFragment(m, Index(0), None).Ok?
            && GetFragment(m, Index(0), None).value.multiplicity == 0
  {
    var m := Molecule("", "", ["H", "H"], [[0.0, 0.0, 0.0], [0.0, 0.0, 1.4]], [], false,
                      0.0, 1, [true, true], [[0, 1]], [0.0], [1]);
    assert Pick(m, [0]).value.mults == [1];
    assert UnpairedSum([1]) == 0;
  }

  /** The multiplicity of high-spin coupled fragments: 2S + 1 with S the sum
      of the fragments' spins, that is Σ (m - 1) + 1. */
  function CombinedMultiplicity(ms: seq<int>): int {
    UnpairedSum(ms) + 1
  }

  /** `get_fragment` with the combined multiplicity corrected; everything
      else is as in `GetFragment`. */
  function GetFragmentCorrected(m: Molecule, realSel: Selection, ghostSel: Option<Selection>): (r: Result<Molecule>)
    requires WellFormed(m)
    ensures r.Ok? <==> GetFragment(m, realSel, ghostSel).Ok?
    ensures r.Err? ==> r == GetFragment(m, realSel, ghostSel)
  {
    var f :- GetFragment(m, realSel, ghostSel);
    Ok(f.(multiplicity := CombinedMultiplicity(Pick(m, AsList(realSel)).value.mults)))
  }

  /** With the correction, extracting fragments of multiplicity 1 gives a
      singlet, and a lone fragment keeps its own multiplicity. */
  lemma CorrectedMultiplicity(m: Molecule, realSel: Selection, ghostSel: Option<Selection>)
    requires WellFormed(m)
    requires GetFragmentCorrected(m, realSel, ghostSel).Ok?
    ensures var ms := Pick(m, AsList(realSel)).value.mults;
            var f := GetFragmentCorrected(m, realSel, ghostSel).value;
            && ((forall k :: 0 <= k < |ms| ==> ms[k] == 1) ==> f.multiplicity == 1)
            && (|ms| == 1 ==> f.multiplicity == ms[0])
  {
    var ms := Pick(m, AsList(realSel)).value.mults;
    if forall k :: 0 <= k < |ms| ==> ms[k] == 1 {
      UnpairedSumOfSinglets(ms);
    }
    if |ms| == 1 {
      assert UnpairedSum(ms) == ms[0] - 1 + UnpairedSum([]);
    }
  }

  lemma {:induction false} UnpairedSumOfSinglets(ms: seq<int>)
    requires forall k :: 0 <= k < |ms| ==> ms[k] == 1
    ensures UnpairedSum(ms) == 0
    decreases |ms|
  {
    if |ms| > 0 {
      UnpairedSumOfSinglets(ms[1..]);
    }
  }
}
