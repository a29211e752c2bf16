/** The psi4-style geometry parser (`Molecule._molecule_from_string_psi4`,
    optrotvib/molecule.py).

    The source recognises each line with regular expressions.  Here the
    recognition is done already: a line arrives as a `Psi4Line`, the verdict
    of those expressions, and a coordinate entry is judged by a parameter
    `parse` standing for the `realNumber` prefix match followed by
    `float()`.  What is modelled is what the parser does with the verdicts:
    the first pass (units, charge and multiplicity per fragment, fragment
    markers) and the second pass (atoms, masses, coordinates, fragments).
 */
module Psi4Geometry {

  import opened Results
  import opened Matrices
  import opened Elements
  import opened Molecules

  /** What the atom expression captures from the first field of an atom
      line: a ghost marker (`@X` or `Gh(X)`), the element symbol as the
      upper-cased match yields it, and an optional `@mass` suffix. */
  datatype AtomLabel = AtomLabel(isGhost: bool, symbol: string, mass: Option<real>)

  /** One line of the input, as the source's expressions classify it, in the
      order they are tried. */
  datatype Psi4Line =
    | Skip                                          // comment or blank
    | UnitsBohr                                     // units bohr / au / a.u.
    | UnitsAngstrom                                 // units ang / angstrom
    | NoCom
    | NoReorient
    | ChargeMult(charge: int, multiplicity: nat)    // "<charge> <multiplicity>"
    | FragmentMarker                                // "--"
    | AtomLine(atom: AtomLabel, entries: seq<string>)  // fields split at blanks and commas
    | Unidentifiable(text: string)

  /** A coordinate field: no numeric prefix at all, a numeric prefix that
      `float()` still rejects, or a number. */
  datatype Entry = NotANumber | Malformed | Number(value: real)

  // ---------------------------------------------------------------------
  // Fragment blocks: the reference view of the input

  function Markers(lines: seq<Psi4Line>): nat
    decreases |lines|
  {
    if |lines| == 0 then 0 else (if lines[0].FragmentMarker? then 1 else 0) + Markers(lines[1..])
  }

  /** The lines between consecutive `--` markers. */
  function Blocks(lines: seq<Psi4Line>): (r: seq<seq<Psi4Line>>)
    ensures |r| == Markers(lines) + 1
    decreases |lines|
  {
    if |lines| == 0 then [[]]
    else
      var rest := Blocks(lines[1..]);
      if lines[0].FragmentMarker? then [[]] + rest
      else [[lines[0]] + rest[0]] + rest[1..]
  }

  /** The last charge/multiplicity line of a block, if any. */
  function LastChargeMult(b: seq<Psi4Line>): (r: Option<Psi4Line>)
    ensures r.Some? ==> r.value.ChargeMult?
    decreases |b|
  {
    if |b| == 0 then None
    else
      var rest := LastChargeMult(b[1..]);
      if rest.Some? then rest else if b[0].ChargeMult? then Some(b[0]) else None
  }

  function ChargeMultCount(b: seq<Psi4Line>): nat
    decreases |b|
  {
    if |b| == 0 then 0 else (if b[0].ChargeMult? then 1 else 0) + ChargeMultCount(b[1..])
  }

  /** A block's charge: its charge line's, else the default 0. */
  function BlockCharge(b: seq<Psi4Line>): real {
    var c := LastChargeMult(b);
    if c.Some? then c.value.charge as real else 0.0
  }

  /** A block's multiplicity: its charge line's, else the default 1. */
  function BlockMultiplicity(b: seq<Psi4Line>): int {
    var c := LastChargeMult(b);
    if c.Some? then c.value.multiplicity else 1
  }

  function Charges(bs: seq<seq<Psi4Line>>): (r: seq<real>)
    ensures |r| == |bs| && forall k :: 0 <= k < |bs| ==> r[k] == BlockCharge(bs[k])
  {
    seq(|bs|, k requires 0 <= k < |bs| => BlockCharge(bs[k]))
  }

  function Multiplicities(bs: seq<seq<Psi4Line>>): (r: seq<int>)
    ensures |r| == |bs| && forall k :: 0 <= k < |bs| ==> r[k] == BlockMultiplicity(bs[k])
  {
    seq(|bs|, k requires 0 <= k < |bs| => BlockMultiplicity(bs[k]))
  }

  /** The lines the first pass hands to the second: markers and atoms. */
  function StructuralLines(lines: seq<Psi4Line>): (r: seq<Psi4Line>)
    ensures forall i :: 0 <= i < |r| ==> r[i].FragmentMarker? || r[i].AtomLine?
    ensures Markers(r) == Markers(lines)
    decreases |lines|
  {
    if |lines| == 0 then []
    else
      var rest := StructuralLines(lines[1..]);
      if lines[0].FragmentMarker? || lines[0].AtomLine? then
        assert ([lines[0]] + rest)[1..] == rest;
        [lines[0]] + rest
      else rest
  }

  // ---------------------------------------------------------------------
  // First pass

  /** What the first pass accumulates: the total charge and multiplicity,
      the per-fragment lists, the fragment counter, whether a bohr line was
      seen and the lines kept for the second pass. */
  datatype Header = Header(charge: real, multiplicity: int, fragmentCharges: seq<real>,
                           fragmentMultiplicities: seq<int>, ifrag: nat, bohr: bool, glines: seq<Psi4Line>)

  const Start := Header(0.0, 1, [], [], 0, false, [])

  /** `try: fragment_charges[ifrag] except: append 0.0 and 1`. */
  function CloseDefault(h: Header): (r: Header)
    ensures |h.fragmentCharges| >= h.ifrag ==> |r.fragmentCharges| > h.ifrag
    ensures r == h || (r == h.(fragmentCharges := h.fragmentCharges + [0.0],
                               fragmentMultiplicities := h.fragmentMultiplicities + [1])
                       && |h.fragmentCharges| <= h.ifrag)
  {
    if |h.fragmentCharges| <= h.ifrag
    then h.(fragmentCharges := h.fragmentCharges + [0.0], fragmentMultiplicities := h.fragmentMultiplicities + [1])
    else h
  }

  /** One line of the first pass. */
  function HeaderStep(h: Header, line: Psi4Line): (r: Result<Header>)
    ensures r.Ok? <==> !line.Unidentifiable?
    ensures r.Err? ==> r.error.TypeError?
  {
    match line
    case Skip => Ok(h)
    case UnitsBohr => Ok(h.(bohr := true))
    case UnitsAngstrom => Ok(h)
    // `fix_com` and `fix_orientation` start out true, so these lines set
    // them to the value they already have
    case NoCom => Ok(h)
    case NoReorient => Ok(h)
    case ChargeMult(c, m) =>
      var h1 := if h.ifrag == 0 then h.(charge := c as real, multiplicity := m) else h;
      Ok(h1.(fragmentCharges := h.fragmentCharges + [c as real],
             fragmentMultiplicities := h.fragmentMultiplicities + [m]))
    case FragmentMarker =>
      var h1 := CloseDefault(h);
      Ok(h1.(ifrag := h.ifrag + 1, glines := h.glines + [line]))
    case AtomLine(_, _) => Ok(h.(glines := h.glines + [line]))
    case Unidentifiable(text) => Err(TypeError("Unidentifiable line in geometry specification: " + text))
  }

  /** The first pass from state `h`, stopping at the first unidentifiable
      line. */
  function HeaderPass(h: Header, lines: seq<Psi4Line>): (r: Result<Header>)
    ensures r.Ok? <==> forall i :: 0 <= i < |lines| ==> !lines[i].Unidentifiable?
    ensures r.Err? ==> r.error.TypeError?
    ensures r.Ok? ==> && r.value.glines == h.glines + StructuralLines(lines)
                      && r.value.ifrag == h.ifrag + Markers(lines)
                      && (r.value.bohr <==> h.bohr || exists i :: 0 <= i < |lines| && lines[i].UnitsBohr?)
    decreases |lines|
  {
    if |lines| == 0 then Ok(h)
    else
      var h1 :- HeaderStep(h, lines[0]);
      var r := HeaderPass(h1, lines[1..]);
      assert forall i :: 1 <= i < |lines| ==> lines[i] == lines[1..][i - 1];
      r
  }

  /** The first pass, then the default for the last fragment. */
  function FirstPass(lines: seq<Psi4Line>): (r: Result<Header>)
    ensures r.Ok? <==> forall i :: 0 <= i < |lines| ==> !lines[i].Unidentifiable?
    ensures r.Err? ==> r.error.TypeError?
    ensures r.Ok? ==> && r.value.glines == StructuralLines(lines)
                      && r.value.ifrag == Markers(lines)
                      && (r.value.bohr <==> exists i :: 0 <= i < |lines| && lines[i].UnitsBohr?)
  {
    var h :- HeaderPass(Start, lines);
    Ok(CloseDefault(h))
  }

  /** The per-fragment lists always grow together and never fall behind the
      fragment counter; after the closing default there is one entry for the
      last fragment too. */
  lemma {:induction false} HeaderPassLengths(h: Header, lines: seq<Psi4Line>)
    requires |h.fragmentCharges| == |h.fragmentMultiplicities| >= h.ifrag
    requires HeaderPass(h, lines).Ok?
    ensures var r := HeaderPass(h, lines).value;
            |r.fragmentCharges| == |r.fragmentMultiplicities| >= r.ifrag
    decreases |lines|
  {
    if |lines| > 0 {
      HeaderPassLengths(HeaderStep(h, lines[0]).value, lines[1..]);
    }
  }

  lemma FirstPassLengths(lines: seq<Psi4Line>)
    requires FirstPass(lines).Ok?
    ensures var r := FirstPass(lines).value;
            |r.fragmentCharges| == |r.fragmentMultiplicities| >= Markers(lines) + 1
  {
    HeaderPassLengths(Start, lines);
  }

  predicate AtMostOneChargeMult(bs: seq<seq<Psi4Line>>) {
    forall k :: 0 <= k < |bs| ==> ChargeMultCount(bs[k]) <= 1
  }

  /** The state `HeaderPassCharges` starts from: the lists hold one entry
      per closed fragment, plus `e` (0 or 1) for the current one, which then
      has no charge line left to read. */
  predicate ChargesFrom(h: Header, lines: seq<Psi4Line>, e: nat) {
    && HeaderPass(h, lines).Ok?
    && |h.fragmentCharges| == |h.fragmentMultiplicities| == h.ifrag + e && e <= 1
    && AtMostOneChargeMult(Blocks(lines))
    && (e == 1 ==> ChargeMultCount(Blocks(lines)[0]) == 0)
  }

  /** After the pass and the closing default, the lists are extended by the
      reference values of the blocks still to be read. */
  predicate ChargesReached(h: Header, lines: seq<Psi4Line>, e: nat)
    requires HeaderPass(h, lines).Ok? && e <= 1
  {
    var r := CloseDefault(HeaderPass(h, lines).value);
    && r.fragmentCharges == h.fragmentCharges + Charges(Blocks(lines))[e..]
    && r.fragmentMultiplicities == h.fragmentMultiplicities + Multiplicities(Blocks(lines))[e..]
  }

  /** The fragment lists, one block at a time: with at most one charge line
      per fragment, fragment k gets its own charge line's values or the
      defaults 0.0 and 1.  `e` is 1 when the current fragment already has
      its entry. */
  lemma {:induction false} HeaderPassCharges(h: Header, lines: seq<Psi4Line>, e: nat)
    requires ChargesFrom(h, lines, e)
    ensures ChargesReached(h, lines, e)
    decreases |lines|, 1
  {
    if |lines| == 0 {
      assert Blocks(lines) == [[]];
    } else if lines[0].FragmentMarker? {
      HeaderPassChargesMarker(h, lines, e);
    } else if lines[0].ChargeMult? {
      HeaderPassChargesChargeMult(h, lines, e);
    } else {
      HeaderPassChargesOther(h, lines, e);
    }
  }

  lemma {:induction false} HeaderPassChargesMarker(h: Header, lines: seq<Psi4Line>, e: nat)
    requires |lines| > 0 && lines[0].FragmentMarker?
    requires ChargesFrom(h, lines, e)
    ensures ChargesReached(h, lines, e)
    decreases |lines|, 0
  {
    var rest := lines[1..];
    var rs := Blocks(rest);
    var h1 := CloseDefault(h).(ifrag := h.ifrag + 1, glines := h.glines + [lines[0]]);
    assert HeaderPass(h, lines) == HeaderPass(h1, rest);
    BlocksAfterMarker(rs);
    HeaderPassCharges(h1, rest, 0);
    DropOpened(h.fragmentCharges, 0.0, Charges(rs), e, h1.fragmentCharges);
    DropOpened(h.fragmentMultiplicities, 1, Multiplicities(rs), e, h1.fragmentMultiplicities);
  }

  /** The entry a marker appends for the fragment it closes is the one the
      reference lists start with, unless the fragment had its own. */
  lemma DropOpened<T>(a: seq<T>, x: T, ys: seq<T>, e: nat, a1: seq<T>)
    requires e <= 1
    requires a1 == if e == 0 then a + [x] else a
    ensures a1 + ys == a + ([x] + ys)[e..]
  {
  }

  lemma {:induction false} HeaderPassChargesChargeMult(h: Header, lines: seq<Psi4Line>, e: nat)
    requires |lines| > 0 && lines[0].ChargeMult?
    requires ChargesFrom(h, lines, e)
    ensures ChargesReached(h, lines, e)
    decreases |lines|, 0
  {
    var l := lines[0];
    var rest := lines[1..];
    var rs := Blocks(rest);
    var h1 := HeaderStep(h, l).value;
    assert HeaderPass(h, lines) == HeaderPass(h1, rest);
    var bs := Blocks(lines);
    assert bs == [[l] + rs[0]] + rs[1..];
    BlocksAfterChargeMult(l, rs);
    assert e == 0;
    HeaderPassCharges(h1, rest, 1);
    AppendOpened(h.fragmentCharges, l.charge as real, Charges(rs)[1..], Charges(bs));
    AppendOpened(h.fragmentMultiplicities, l.multiplicity, Multiplicities(rs)[1..], Multiplicities(bs));
  }

  /** The entry a charge line appends is the head of the reference list. */
  lemma AppendOpened<T>(a: seq<T>, x: T, ys: seq<T>, zs: seq<T>)
    requires zs == [x] + ys
    ensures a + [x] + ys == a + zs[0..]
  {
  }

  lemma {:induction false} HeaderPassChargesOther(h: Header, lines: seq<Psi4Line>, e: nat)
    requires |lines| > 0 && !lines[0].FragmentMarker? && !lines[0].ChargeMult?
    requires ChargesFrom(h, lines, e)
    ensures ChargesReached(h, lines, e)
    decreases |lines|, 0
  {
    var l := lines[0];
    var rest := lines[1..];
    var rs := Blocks(rest);
    var h1 := HeaderStep(h, l).value;
    assert HeaderPass(h, lines) == HeaderPass(h1, rest);
    assert h1.fragmentCharges == h.fragmentCharges && h1.fragmentMultiplicities == h.fragmentMultiplicities;
    assert h1.ifrag == h.ifrag;
    BlocksAfterOther(l, rs);
    HeaderPassCharges(h1, rest, e);
  }

  /** A marker starts a new, empty block. */
  lemma BlocksAfterMarker(rs: seq<seq<Psi4Line>>)
    ensures var bs := [[]] + rs;
            && Charges(bs) == [0.0] + Charges(rs)
            && Multiplicities(bs) == [1] + Multiplicities(rs)
            && (AtMostOneChargeMult(bs) ==> AtMostOneChargeMult(rs))
  {
    var bs := [[]] + rs;
    var cs, ms := Charges(bs), Multiplicities(bs);
    assert LastChargeMult([]) == None;
    forall k | 0 <= k < |bs| ensures cs[k] == ([0.0] + Charges(rs))[k] && ms[k] == ([1] + Multiplicities(rs))[k] {
      if k > 0 {
        assert bs[k] == rs[k - 1];
      }
    }
    if AtMostOneChargeMult(bs) {
      forall k | 0 <= k < |rs| ensures ChargeMultCount(rs[k]) <= 1 {
        assert rs[k] == bs[k + 1];
      }
    }
  }

  /** A charge line opening a block that has no other one decides its
      values. */
  lemma BlocksAfterChargeMult(l: Psi4Line, rs: seq<seq<Psi4Line>>)
    requires l.ChargeMult? && |rs| > 0
    ensures var bs := [[l] + rs[0]] + rs[1..];
            && ChargeMultCount(bs[0]) == 1 + ChargeMultCount(rs[0])
            && (AtMostOneChargeMult(bs) ==>
                  && AtMostOneChargeMult(rs)
                  && ChargeMultCount(rs[0]) == 0
                  && Charges(bs) == [l.charge as real] + Charges(rs)[1..]
                  && Multiplicities(bs) == [l.multiplicity] + Multiplicities(rs)[1..])
  {
    var bs := [[l] + rs[0]] + rs[1..];
    assert bs[0][1..] == rs[0];
    assert forall k :: 1 <= k < |rs| ==> rs[k] == bs[k];
    if AtMostOneChargeMult(bs) {
      NoChargeMult(rs[0]);
      assert LastChargeMult(bs[0]) == Some(l);
    }
  }

  /** Any other line leaves its block's values alone. */
  lemma BlocksAfterOther(l: Psi4Line, rs: seq<seq<Psi4Line>>)
    requires !l.ChargeMult? && |rs| > 0
    ensures var bs := [[l] + rs[0]] + rs[1..];
            && ChargeMultCount(bs[0]) == ChargeMultCount(rs[0])
            && (AtMostOneChargeMult(bs) ==> AtMostOneChargeMult(rs))
            && Charges(bs) == Charges(rs)
            && Multiplicities(bs) == Multiplicities(rs)
  {
    var bs := [[l] + rs[0]] + rs[1..];
    assert bs[0][1..] == rs[0];
    assert forall k :: 1 <= k < |rs| ==> rs[k] == bs[k];
  }

  lemma {:induction false} NoChargeMult(b: seq<Psi4Line>)
    requires ChargeMultCount(b) == 0
    ensures LastChargeMult(b) == None
    decreases |b|
  {
    if |b| > 0 {
      NoChargeMult(b[1..]);
    }
  }

  /** With at most one charge/multiplicity line per fragment, fragment k's
      charge and multiplicity are its line's values, or 0.0 and 1 when it
      has none. */
  lemma FirstPassCharges(lines: seq<Psi4Line>)
    requires FirstPass(lines).Ok?
    requires AtMostOneChargeMult(Blocks(lines))
    ensures FirstPass(lines).value.fragmentCharges == Charges(Blocks(lines))
    ensures FirstPass(lines).value.fragmentMultiplicities == Multiplicities(Blocks(lines))
  {
    HeaderPassCharges(Start, lines, 0);
  }

  /** The total charge and multiplicity come from the last charge line of
      the first fragment, and keep their defaults without one. */
  lemma {:induction false} HeaderPassTotal(h: Header, lines: seq<Psi4Line>)
    requires HeaderPass(h, lines).Ok?
    ensures var r := HeaderPass(h, lines).value;
            var c := LastChargeMult(Blocks(lines)[0]);
            && (h.ifrag == 0 && c.Some? ==> r.charge == c.value.charge as real && r.multiplicity == c.value.multiplicity)
            && (h.ifrag > 0 || c.None? ==> r.charge == h.charge && r.multiplicity == h.multiplicity)
    decreases |lines|
  {
    if |lines| > 0 {
      var l := lines[0];
      var rest := lines[1..];
      var rs := Blocks(rest);
      var h1 := HeaderStep(h, l).value;
      HeaderPassTotal(h1, rest);
      if l.FragmentMarker? {
        assert Blocks(lines)[0] == [];
        HeaderPassAfterMarker(h1, rest);
      } else {
        assert Blocks(lines)[0] == [l] + rs[0];
        assert ([l] + rs[0])[1..] == rs[0];
      }
    }
  }

  /** Past the first marker the totals are never touched again. */
  lemma {:induction false} HeaderPassAfterMarker(h: Header, lines: seq<Psi4Line>)
    requires h.ifrag > 0 && HeaderPass(h, lines).Ok?
    ensures HeaderPass(h, lines).value.charge == h.charge
    ensures HeaderPass(h, lines).value.multiplicity == h.multiplicity
    decreases |lines|
  {
    if |lines| > 0 {
      HeaderPassAfterMarker(HeaderStep(h, lines[0]).value, lines[1..]);
    }
  }

  lemma FirstPassTotal(lines: seq<Psi4Line>)
    requires FirstPass(lines).Ok?
    ensures FirstPass(lines).value.charge == BlockCharge(Blocks(lines)[0])
    ensures FirstPass(lines).value.multiplicity == BlockMultiplicity(Blocks(lines)[0])
  {
    HeaderPassTotal(Start, lines);
  }

  // ---------------------------------------------------------------------
  // Second pass

  /** What the second pass accumulates: the atom counter, the atoms of the
      fragment being read, the finished fragments and their real flags, and
      one symbol, mass and coordinate row per atom. */
  datatype Atoms = Atoms(iatom: nat, tempfrag: seq<int>, fragments: seq<seq<int>>, isReal: seq<bool>,
                         symbols: seq<string>, masses: seq<real>, custom: bool, coords: Matrix)

  const NoAtoms := Atoms(0, [], [], [], [], [], false, [])

  /** A coordinate field: TypeError without a numeric prefix, ValueError
      when `float()` rejects it. */
  function Coordinate(e: Entry): (r: Result<real>)
    ensures r.Ok? <==> e.Number?
    ensures r.Ok? ==> r.value == e.value
    ensures e.NotANumber? ==> r.Err? && r.error.TypeError?
    ensures e.Malformed? ==> r.Err? && r.error.ValueError?
  {
    match e
    case NotANumber => Err(TypeError("Unidentifiable entry"))
    case Malformed => Err(ValueError("could not convert string to float"))
    case Number(v) => Ok(v)
  }

  /** The table mass, or the `@mass` suffix when there is one. */
  function AtomMass(atom: AtomLabel, t: Table): real
    requires atom.symbol in t.bySymbol
  {
    if atom.mass.Some? then atom.mass.value else t.bySymbol[atom.symbol].mass
  }

  /** One line of the second pass.  A marker closes the current fragment,
      which must hold an atom (`tempfrag[0]` is an IndexError otherwise); an
      atom line needs a known symbol and exactly four fields whose last three
      are numbers. */
  function AtomStep(s: Atoms, line: Psi4Line, t: Table, parse: string -> Entry): (r: Result<Atoms>)
  {
    match line
    case FragmentMarker =>
      if |s.tempfrag| == 0 then Err(IndexError("list index out of range"))
      else
        var f := Range(s.tempfrag[0], s.tempfrag[|s.tempfrag| - 1] + 1);
        Ok(s.(tempfrag := [], fragments := s.fragments + [f], isReal := s.isReal + seq(|f|, _ => true)))
    case AtomLine(atom, entries) =>
      if atom.symbol !in t.bySymbol then Err(TypeError("Illegal atom symbol in geometry specification: " + atom.symbol))
      else if |entries| != 4 then Err(TypeError("Illegal geometry specification line"))
      else
        var x :- Coordinate(parse(entries[1]));
        var y :- Coordinate(parse(entries[2]));
        var z :- Coordinate(parse(entries[3]));
        Ok(Atoms(s.iatom + 1, s.tempfrag + [s.iatom as int], s.fragments, s.isReal,
                 s.symbols + [atom.symbol], s.masses + [AtomMass(atom, t)],
                 s.custom || atom.mass.Some?, s.coords + [[x, y, z]]))
    case _ =>
      // the first pass hands on nothing but markers and atoms
      Ok(s)
  }

  lemma Assoc<T>(a: seq<T>, b: seq<T>, c: seq<T>)
    ensures (a + b) + c == a + (b + c)
  {
  }

  function AtomPass(s: Atoms, gl: seq<Psi4Line>, t: Table, parse: string -> Entry): (r: Result<Atoms>)
    decreases |gl|
  {
    if |gl| == 0 then Ok(s)
    else
      var s1 :- AtomStep(s, gl[0], t, parse);
      AtomPass(s1, gl[1..], t, parse)
  }

  /** The second pass's invariant: the finished fragments are consecutive,
      non-empty and cover `[0, F)`, the current fragment is `[F, iatom)`,
      every finished atom is flagged real, and there is one symbol, mass and
      coordinate row per atom. */
  predicate Laid(s: Atoms) {
    var done := |Flatten(s.fragments)|;
    && |s.symbols| == s.iatom && |s.masses| == s.iatom && Rect(s.coords, s.iatom, 3)
    && done <= s.iatom
    && Flatten(s.fragments) == Range(0, done)
    && s.tempfrag == Range(done, s.iatom)
    && (forall k :: 0 <= k < |s.fragments| ==> |s.fragments[k]| > 0)
    && s.isReal == seq(done, _ => true)
  }

  lemma AtomStepLaid(s: Atoms, line: Psi4Line, t: Table, parse: string -> Entry)
    requires Laid(s) && AtomStep(s, line, t, parse).Ok?
    ensures Laid(AtomStep(s, line, t, parse).value)
    ensures AtomStep(s, line, t, parse).value.fragments
            == s.fragments + (if line.FragmentMarker? then [Range(|Flatten(s.fragments)|, s.iatom)] else [])
  {
    var done := |Flatten(s.fragments)|;
    if line.FragmentMarker? {
      var f := Range(done, s.iatom);
      assert s.tempfrag[0] == done && s.tempfrag[|s.tempfrag| - 1] + 1 == s.iatom;
      FlattenAppend(s.fragments, [f]);
      assert Flatten([f]) == f + Flatten([]);
      RangeAppend(0, done, s.iatom);
      assert s.isReal + seq(|f|, _ => true) == seq(s.iatom, _ => true);
    } else if line.AtomLine? {
      assert s.tempfrag + [s.iatom as int] == Range(done, s.iatom + 1);
    }
  }

  /** The layout of the second pass: every marker adds one fragment and the
      invariant holds throughout. */
  lemma {:induction false} AtomPassLaid(s: Atoms, gl: seq<Psi4Line>, t: Table, parse: string -> Entry)
    requires Laid(s) && AtomPass(s, gl, t, parse).Ok?
    ensures Laid(AtomPass(s, gl, t, parse).value)
    ensures |AtomPass(s, gl, t, parse).value.fragments| == |s.fragments| + Markers(gl)
    decreases |gl|
  {
    if |gl| > 0 {
      AtomStepLaid(s, gl[0], t, parse);
      AtomPassLaid(AtomStep(s, gl[0], t, parse).value, gl[1..], t, parse);
    }
  }

  // ---------------------------------------------------------------------
  // Reference views of the atom lines

  /** An atom line the second pass accepts (other lines pass trivially). */
  predicate GoodAtom(l: Psi4Line, t: Table, parse: string -> Entry) {
    l.AtomLine? ==>
      && l.atom.symbol in t.bySymbol && |l.entries| == 4
      && parse(l.entries[1]).Number? && parse(l.entries[2]).Number? && parse(l.entries[3]).Number?
  }

  /** An atom line the second pass rejects with a TypeError: unknown symbol,
      wrong field count, or a field with no numeric prefix. */
  predicate TypeErrorAtom(l: Psi4Line, t: Table, parse: string -> Entry) {
    && l.AtomLine?
    && (|| l.atom.symbol !in t.bySymbol || |l.entries| != 4
        || parse(l.entries[1]).NotANumber? || parse(l.entries[2]).NotANumber? || parse(l.entries[3]).NotANumber?)
  }

  /** An atom line with a field that has a numeric prefix `float()` rejects. */
  predicate MalformedAtom(l: Psi4Line, parse: string -> Entry) {
    && l.AtomLine? && |l.entries| == 4
    && (parse(l.entries[1]).Malformed? || parse(l.entries[2]).Malformed? || parse(l.entries[3]).Malformed?)
  }

  function AllGood(lines: seq<Psi4Line>, t: Table, parse: string -> Entry): bool
    decreases |lines|
  {
    |lines| == 0 || (GoodAtom(lines[0], t, parse) && AllGood(lines[1..], t, parse))
  }

  function SomeTypeErrorAtom(lines: seq<Psi4Line>, t: Table, parse: string -> Entry): bool
    decreases |lines|
  {
    |lines| > 0 && (TypeErrorAtom(lines[0], t, parse) || SomeTypeErrorAtom(lines[1..], t, parse))
  }

  function SomeMalformedAtom(lines: seq<Psi4Line>, parse: string -> Entry): bool
    decreases |lines|
  {
    |lines| > 0 && (MalformedAtom(lines[0], parse) || SomeMalformedAtom(lines[1..], parse))
  }

  /** Whether some atom line carries an `@mass` suffix. */
  function SomeMass(lines: seq<Psi4Line>): bool
    decreases |lines|
  {
    |lines| > 0 && ((lines[0].AtomLine? && lines[0].atom.mass.Some?) || SomeMass(lines[1..]))
  }

  /** The symbols of the atom lines, in order. */
  function SymbolsIn(lines: seq<Psi4Line>): seq<string>
    decreases |lines|
  {
    if |lines| == 0 then []
    else (if lines[0].AtomLine? then [lines[0].atom.symbol] else []) + SymbolsIn(lines[1..])
  }

  /** The mass of each atom line, in order. */
  function MassesIn(lines: seq<Psi4Line>, t: Table, parse: string -> Entry): seq<real>
    requires AllGood(lines, t, parse)
    decreases |lines|
  {
    if |lines| == 0 then []
    else (if lines[0].AtomLine? then [AtomMass(lines[0].atom, t)] else []) + MassesIn(lines[1..], t, parse)
  }

  /** The coordinate row of each atom line, in order, as written. */
  function CoordsIn(lines: seq<Psi4Line>, t: Table, parse: string -> Entry): seq<seq<real>>
    requires AllGood(lines, t, parse)
    decreases |lines|
  {
    if |lines| == 0 then []
    else
      var l := lines[0];
      (if l.AtomLine?
       then [[parse(l.entries[1]).value, parse(l.entries[2]).value, parse(l.entries[3]).value]]
       else [])
      + CoordsIn(lines[1..], t, parse)
  }

  function HasAtom(b: seq<Psi4Line>): bool
    decreases |b|
  {
    |b| > 0 && (b[0].AtomLine? || HasAtom(b[1..]))
  }

  /** Every marker closes a fragment holding an atom: `pending` says whether
      the fragment being read already has one. */
  function MarkersFilled(pending: bool, lines: seq<Psi4Line>): bool
    decreases |lines|
  {
    if |lines| == 0 then true
    else if lines[0].FragmentMarker? then pending && MarkersFilled(false, lines[1..])
    else MarkersFilled(pending || lines[0].AtomLine?, lines[1..])
  }

  /** Whether the fragment open at the end holds an atom. */
  function EndFilled(pending: bool, lines: seq<Psi4Line>): bool
    decreases |lines|
  {
    if |lines| == 0 then pending
    else if lines[0].FragmentMarker? then EndFilled(false, lines[1..])
    else EndFilled(pending || lines[0].AtomLine?, lines[1..])
  }

  /** The number of atom lines in a block. */
  function AtomCount(b: seq<Psi4Line>): nat
    decreases |b|
  {
    if |b| == 0 then 0 else (if b[0].AtomLine? then 1 else 0) + AtomCount(b[1..])
  }

  function BlockSizes(bs: seq<seq<Psi4Line>>): (r: seq<nat>)
    ensures |r| == |bs| && forall k :: 0 <= k < |bs| ==> r[k] == AtomCount(bs[k])
  {
    seq(|bs|, k requires 0 <= k < |bs| => AtomCount(bs[k]))
  }

  /** The sizes of the fragments the markers close, line by line: `pending`
      atoms are already in the open fragment. */
  function ClosedCounts(pending: nat, lines: seq<Psi4Line>): seq<nat>
    decreases |lines|
  {
    if |lines| == 0 then []
    else if lines[0].FragmentMarker? then [pending] + ClosedCounts(0, lines[1..])
    else ClosedCounts(pending + (if lines[0].AtomLine? then 1 else 0), lines[1..])
  }

  /** The size of the fragment left open at the end. */
  function OpenCount(pending: nat, lines: seq<Psi4Line>): nat
    decreases |lines|
  {
    if |lines| == 0 then pending
    else if lines[0].FragmentMarker? then OpenCount(0, lines[1..])
    else OpenCount(pending + (if lines[0].AtomLine? then 1 else 0), lines[1..])
  }

  /** Counting line by line gives the atoms of each block. */
  lemma {:induction false} CountsOfBlocks(pending: nat, lines: seq<Psi4Line>)
    ensures var sizes := BlockSizes(Blocks(lines));
            ClosedCounts(pending, lines) + [OpenCount(pending, lines)] == [pending + sizes[0]] + sizes[1..]
    decreases |lines|
  {
    if |lines| > 0 {
      var l := lines[0];
      var rs := Blocks(lines[1..]);
      if l.FragmentMarker? {
        CountsOfBlocks(0, lines[1..]);
        BlockSizesAfterMarker(rs);
        var sr := BlockSizes(rs);
        assert Blocks(lines) == [[]] + rs;
        assert [0 + sr[0]] + sr[1..] == sr;
        assert ClosedCounts(pending, lines) == [pending] + ClosedCounts(0, lines[1..]);
        assert OpenCount(pending, lines) == OpenCount(0, lines[1..]);
      } else {
        CountsOfBlocks(pending + (if l.AtomLine? then 1 else 0), lines[1..]);
        BlockSizesAfterOther(l, rs);
      }
    }
  }

  lemma BlockSizesAfterMarker(rs: seq<seq<Psi4Line>>)
    ensures BlockSizes([[]] + rs) == [0] + BlockSizes(rs)
  {
    var bs: seq<seq<Psi4Line>> := [[]] + rs;
    var a, b := BlockSizes(bs), [0] + BlockSizes(rs);
    assert a[0] == AtomCount([]) == 0;
    forall k | 1 <= k < |a|
      ensures a[k] == b[k]
    {
      assert bs[k] == rs[k - 1];
    }
  }

  lemma BlockSizesAfterOther(l: Psi4Line, rs: seq<seq<Psi4Line>>)
    requires |rs| > 0
    ensures var sizes := BlockSizes([[l] + rs[0]] + rs[1..]);
            && sizes[0] == (if l.AtomLine? then 1 else 0) + AtomCount(rs[0])
            && sizes[1..] == BlockSizes(rs)[1..]
  {
    var bs := [[l] + rs[0]] + rs[1..];
    assert bs[0][1..] == rs[0];
    assert forall k :: 1 <= k < |rs| ==> rs[k] == bs[k];
  }

  /** The line-by-line emptiness checks amount to: every fragment block
      holds an atom (the first one may already have one, `pending`). */
  lemma {:induction false} FilledBlocks(pending: bool, lines: seq<Psi4Line>)
    ensures var bs := Blocks(lines);
            MarkersFilled(pending, lines) && EndFilled(pending, lines)
            <==> (pending || HasAtom(bs[0])) && forall k :: 1 <= k < |bs| ==> HasAtom(bs[k])
    decreases |lines|
  {
    if |lines| > 0 {
      var l := lines[0];
      var rs := Blocks(lines[1..]);
      var bs := Blocks(lines);
      if l.FragmentMarker? {
        FilledBlocks(false, lines[1..]);
        assert bs == [[]] + rs;
        assert !HasAtom(bs[0]);
        assert (forall k :: 1 <= k < |bs| ==> HasAtom(bs[k]))
               <==> (forall k :: 0 <= k < |rs| ==> HasAtom(rs[k])) by {
          assert forall k :: 1 <= k < |bs| ==> bs[k] == rs[k - 1];
          assert forall k :: 0 <= k < |rs| ==> rs[k] == bs[k + 1];
        }
      } else {
        FilledBlocks(pending || l.AtomLine?, lines[1..]);
        assert bs == [[l] + rs[0]] + rs[1..];
        assert bs[0][1..] == rs[0];
        assert forall k :: 1 <= k < |bs| ==> bs[k] == rs[k];
      }
    }
  }

  /** Dropping the lines the second pass ignores changes none of the views
      of the atom lines. */
  lemma {:induction false} StructuralViews(lines: seq<Psi4Line>, t: Table, parse: string -> Entry, pending: bool)
    ensures var gl := StructuralLines(lines);
            && (AllGood(gl, t, parse) <==> AllGood(lines, t, parse))
            && (SomeTypeErrorAtom(gl, t, parse) <==> SomeTypeErrorAtom(lines, t, parse))
            && (SomeMalformedAtom(gl, parse) <==> SomeMalformedAtom(lines, parse))
            && (SomeMass(gl) <==> SomeMass(lines))
            && SymbolsIn(gl) == SymbolsIn(lines)
            && (AllGood(lines, t, parse) ==> MassesIn(gl, t, parse) == MassesIn(lines, t, parse)
                                             && CoordsIn(gl, t, parse) == CoordsIn(lines, t, parse))
            && (MarkersFilled(pending, gl) <==> MarkersFilled(pending, lines))
            && (EndFilled(pending, gl) <==> EndFilled(pending, lines))
    decreases |lines|
  {
    if |lines| > 0 {
      var l := lines[0];
      var rest := StructuralLines(lines[1..]);
      if l.FragmentMarker? {
        StructuralViews(lines[1..], t, parse, false);
      } else {
        StructuralViews(lines[1..], t, parse, pending || l.AtomLine?);
      }
      StructuralViews(lines[1..], t, parse, pending);
      if l.FragmentMarker? || l.AtomLine? {
        assert StructuralLines(lines) == [l] + rest;
        assert ([l] + rest)[1..] == rest;
      }
    }
  }

  lemma {:induction false} StructuralCounts(lines: seq<Psi4Line>, pending: nat)
    ensures ClosedCounts(pending, StructuralLines(lines)) == ClosedCounts(pending, lines)
    ensures OpenCount(pending, StructuralLines(lines)) == OpenCount(pending, lines)
    decreases |lines|
  {
    if |lines| > 0 {
      var l := lines[0];
      var rest := StructuralLines(lines[1..]);
      StructuralCounts(lines[1..], if l.FragmentMarker? then 0 else pending + (if l.AtomLine? then 1 else 0));
      if l.FragmentMarker? || l.AtomLine? {
        assert StructuralLines(lines) == [l] + rest;
        assert ([l] + rest)[1..] == rest;
      }
    }
  }

  /** The atom lines, in order. */
  function AtomLinesIn(lines: seq<Psi4Line>): (r: seq<Psi4Line>)
    ensures forall i :: 0 <= i < |r| ==> r[i].AtomLine?
    decreases |lines|
  {
    if |lines| == 0 then [] else (if lines[0].AtomLine? then [lines[0]] else []) + AtomLinesIn(lines[1..])
  }

  lemma {:induction false} AtomLinesInAppend(a: seq<Psi4Line>, b: seq<Psi4Line>)
    ensures AtomLinesIn(a + b) == AtomLinesIn(a) + AtomLinesIn(b)
    decreases |a|
  {
    if |a| == 0 {
      assert a + b == b;
    } else {
      assert (a + b)[1..] == a[1..] + b;
      AtomLinesInAppend(a[1..], b);
    }
  }

  /** The labels are read off the atom lines one by one. */
  lemma {:induction false} LabelsView(lines: seq<Psi4Line>)
    ensures var a := AtomLinesIn(lines);
            LabelsIn(lines) == seq(|a|, i requires 0 <= i < |a| => a[i].atom)
    decreases |lines|
  {
    if |lines| > 0 {
      LabelsView(lines[1..]);
      var a, rest := AtomLinesIn(lines), AtomLinesIn(lines[1..]);
      if lines[0].AtomLine? {
        assert a == [lines[0]] + rest;
        assert forall i :: 1 <= i < |a| ==> a[i] == rest[i - 1];
      }
    }
  }

  /** All lines are good exactly when every atom line is. */
  lemma {:induction false} GoodView(lines: seq<Psi4Line>, t: Table, parse: string -> Entry)
    ensures var a := AtomLinesIn(lines);
            AllGood(lines, t, parse) ==> forall i :: 0 <= i < |a| ==> GoodAtom(a[i], t, parse)
    ensures var a := AtomLinesIn(lines);
            (forall i :: 0 <= i < |a| ==> GoodAtom(a[i], t, parse)) ==> AllGood(lines, t, parse)
    decreases |lines|
  {
    if |lines| > 0 {
      GoodView(lines[1..], t, parse);
      var a, rest := AtomLinesIn(lines), AtomLinesIn(lines[1..]);
      if lines[0].AtomLine? {
        assert a == [lines[0]] + rest;
        assert forall i :: 1 <= i < |a| ==> a[i] == rest[i - 1];
        assert AllGood(lines, t, parse) == (GoodAtom(lines[0], t, parse) && AllGood(lines[1..], t, parse));
        if AllGood(lines, t, parse) {
          forall i | 0 <= i < |a| ensures GoodAtom(a[i], t, parse) {
            if i == 0 {
              assert a[0] == lines[0];
              assert GoodAtom(lines[0], t, parse);
            } else {
              assert a[i] == rest[i - 1];
              assert AllGood(lines[1..], t, parse);
              assert GoodAtom(rest[i - 1], t, parse);
            }
          }
        }
        if forall i :: 0 <= i < |a| ==> GoodAtom(a[i], t, parse) {
          assert GoodAtom(a[0], t, parse);
          forall i | 0 <= i < |rest| ensures GoodAtom(rest[i], t, parse) {
            assert rest[i] == a[i + 1];
          }
        }
      } else {
        assert a == rest;
        assert GoodAtom(lines[0], t, parse);
      }
    }
  }

  /** Some line has a mass suffix exactly when some atom line does. */
  lemma {:induction false} MassView(lines: seq<Psi4Line>)
    ensures var a := AtomLinesIn(lines);
            SomeMass(lines) <==> AnyMassSuffix(a)
    decreases |lines|
  {
    if |lines| > 0 {
      MassView(lines[1..]);
      var a, rest := AtomLinesIn(lines), AtomLinesIn(lines[1..]);
      if lines[0].AtomLine? {
        assert a == [lines[0]] + rest;
        assert SomeMass(lines) <==> lines[0].atom.mass.Some? || SomeMass(lines[1..]);
        SomeMassCons(a, lines[0], rest);
      } else {
        assert a == rest;
        assert SomeMass(lines) <==> SomeMass(lines[1..]);
      }
    }
  }

  /** Some atom line of `a` carries an `@mass` suffix. */
  predicate AnyMassSuffix(a: seq<Psi4Line>)
    requires forall i :: 0 <= i < |a| ==> a[i].AtomLine?
  {
    exists i :: 0 <= i < |a| && a[i].atom.mass.Some?
  }

  lemma SomeMassCons(a: seq<Psi4Line>, x: Psi4Line, rest: seq<Psi4Line>)
    requires a == [x] + rest
    requires x.AtomLine? && forall i :: 0 <= i < |rest| ==> rest[i].AtomLine?
    ensures AnyMassSuffix(a) <==> x.atom.mass.Some? || AnyMassSuffix(rest)
  {
    if exists i :: 0 <= i < |a| && a[i].atom.mass.Some? {
      var i :| 0 <= i < |a| && a[i].atom.mass.Some?;
      if i > 0 {
        assert rest[i - 1] == a[i];
      }
    }
    if exists i :: 0 <= i < |rest| && rest[i].atom.mass.Some? {
      var i :| 0 <= i < |rest| && rest[i].atom.mass.Some?;
      assert a[i + 1] == rest[i];
    }
    assert a[0] == x;
  }

  /** The coordinate rows of good lines, one per atom line. */
  function RowOf(l: Psi4Line, t: Table, parse: string -> Entry): seq<real>
    requires l.AtomLine? && GoodAtom(l, t, parse)
  {
    [parse(l.entries[1]).value, parse(l.entries[2]).value, parse(l.entries[3]).value]
  }

  lemma {:induction false} CoordsView(lines: seq<Psi4Line>, t: Table, parse: string -> Entry)
    requires AllGood(lines, t, parse)
    ensures var a := AtomLinesIn(lines);
            && (forall i :: 0 <= i < |a| ==> GoodAtom(a[i], t, parse))
            && CoordsIn(lines, t, parse) == seq(|a|, i requires 0 <= i < |a| && GoodAtom(a[i], t, parse) => RowOf(a[i], t, parse))
    decreases |lines|
  {
    GoodView(lines, t, parse);
    if |lines| > 0 {
      CoordsView(lines[1..], t, parse);
      var a, rest := AtomLinesIn(lines), AtomLinesIn(lines[1..]);
      if lines[0].AtomLine? {
        assert a == [lines[0]] + rest;
        assert forall i :: 1 <= i < |a| ==> a[i] == rest[i - 1];
      }
    }
  }

  // ---------------------------------------------------------------------
  // What the second pass computes

  /** The second pass's verdicts: it fails only for a bad atom line
      (TypeError or ValueError) or an empty fragment (IndexError), and with
      good atom lines it fails exactly when a marker closes an empty
      fragment. */
  lemma {:induction false} AtomPassErrors(s: Atoms, gl: seq<Psi4Line>, t: Table, parse: string -> Entry)
    ensures var r := AtomPass(s, gl, t, parse);
            && (r.Ok? ==> AllGood(gl, t, parse))
            && (r.Err? && r.error.TypeError? ==> SomeTypeErrorAtom(gl, t, parse))
            && (r.Err? && r.error.ValueError? ==> SomeMalformedAtom(gl, parse))
            && (r.Err? ==> r.error.TypeError? || r.error.ValueError? || r.error.IndexError?)
    decreases |gl|
  {
    if |gl| > 0 {
      var step := AtomStep(s, gl[0], t, parse);
      if step.Ok? {
        AtomPassErrors(step.value, gl[1..], t, parse);
      }
    }
  }

  /** When every atom line is good, the second pass fails exactly when a
      marker closes an empty fragment, and leaves a non-empty fragment open
      exactly when the last one has an atom. */
  lemma {:induction false} AtomPassFilled(s: Atoms, gl: seq<Psi4Line>, t: Table, parse: string -> Entry)
    requires AllGood(gl, t, parse)
    ensures var r := AtomPass(s, gl, t, parse);
            && (r.Ok? <==> MarkersFilled(|s.tempfrag| > 0, gl))
            && (r.Ok? ==> (|r.value.tempfrag| > 0 <==> EndFilled(|s.tempfrag| > 0, gl)))
    decreases |gl|
  {
    if |gl| > 0 {
      var step := AtomStep(s, gl[0], t, parse);
      if step.Ok? {
        AtomStepOpen(s, gl[0], t, parse);
        AtomPassFilled(step.value, gl[1..], t, parse);
      }
    }
  }

  /** The atoms of a successful second pass, in order: the symbols, the
      masses (the `@mass` suffix or the table mass), whether any suffix was
      seen, and the coordinate rows as written. */
  lemma {:induction false} AtomPassAtoms(s: Atoms, gl: seq<Psi4Line>, t: Table, parse: string -> Entry)
    requires AtomPass(s, gl, t, parse).Ok?
    ensures AllGood(gl, t, parse)
    ensures var r := AtomPass(s, gl, t, parse).value;
            && r.symbols == s.symbols + SymbolsIn(gl)
            && r.masses == s.masses + MassesIn(gl, t, parse)
            && r.coords == s.coords + CoordsIn(gl, t, parse)
            && (r.custom <==> s.custom || SomeMass(gl))
    decreases |gl|
  {
    if |gl| > 0 {
      var l, rest := gl[0], gl[1..];
      var s1 := AtomStep(s, l, t, parse).value;
      assert AtomPass(s, gl, t, parse) == AtomPass(s1, rest, t, parse);
      AtomPassAtoms(s1, rest, t, parse);
      assert GoodAtom(l, t, parse);
      var sy := if l.AtomLine? then [l.atom.symbol] else [];
      var ma := if l.AtomLine? then [AtomMass(l.atom, t)] else [];
      var co := if l.AtomLine? then [[parse(l.entries[1]).value, parse(l.entries[2]).value, parse(l.entries[3]).value]] else [];
      assert s1.symbols == s.symbols + sy && s1.masses == s.masses + ma && s1.coords == s.coords + co;
      assert SymbolsIn(gl) == sy + SymbolsIn(rest);
      assert MassesIn(gl, t, parse) == ma + MassesIn(rest, t, parse);
      assert CoordsIn(gl, t, parse) == co + CoordsIn(rest, t, parse);
      Assoc(s.symbols, sy, SymbolsIn(rest));
      Assoc(s.masses, ma, MassesIn(rest, t, parse));
      Assoc(s.coords, co, CoordsIn(rest, t, parse));
    }
  }

  /** Each marker closes a fragment of exactly the atoms read since the
      previous one, so the finished fragments are consecutive ranges of the
      closed counts. */
  lemma {:induction false} AtomPassFragments(s: Atoms, gl: seq<Psi4Line>, t: Table, parse: string -> Entry)
    requires Laid(s) && AtomPass(s, gl, t, parse).Ok?
    ensures AtomPass(s, gl, t, parse).value.fragments
            == s.fragments + SizedRanges(|Flatten(s.fragments)|, ClosedCounts(|s.tempfrag|, gl))
    decreases |gl|
  {
    if |gl| > 0 {
      var s1 := AtomStep(s, gl[0], t, parse).value;
      AtomStepLaid(s, gl[0], t, parse);
      AtomStepOpen(s, gl[0], t, parse);
      AtomPassFragments(s1, gl[1..], t, parse);
      ClosedStep(s.fragments, s1.fragments, |s.tempfrag|, |s1.tempfrag|, gl);
    }
  }

  /** How one line of the second pass changes the size of the open fragment. */
  lemma AtomStepOpen(s: Atoms, line: Psi4Line, t: Table, parse: string -> Entry)
    requires AtomStep(s, line, t, parse).Ok?
    ensures |AtomStep(s, line, t, parse).value.tempfrag|
            == if line.FragmentMarker? then 0 else |s.tempfrag| + (if line.AtomLine? then 1 else 0)
  {
  }

  /** One line's worth of the fragment bookkeeping: whether it closes the
      open fragment or not, the finished fragments followed by the ranges
      still to come are the same. */
  lemma ClosedStep(fs: seq<seq<int>>, fs1: seq<seq<int>>, p: nat, p1: nat, gl: seq<Psi4Line>)
    requires |gl| > 0
    requires gl[0].FragmentMarker? ==> fs1 == fs + [Range(|Flatten(fs)|, |Flatten(fs)| + p)] && p1 == 0
    requires !gl[0].FragmentMarker? ==> fs1 == fs && p1 == p + (if gl[0].AtomLine? then 1 else 0)
    ensures fs1 + SizedRanges(|Flatten(fs1)|, ClosedCounts(p1, gl[1..]))
            == fs + SizedRanges(|Flatten(fs)|, ClosedCounts(p, gl))
  {
    if gl[0].FragmentMarker? {
      CloseFragment(fs, p, ClosedCounts(0, gl[1..]));
    }
  }

  /** The fragment left open at the end holds the atoms read since the last
      marker. */
  lemma {:induction false} AtomPassOpen(s: Atoms, gl: seq<Psi4Line>, t: Table, parse: string -> Entry)
    requires AtomPass(s, gl, t, parse).Ok?
    ensures |AtomPass(s, gl, t, parse).value.tempfrag| == OpenCount(|s.tempfrag|, gl)
    decreases |gl|
  {
    if |gl| > 0 {
      AtomStepOpen(s, gl[0], t, parse);
      AtomPassOpen(AtomStep(s, gl[0], t, parse).value, gl[1..], t, parse);
    }
  }

  /** Closing a fragment of `p` atoms extends the consecutive ranges. */
  lemma CloseFragment(fs: seq<seq<int>>, p: nat, rest: seq<nat>)
    ensures var done := |Flatten(fs)|;
            && |Flatten(fs + [Range(done, done + p)])| == done + p
            && (fs + [Range(done, done + p)]) + SizedRanges(done + p, rest) == fs + SizedRanges(done, [p] + rest)
  {
    var done := |Flatten(fs)|;
    FlattenAppend(fs, [Range(done, done + p)]);
    assert Flatten([Range(done, done + p)]) == Range(done, done + p) + Flatten([]);
    assert ([p] + rest)[1..] == rest;
  }

  lemma {:induction false} SizedRangesAppend(start: int, sizes: seq<nat>, n: nat)
    ensures SizedRanges(start, sizes + [n])
            == SizedRanges(start, sizes) + [Range(start + SumNat(sizes), start + SumNat(sizes) + n)]
    decreases |sizes|
  {
    if |sizes| == 0 {
      assert sizes + [n] == [n];
    } else {
      assert (sizes + [n])[1..] == sizes[1..] + [n];
      SizedRangesAppend(start + sizes[0], sizes[1..], n);
    }
  }

  // ---------------------------------------------------------------------
  // The parser

  /** The coordinate rows, every entry times the unit factor. */
  function ScaleRows(m: Matrix, c: real): (r: Matrix)
    ensures |r| == |m| && forall i :: 0 <= i < |m| ==> |r[i]| == |m[i]|
    ensures forall i, k :: 0 <= i < |m| && 0 <= k < |m[i]| ==> r[i][k] == m[i][k] * c
  {
    seq(|m|, i requires 0 <= i < |m| => seq(|m[i]|, k requires 0 <= k < |m[i]| => m[i][k] * c))
  }

  /** The unit factor: coordinates are read as angstrom unless some line
      asks for bohr; a later angstrom line does not switch back. */
  function UnitFactorOf(bohr: bool, t: Table): real {
    if bohr then 1.0 else 1.0 / t.bohr2angstroms
  }

  /** After the last line: close the last fragment and build the molecule. */
  function Finish(h: Header, s: Atoms, t: Table, name: string): (r: Result<Molecule>)
    ensures r.Err? <==> |s.tempfrag| == 0
    ensures r.Err? ==> r.error.IndexError?
  {
    if |s.tempfrag| == 0 then Err(IndexError("list index out of range"))
    else
      var f := Range(s.tempfrag[0], s.tempfrag[|s.tempfrag| - 1] + 1);
      Ok(Molecule(name, "", s.symbols, ScaleRows(s.coords, UnitFactorOf(h.bohr, t)),
                  if s.custom then s.masses else [], s.custom,
                  h.charge, h.multiplicity, s.isReal + seq(|f|, _ => true), s.fragments + [f],
                  h.fragmentCharges, h.fragmentMultiplicities))
  }

  /** `Molecule(text, dtype="psi4", name=name)` before centring and
      orientation.  Every atom, ghost or not, is flagged real, as written. */
  function ParsePsi4(lines: seq<Psi4Line>, t: Table, parse: string -> Entry, name: string): (r: Result<Molecule>)
  {
    var h :- FirstPass(lines);
    var s :- AtomPass(NoAtoms, h.glines, t, parse);
    Finish(h, s, t, name)
  }

  lemma FinishLayout(h: Header, s: Atoms, t: Table, name: string)
    requires Laid(s) && Finish(h, s, t, name).Ok?
    requires |h.fragmentCharges| > |s.fragments| && |h.fragmentMultiplicities| > |s.fragments|
    ensures var m := Finish(h, s, t, name).value;
            && WellFormed(m)
            && Flatten(m.fragments) == Range(0, |m.symbols|)
            && |m.fragments| == |s.fragments| + 1
            && (forall k :: 0 <= k < |m.fragments| ==> |m.fragments[k]| > 0)
            && m.isReal == seq(|m.symbols|, _ => true)
  {
    var m := Finish(h, s, t, name).value;
    var done := |Flatten(s.fragments)|;
    var f := Range(done, s.iatom);
    assert m.fragments == s.fragments + [f];
    FlattenAppend(s.fragments, [f]);
    assert Flatten([f]) == f + Flatten([]);
    RangeAppend(0, done, s.iatom);
    assert m.isReal == seq(s.iatom, _ => true);
    forall g, k | 0 <= g < |m.fragments| && 0 <= k < |m.fragments[g]|
      ensures 0 <= m.fragments[g][k] < |m.symbols|
    {
      FlattenMember(m.fragments, g, k);
    }
  }

  /** A parsed molecule is well formed; its fragments are consecutive,
      non-empty index ranges covering the atoms in order, one per block of
      the input; every atom is flagged real. */
  lemma ParseLayout(lines: seq<Psi4Line>, t: Table, parse: string -> Entry, name: string)
    requires ParsePsi4(lines, t, parse, name).Ok?
    ensures var m := ParsePsi4(lines, t, parse, name).value;
            && WellFormed(m)
            && Flatten(m.fragments) == Range(0, |m.symbols|)
            && |m.fragments| == |Blocks(lines)|
            && (forall k :: 0 <= k < |m.fragments| ==> |m.fragments[k]| > 0)
            && m.isReal == seq(|m.symbols|, _ => true)
  {
    var h := FirstPass(lines).value;
    FirstPassLengths(lines);
    AtomPassLaid(NoAtoms, h.glines, t, parse);
    var s := AtomPass(NoAtoms, h.glines, t, parse).value;
    FinishLayout(h, s, t, name);
  }

  /** Fragment k of a parsed molecule holds exactly the atoms of the k-th
      block of the input, numbered on from the previous fragment. */
  lemma ParseFragments(lines: seq<Psi4Line>, t: Table, parse: string -> Entry, name: string)
    requires ParsePsi4(lines, t, parse, name).Ok?
    ensures ParsePsi4(lines, t, parse, name).value.fragments == SizedRanges(0, BlockSizes(Blocks(lines)))
  {
    ParseFinish(lines, t, parse, name);
    var h := FirstPass(lines).value;
    var gl := h.glines;
    var s := AtomPass(NoAtoms, gl, t, parse).value;
    AtomPassLaid(NoAtoms, gl, t, parse);
    AtomPassFragments(NoAtoms, gl, t, parse);
    AtomPassOpen(NoAtoms, gl, t, parse);
    FinishFragments(h, s, t, name, ClosedCounts(0, gl));
    CountsToSizes(lines);
  }

  /** The fragment sizes the markers close, then the open one's, are the
      blocks' atom counts. */
  lemma CountsToSizes(lines: seq<Psi4Line>)
    ensures var gl := StructuralLines(lines);
            ClosedCounts(0, gl) + [OpenCount(0, gl)] == BlockSizes(Blocks(lines))
  {
    StructuralCounts(lines, 0);
    CountsOfBlocks(0, lines);
    var sizes := BlockSizes(Blocks(lines));
    assert [0 + sizes[0]] + sizes[1..] == sizes;
  }

  lemma FinishFragments(h: Header, s: Atoms, t: Table, name: string, closed: seq<nat>)
    requires Laid(s) && Finish(h, s, t, name).Ok?
    requires s.fragments == SizedRanges(0, closed)
    ensures Finish(h, s, t, name).value.fragments == SizedRanges(0, closed + [|s.tempfrag|])
  {
    SizedRangesCover(0, closed);
    SizedRangesAppend(0, closed, |s.tempfrag|);
  }

  /** A successful parse is the closing step applied to the two passes'
      results. */
  lemma ParseFinish(lines: seq<Psi4Line>, t: Table, parse: string -> Entry, name: string)
    requires ParsePsi4(lines, t, parse, name).Ok?
    ensures FirstPass(lines).Ok? && AtomPass(NoAtoms, FirstPass(lines).value.glines, t, parse).Ok?
    ensures var h := FirstPass(lines).value;
            var s := AtomPass(NoAtoms, h.glines, t, parse).value;
            var m := ParsePsi4(lines, t, parse, name).value;
            && Finish(h, s, t, name) == Ok(m)
            && m.charge == h.charge && m.multiplicity == h.multiplicity
            && m.fragmentCharges == h.fragmentCharges && m.fragmentMultiplicities == h.fragmentMultiplicities
            && m.symbols == s.symbols && m.customMasses == s.custom
            && (m.customMasses ==> m.storedMasses == s.masses)
            && m.geometry == ScaleRows(s.coords, UnitFactorOf(h.bohr, t))
  {
  }

  /** The totals of a parsed molecule come from the first fragment's
      charge line, or are the defaults 0 and 1 without one. */
  lemma ParseTotals(lines: seq<Psi4Line>, t: Table, parse: string -> Entry, name: string)
    requires ParsePsi4(lines, t, parse, name).Ok?
    ensures var m := ParsePsi4(lines, t, parse, name).value;
            && m.charge == BlockCharge(Blocks(lines)[0])
            && m.multiplicity == BlockMultiplicity(Blocks(lines)[0])
  {
    ParseFinish(lines, t, parse, name);
    FirstPassTotal(lines);
  }

  /** The symbols of a parsed molecule are the atom lines' in order; masses
      are custom exactly when some atom carries an `@mass` suffix, and then
      each atom has its suffix or its table mass. */
  lemma ParseAtomLists(lines: seq<Psi4Line>, t: Table, parse: string -> Entry, name: string)
    requires ParsePsi4(lines, t, parse, name).Ok?
    ensures AllGood(lines, t, parse)
    ensures var m := ParsePsi4(lines, t, parse, name).value;
            && m.symbols == SymbolsIn(lines)
            && (m.customMasses <==> SomeMass(lines))
            && (m.customMasses ==> m.storedMasses == MassesIn(lines, t, parse))
  {
    ParseFinish(lines, t, parse, name);
    var h := FirstPass(lines).value;
    AtomPassAtoms(NoAtoms, h.glines, t, parse);
    StructuralViews(lines, t, parse, false);
  }

  /** The coordinates of a parsed molecule are the fields as written times
      the unit factor. */
  lemma ParseGeometry(lines: seq<Psi4Line>, t: Table, parse: string -> Entry, name: string)
    requires ParsePsi4(lines, t, parse, name).Ok?
    ensures AllGood(lines, t, parse)
    ensures var m := ParsePsi4(lines, t, parse, name).value;
            var bohr := exists i :: 0 <= i < |lines| && lines[i].UnitsBohr?;
            m.geometry == ScaleRows(CoordsIn(lines, t, parse), UnitFactorOf(bohr, t))
  {
    ParseFinish(lines, t, parse, name);
    var h := FirstPass(lines).value;
    AtomPassAtoms(NoAtoms, h.glines, t, parse);
    StructuralViews(lines, t, parse, false);
  }

  /** With at most one charge line per fragment, each fragment's values
      are its own line's or the defaults. */
  lemma ParseFragmentValues(lines: seq<Psi4Line>, t: Table, parse: string -> Entry, name: string)
    requires ParsePsi4(lines, t, parse, name).Ok?
    requires AtMostOneChargeMult(Blocks(lines))
    ensures var m := ParsePsi4(lines, t, parse, name).value;
            && m.fragmentCharges == Charges(Blocks(lines))
            && m.fragmentMultiplicities == Multiplicities(Blocks(lines))
  {
    ParseFinish(lines, t, parse, name);
    FirstPassCharges(lines);
  }

  /** The parser's error cases: an unidentifiable line is a TypeError before
      anything else; otherwise a TypeError means an atom line with an unknown
      symbol, a wrong field count or a field with no number; a ValueError
      means a field `float()` rejects; and with good lines the parse
      succeeds exactly when every fragment holds an atom (IndexError
      otherwise). */
  lemma ParseErrors(lines: seq<Psi4Line>, t: Table, parse: string -> Entry, name: string)
    ensures var r := ParsePsi4(lines, t, parse, name);
            var unidentified := exists i :: 0 <= i < |lines| && lines[i].Unidentifiable?;
            && (unidentified ==> r.Err? && r.error.TypeError?)
            && (r.Err? && r.error.TypeError? ==> unidentified || SomeTypeErrorAtom(lines, t, parse))
            && (r.Err? && r.error.ValueError? ==> SomeMalformedAtom(lines, parse))
            && (r.Err? ==> r.error.TypeError? || r.error.ValueError? || r.error.IndexError?)
  {
    if FirstPass(lines).Ok? {
      AtomPassErrors(NoAtoms, StructuralLines(lines), t, parse);
      StructuralViews(lines, t, parse, false);
    }
  }

  /** Input whose lines are all recognised and whose atom lines are all
      good parses exactly when every fragment has an atom. */
  lemma ParseSucceeds(lines: seq<Psi4Line>, t: Table, parse: string -> Entry, name: string)
    requires forall i :: 0 <= i < |lines| ==> !lines[i].Unidentifiable?
    requires AllGood(lines, t, parse)
    ensures var bs := Blocks(lines);
            ParsePsi4(lines, t, parse, name).Ok? <==> forall k :: 0 <= k < |bs| ==> HasAtom(bs[k])
  {
    var gl := StructuralLines(lines);
    StructuralViews(lines, t, parse, false);
    AtomPassFilled(NoAtoms, gl, t, parse);
    FilledBlocks(false, lines);
  }

  // ---------------------------------------------------------------------
  // Ghost atoms

  /** The labels of the atom lines, in order. */
  function LabelsIn(lines: seq<Psi4Line>): (r: seq<AtomLabel>)
    ensures |r| == |SymbolsIn(lines)|
    ensures forall i :: 0 <= i < |r| ==> r[i].symbol == SymbolsIn(lines)[i]
    decreases |lines|
  {
    if |lines| == 0 then []
    else (if lines[0].AtomLine? then [lines[0].atom] else []) + LabelsIn(lines[1..])
  }

  /** The parser as intended: a ghost atom (`@X` or `Gh(X)`) is not real. */
  function ParsePsi4Corrected(lines: seq<Psi4Line>, t: Table, parse: string -> Entry, name: string): (r: Result<Molecule>)
  {
    var m :- ParsePsi4(lines, t, parse, name);
    var labels := LabelsIn(lines);
    Ok(m.(isReal := seq(|labels|, i requires 0 <= i < |labels| => !labels[i].isGhost)))
  }

  /** The corrected parser fails exactly when the original does, changes
      nothing but the real flags, keeps the molecule well formed, and flags
      an atom real exactly when it is not a ghost. */
  lemma CorrectedGhostFlags(lines: seq<Psi4Line>, t: Table, parse: string -> Entry, name: string)
    ensures var r := ParsePsi4Corrected(lines, t, parse, name);
            var written := ParsePsi4(lines, t, parse, name);
            && (r.Ok? <==> written.Ok?)
            && (r.Err? ==> r.error == written.error)
            && (r.Ok? ==>
                  && WellFormed(r.value)
                  && r.value.(isReal := written.value.isReal) == written.value
                  && |r.value.isReal| == |LabelsIn(lines)|
                  && forall i :: 0 <= i < |LabelsIn(lines)| ==> (r.value.isReal[i] <==> !LabelsIn(lines)[i].isGhost))
  {
    var written := ParsePsi4(lines, t, parse, name);
    if written.Ok? {
      ParseLayout(lines, t, parse, name);
      ParseAtomLists(lines, t, parse, name);
    }
  }

  /** As written, `Gh(He) 0 0 0` parses to one atom flagged real. */
  lemma GhostFlaggedReal()
    ensures var t := Table(map["HE" := Element(2, 4.0026)], map[2 := "HE"], 0.52917721067);
            var ghostHelium := AtomLine(AtomLabel(true, "HE", None), ["Gh(He)", "0", "0", "0"]);
            var r := ParsePsi4([ghostHelium], t, _ => Number(0.0), "");
            && r.Ok?
            && LabelsIn([ghostHelium])[0].isGhost
            && r.value.isReal == [true]
            && ParsePsi4Corrected([ghostHelium], t, _ => Number(0.0), "").value.isReal == [false]
  {
    var t := Table(map["HE" := Element(2, 4.0026)], map[2 := "HE"], 0.52917721067);
    var ghostHelium := AtomLine(AtomLabel(true, "HE", None), ["Gh(He)", "0", "0", "0"]);
    var lines := [ghostHelium];
    var parse: string -> Entry := _ => Number(0.0);
    assert lines[1..] == [];
    var h := FirstPass(lines).value;
    assert h.glines == lines;
    assert "HE" in t.bySymbol && |ghostHelium.entries| == 4;
    assert parse(ghostHelium.entries[1]) == Number(0.0);
    var step := AtomStep(NoAtoms, ghostHelium, t, parse);
    assert step.Ok? && step.value.tempfrag == [0];
    assert AtomPass(NoAtoms, lines, t, parse) == AtomPass(step.value, [], t, parse);
  }
}
