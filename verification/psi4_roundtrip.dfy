/** The psi4 text read back by the psi4 parser.

    The corrected serializer's text parses back to the molecule it was
    written from: the same fragments, the upper-cased symbols, the printed
    coordinates, each fragment's charge and multiplicity when it has a real
    atom (the defaults otherwise) and, through the ghost-aware parser, the
    same real flags.
 */
module Psi4RoundTrip {

  import opened Results
  import opened Strs
  import opened Matrices
  import opened Elements
  import opened Molecules
  import opened Psi4Geometry
  import opened Psi4Writer

  /** A line that reads back as what it was written for: a charge line with
      an unsigned multiplicity, an atom with a one-to-three-letter symbol. */
  predicate Readable(l: OutLine) {
    && (l.ChargeLine? ==> l.multiplicity >= 0)
    && (l.AtomOut? ==> SymbolShaped(l.symbol))
  }

  predicate ReadableLines(ls: seq<OutLine>) {
    forall i :: 0 <= i < |ls| ==> Readable(ls[i])
  }

  lemma ReadableAppend(a: seq<OutLine>, b: seq<OutLine>)
    requires ReadableLines(a) && ReadableLines(b)
    ensures ReadableLines(a + b)
  {
    forall i | 0 <= i < |a + b| ensures Readable((a + b)[i]) {
      if i >= |a| {
        assert (a + b)[i] == b[i - |a|];
      }
    }
  }

  /** A readable line reads as an atom line exactly when it is an atom,
      and never as an unidentifiable one. */
  lemma ReadableLine(l: OutLine, fmt: real -> string)
    requires Readable(l)
    ensures ReadLine(l, fmt).AtomLine? <==> l.AtomOut?
    ensures !ReadLine(l, fmt).Unidentifiable?
  {
  }

  lemma NothingUnidentified(ls: seq<OutLine>, fmt: real -> string)
    requires ReadableLines(ls)
    ensures !exists i :: 0 <= i < |ReadAll(ls, fmt)| && ReadAll(ls, fmt)[i].Unidentifiable?
  {
    forall i | 0 <= i < |ls| ensures !ReadAll(ls, fmt)[i].Unidentifiable? {
      ReadAllIndex(ls, fmt, i);
      ReadableLine(ls[i], fmt);
    }
  }

  /** Reading back commutes with picking out the atoms. */
  lemma {:induction false} AtomLinesRead(ls: seq<OutLine>, fmt: real -> string)
    requires ReadableLines(ls)
    ensures AtomLinesIn(ReadAll(ls, fmt)) == ReadAll(AtomOutsIn(ls), fmt)
    decreases |ls|
  {
    if |ls| > 0 {
      var l, rest := ls[0], ls[1..];
      AtomLinesRead(rest, fmt);
      ReadableLine(l, fmt);
      var x := ReadAll(ls, fmt);
      assert x[0] == ReadLine(l, fmt) && x[1..] == ReadAll(rest, fmt);
      var own := if l.AtomOut? then [l] else [];
      assert AtomOutsIn(ls) == own + AtomOutsIn(rest);
      ReadAllAppend(own, AtomOutsIn(rest), fmt);
      assert ReadAll(own, fmt) == (if l.AtomOut? then [ReadLine(l, fmt)] else []);
    }
  }

  lemma AtomsOutReadable(m: Molecule, idx: seq<int>)
    requires WellFormed(m) && ShapedSymbols(m) && IndicesIn(idx, |m.symbols|)
    ensures ReadableLines(AtomsOut(m, idx))
  {
  }

  lemma HeadReadable(m: Molecule, num: nat, corrected: bool)
    requires WellFormed(m) && UnsignedMultiplicities(m) && num < |m.fragments|
    ensures ReadableLines(Head(m, num, corrected))
  {
  }

  lemma {:induction false} FragmentsOutReadable(m: Molecule, num: nat, corrected: bool)
    requires WellFormed(m) && UnsignedMultiplicities(m) && ShapedSymbols(m) && num <= |m.fragments|
    ensures ReadableLines(FragmentsOut(m, num, corrected))
    decreases |m.fragments| - num
  {
    if num < |m.fragments| {
      FragmentsOutUnfold(m, num, corrected);
      FragmentsOutReadable(m, num + 1, corrected);
      HeadReadable(m, num, corrected);
      AtomsOutReadable(m, m.fragments[num]);
      ReadableAppend(Head(m, num, corrected), AtomsOut(m, m.fragments[num]));
      ReadableAppend(Head(m, num, corrected) + AtomsOut(m, m.fragments[num]), FragmentsOut(m, num + 1, corrected));
    }
  }

  /** Either layout reads back without an unidentifiable line, with the
      `units bohr` directive, and with one atom line per atom in index
      order. */
  lemma LayoutReadable(m: Molecule, corrected: bool)
    requires WellFormed(m) && UnsignedMultiplicities(m) && ShapedSymbols(m)
    ensures ReadableLines(Layout(m, corrected))
  {
    FragmentsOutReadable(m, 0, corrected);
    ReadableAppend([Blank(0)], FragmentsOut(m, 0, corrected));
    ReadableAppend([Blank(0)] + FragmentsOut(m, 0, corrected), Trailer);
  }

  lemma BohrRead(m: Molecule, fmt: real -> string, corrected: bool)
    requires WellFormed(m)
    ensures exists i :: 0 <= i < |Reread(m, fmt, corrected)| && Reread(m, fmt, corrected)[i].UnitsBohr?
  {
    var ls := Layout(m, corrected);
    var i := |ls| - 3;
    assert ls[i] == Keyword(BohrUnits);
    ReadAllIndex(ls, fmt, i);
    assert Reread(m, fmt, corrected)[i] == UnitsBohr;
  }

  /** The atom line atom `i` reads back as. */
  function AtomRead(m: Molecule, i: nat, fmt: real -> string): Psi4Line
    requires WellFormed(m) && i < |m.symbols|
  {
    ReadLine(AtomOutAt(m, i), fmt)
  }

  /** The atom line atom `i` reads back as: labelled a ghost exactly when
      not real, with its upper-cased symbol, no mass and its three printed
      coordinates. */
  lemma AtomReadForm(m: Molecule, i: nat, fmt: real -> string)
    requires WellFormed(m) && ShapedSymbols(m) && i < |m.symbols|
    ensures AtomRead(m, i, fmt)
            == AtomLine(AtomLabel(!m.isReal[i], Upper(m.symbols[i]), None),
                        [AtomText(m.isReal[i], m.symbols[i]), Strip(fmt(m.geometry[i][0])),
                         Strip(fmt(m.geometry[i][1])), Strip(fmt(m.geometry[i][2]))])
  {
    assert SymbolShaped(m.symbols[i]);
    AtomLineRead(m.isReal[i], m.symbols[i], m.geometry[i][0], m.geometry[i][1], m.geometry[i][2], fmt);
  }

  lemma AtomLineRead(isReal: bool, symbol: string, x: real, y: real, z: real, fmt: real -> string)
    requires SymbolShaped(symbol)
    ensures ReadLine(AtomOut(isReal, symbol, x, y, z), fmt)
            == AtomLine(AtomLabel(!isReal, Upper(symbol), None),
                        [AtomText(isReal, symbol), Strip(fmt(x)), Strip(fmt(y)), Strip(fmt(z))])
  {
    var r := ReadLine(AtomOut(isReal, symbol, x, y, z), fmt);
    assert r.AtomLine?;
    assert r.atom == AtomLabel(!isReal, Upper(symbol), None);
    assert r.entries == [AtomText(isReal, symbol), Strip(fmt(x)), Strip(fmt(y)), Strip(fmt(z))];
  }

  /** Readable lines whose atom lines are the atoms in index order read
      back, atom line by atom line, as those atoms. */
  lemma AtomsReadInOrder(m: Molecule, ls: seq<OutLine>, fmt: real -> string)
    requires WellFormed(m) && ReadableLines(ls)
    requires AtomOutsIn(ls) == AtomsOut(m, Range(0, |m.symbols|))
    ensures var a := AtomLinesIn(ReadAll(ls, fmt));
            && |a| == |m.symbols|
            && forall i :: 0 <= i < |a| ==> a[i] == AtomRead(m, i, fmt)
  {
    AtomLinesRead(ls, fmt);
    var outs := AtomsOut(m, Range(0, |m.symbols|));
    forall i | 0 <= i < |outs| ensures ReadAll(outs, fmt)[i] == AtomRead(m, i, fmt) {
      ReadAllIndex(outs, fmt, i);
    }
  }

  /** The atom lines of the text read back are the atoms in index order,
      each as `AtomReadForm` describes. */
  lemma AtomLinesOfLayout(m: Molecule, fmt: real -> string, corrected: bool)
    requires WellFormed(m) && UnsignedMultiplicities(m) && ShapedSymbols(m)
    requires Flatten(m.fragments) == Range(0, |m.symbols|)
    ensures var a := AtomLinesIn(Reread(m, fmt, corrected));
            && |a| == |m.symbols|
            && forall i :: 0 <= i < |a| ==>
                 && a[i] == AtomRead(m, i, fmt)
                 && a[i] == AtomLine(AtomLabel(!m.isReal[i], Upper(m.symbols[i]), None),
                                     [AtomText(m.isReal[i], m.symbols[i]), Strip(fmt(m.geometry[i][0])),
                                      Strip(fmt(m.geometry[i][1])), Strip(fmt(m.geometry[i][2]))])
  {
    var ls := Layout(m, corrected);
    LayoutReadable(m, corrected);
    AtomsLayout(m, corrected);
    AtomsReadInOrder(m, ls, fmt);
    forall i | 0 <= i < |m.symbols| {
      AtomReadForm(m, i, fmt);
    }
  }

  /** Every atom of a rereadable molecule is written where the parser
      expects an atom: consecutive fragments cover the atoms in order. */
  lemma RereadableCover(m: Molecule, t: Table, fmt: real -> string, parse: string -> Entry)
    requires Rereadable(m, t, fmt, parse)
    ensures Flatten(m.fragments) == Range(0, |m.symbols|)
  {
    SizedRangesCover(0, Sizes(m.fragments));
  }

  /** Every line of the corrected text read back passes the parser's
      atom checks. */
  lemma AllGoodRead(m: Molecule, t: Table, fmt: real -> string, parse: string -> Entry)
    requires Rereadable(m, t, fmt, parse)
    ensures AllGood(Reread(m, fmt, true), t, parse)
  {
    RereadableCover(m, t, fmt, parse);
    AtomLinesOfLayout(m, fmt, true);
    var lines := Reread(m, fmt, true);
    var a := AtomLinesIn(lines);
    forall i | 0 <= i < |a| ensures GoodAtom(a[i], t, parse) {
      assert parse(Strip(fmt(m.geometry[i][0]))).Number?;
      assert parse(Strip(fmt(m.geometry[i][1]))).Number?;
      assert parse(Strip(fmt(m.geometry[i][2]))).Number?;
    }
    GoodView(lines, t, parse);
  }

  /** The corrected text of a rereadable molecule parses without error. */
  lemma ReadBackOk(m: Molecule, t: Table, fmt: real -> string, parse: string -> Entry, name: string)
    requires Rereadable(m, t, fmt, parse)
    ensures ParsePsi4(Reread(m, fmt, true), t, parse, name).Ok?
    ensures AtMostOneChargeMult(Blocks(Reread(m, fmt, true)))
  {
    var lines := Reread(m, fmt, true);
    LayoutReadable(m, true);
    NothingUnidentified(Layout(m, true), fmt);
    AllGoodRead(m, t, fmt, parse);
    LayoutBlocks(m, fmt);
    ParseSucceeds(lines, t, parse, name);
  }

  /** Read back, the corrected text has the fragments it was written from. */
  lemma RoundTripFragments(m: Molecule, t: Table, fmt: real -> string, parse: string -> Entry, name: string)
    requires Rereadable(m, t, fmt, parse)
    ensures var r := ParsePsi4(Reread(m, fmt, true), t, parse, name);
            r.Ok? && r.value.fragments == m.fragments
  {
    var lines := Reread(m, fmt, true);
    ReadBackOk(m, t, fmt, parse, name);
    ParseFragments(lines, t, parse, name);
    LayoutBlocks(m, fmt);
    assert BlockSizes(Blocks(lines)) == Sizes(m.fragments);
  }

  /** Read back, the corrected text has the atoms it was written from, in
      order, each symbol upper-cased, and no custom masses. */
  lemma RoundTripSymbols(m: Molecule, t: Table, fmt: real -> string, parse: string -> Entry, name: string)
    requires Rereadable(m, t, fmt, parse)
    ensures var r := ParsePsi4(Reread(m, fmt, true), t, parse, name);
            && r.Ok?
            && |r.value.symbols| == |m.symbols|
            && (forall i :: 0 <= i < |m.symbols| ==> r.value.symbols[i] == Upper(m.symbols[i]))
            && !r.value.customMasses
  {
    var lines := Reread(m, fmt, true);
    ReadBackOk(m, t, fmt, parse, name);
    ParseAtomLists(lines, t, parse, name);
    RereadableCover(m, t, fmt, parse);
    AtomLinesOfLayout(m, fmt, true);
    LabelsView(lines);
    MassView(lines);
  }

  /** The coordinates the parser reads off the text, in bohr: the printed
      form of each coordinate, read as a number. */
  lemma CoordsRead(m: Molecule, t: Table, fmt: real -> string, parse: string -> Entry)
    requires Rereadable(m, t, fmt, parse)
    ensures AllGood(Reread(m, fmt, true), t, parse)
    ensures var g := CoordsIn(Reread(m, fmt, true), t, parse);
            && Rect(g, |m.symbols|, 3)
            && forall i, c :: 0 <= i < |m.symbols| && 0 <= c < 3 ==>
                 g[i][c] == parse(Strip(fmt(m.geometry[i][c]))).value
  {
    var lines := Reread(m, fmt, true);
    AllGoodRead(m, t, fmt, parse);
    RereadableCover(m, t, fmt, parse);
    AtomLinesOfLayout(m, fmt, true);
    CoordsView(lines, t, parse);
    var a, g := AtomLinesIn(lines), CoordsIn(lines, t, parse);
    forall i | 0 <= i < |m.symbols|
      ensures |g[i]| == 3
      ensures forall c :: 0 <= c < 3 ==> g[i][c] == parse(Strip(fmt(m.geometry[i][c]))).value
    {
      assert a[i] == AtomRead(m, i, fmt);
      RowRead(m, i, t, fmt, parse);
      assert g[i] == RowOf(a[i], t, parse);
    }
  }

  /** Atom `i`'s coordinate row, as the parser reads it off its line. */
  lemma RowRead(m: Molecule, i: nat, t: Table, fmt: real -> string, parse: string -> Entry)
    requires Rereadable(m, t, fmt, parse) && i < |m.symbols|
    ensures AtomRead(m, i, fmt).AtomLine? && GoodAtom(AtomRead(m, i, fmt), t, parse)
    ensures var row := RowOf(AtomRead(m, i, fmt), t, parse);
            |row| == 3 && forall c :: 0 <= c < 3 ==> row[c] == parse(Strip(fmt(m.geometry[i][c]))).value
  {
    AtomReadForm(m, i, fmt);
    var g := m.geometry[i];
    assert parse(Strip(fmt(g[0]))).Number? && parse(Strip(fmt(g[1]))).Number? && parse(Strip(fmt(g[2]))).Number?;
    GoodRow(m.isReal[i], m.symbols[i], g, t, fmt, parse);
  }

  /** An atom line with a known symbol and three numeric fields is good,
      and its row is the three numbers. */
  lemma GoodRow(isReal: bool, symbol: string, xs: seq<real>, t: Table, fmt: real -> string,
                parse: string -> Entry)
    requires |xs| == 3 && Upper(symbol) in t.bySymbol
    requires parse(Strip(fmt(xs[0]))).Number? && parse(Strip(fmt(xs[1]))).Number? && parse(Strip(fmt(xs[2]))).Number?
    ensures var l := AtomLine(AtomLabel(!isReal, Upper(symbol), None),
                              [AtomText(isReal, symbol), Strip(fmt(xs[0])), Strip(fmt(xs[1])), Strip(fmt(xs[2]))]);
            && GoodAtom(l, t, parse)
            && |RowOf(l, t, parse)| == 3
            && forall c :: 0 <= c < 3 ==> RowOf(l, t, parse)[c] == parse(Strip(fmt(xs[c]))).value
  {
    var l := AtomLine(AtomLabel(!isReal, Upper(symbol), None),
                      [AtomText(isReal, symbol), Strip(fmt(xs[0])), Strip(fmt(xs[1])), Strip(fmt(xs[2]))]);
    forall c | 0 <= c < 3 ensures RowOf(l, t, parse)[c] == parse(Strip(fmt(xs[c]))).value {
      if c == 0 {
      } else if c == 1 {
      } else {
      }
    }
  }

  /** Read back, the corrected text has each coordinate as the parser reads
      its printed form, in bohr. */
  lemma RoundTripCoordinates(m: Molecule, t: Table, fmt: real -> string, parse: string -> Entry, name: string)
    requires Rereadable(m, t, fmt, parse)
    ensures var r := ParsePsi4(Reread(m, fmt, true), t, parse, name);
            && r.Ok?
            && Rect(r.value.geometry, |m.symbols|, 3)
            && (forall i, c :: 0 <= i < |m.symbols| && 0 <= c < 3 ==>
                  r.value.geometry[i][c] == parse(Strip(fmt(m.geometry[i][c]))).value)
  {
    var lines := Reread(m, fmt, true);
    ReadBackOk(m, t, fmt, parse, name);
    ParseGeometry(lines, t, parse, name);
    CoordsRead(m, t, fmt, parse);
    BohrRead(m, fmt, true);
    assert UnitFactorOf(true, t) == 1.0;
  }

  /** Read back, the corrected text gives each fragment its written charge
      (truncated to an integer) and multiplicity when it has a real atom,
      and the defaults 0 and 1 otherwise; the totals are the first
      fragment's. */
  lemma RoundTripCharges(m: Molecule, t: Table, fmt: real -> string, parse: string -> Entry, name: string)
    requires Rereadable(m, t, fmt, parse)
    ensures var r := ParsePsi4(Reread(m, fmt, true), t, parse, name);
            && r.Ok?
            && |r.value.fragmentCharges| == |r.value.fragmentMultiplicities| == |m.fragments|
            && (forall k :: 0 <= k < |m.fragments| ==>
                  && r.value.fragmentCharges[k]
                     == (if FragmentHasReal(m, k) then Trunc(m.fragmentCharges[k]) as real else 0.0)
                  && r.value.fragmentMultiplicities[k]
                     == (if FragmentHasReal(m, k) then m.fragmentMultiplicities[k] else 1))
            && r.value.charge == r.value.fragmentCharges[0]
            && r.value.multiplicity == r.value.fragmentMultiplicities[0]
  {
    var lines := Reread(m, fmt, true);
    ReadBackOk(m, t, fmt, parse, name);
    ParseTotals(lines, t, parse, name);
    ParseFragmentValues(lines, t, parse, name);
    LayoutBlocks(m, fmt);
  }

  /** Read back by the ghost-aware parser, the corrected text flags the
      atoms real exactly as the molecule did. */
  lemma RoundTripGhosts(m: Molecule, t: Table, fmt: real -> string, parse: string -> Entry, name: string)
    requires Rereadable(m, t, fmt, parse)
    ensures var r := ParsePsi4Corrected(Reread(m, fmt, true), t, parse, name);
            r.Ok? && r.value.isReal == m.isReal
  {
    var lines := Reread(m, fmt, true);
    ReadBackOk(m, t, fmt, parse, name);
    CorrectedGhostFlags(lines, t, parse, name);
    RereadableCover(m, t, fmt, parse);
    AtomLinesOfLayout(m, fmt, true);
    LabelsView(lines);
  }

  // ---------------------------------------------------------------------
  // The dropped divider

  function DividerCount(ls: seq<OutLine>): nat
    decreases |ls|
  {
    if |ls| == 0 then 0 else (if ls[0].Divider? then 1 else 0) + DividerCount(ls[1..])
  }

  lemma {:induction false} DividerCountAppend(a: seq<OutLine>, b: seq<OutLine>)
    ensures DividerCount(a + b) == DividerCount(a) + DividerCount(b)
    decreases |a|
  {
    if |a| == 0 {
      assert a + b == b;
    } else {
      assert (a + b)[1..] == a[1..] + b;
      DividerCountAppend(a[1..], b);
    }
  }

  /** Read back, only dividers become fragment markers. */
  lemma {:induction false} MarkersRead(ls: seq<OutLine>, fmt: real -> string)
    ensures Markers(ReadAll(ls, fmt)) == DividerCount(ls)
    decreases |ls|
  {
    if |ls| > 0 {
      MarkersRead(ls[1..], fmt);
      assert ReadAll(ls, fmt)[1..] == ReadAll(ls[1..], fmt);
    }
  }

  /** The fragments from `num` on, other than the first, that hold a real
      atom. */
  function RealFragmentsFrom(m: Molecule, num: nat): nat
    requires WellFormed(m) && num <= |m.fragments|
    decreases |m.fragments| - num
  {
    if num == |m.fragments| then 0
    else (if num > 0 && FragmentHasReal(m, num) then 1 else 0) + RealFragmentsFrom(m, num + 1)
  }

  lemma {:induction false} WrittenDividers(m: Molecule, num: nat, corrected: bool)
    requires WellFormed(m) && num <= |m.fragments|
    ensures DividerCount(FragmentsOut(m, num, corrected))
            == (if corrected then |m.fragments| - num - (if num == 0 < |m.fragments| then 1 else 0)
                else RealFragmentsFrom(m, num))
    decreases |m.fragments| - num
  {
    if num < |m.fragments| {
      FragmentsOutUnfold(m, num, corrected);
      WrittenDividers(m, num + 1, corrected);
      var h, a := Head(m, num, corrected), AtomsOut(m, m.fragments[num]);
      DividerCountAppend(h + a, FragmentsOut(m, num + 1, corrected));
      DividerCountAppend(h, a);
      AtomsHaveNoDivider(a);
      HeadDividers(m, num, corrected);
      assert DividerCount(FragmentsOut(m, num, corrected))
          == DividerCount(h) + DividerCount(FragmentsOut(m, num + 1, corrected));
      assert RealFragmentsFrom(m, num)
          == (if num > 0 && FragmentHasReal(m, num) then 1 else 0) + RealFragmentsFrom(m, num + 1);
    }
  }

  lemma {:induction false} AtomsHaveNoDivider(a: seq<OutLine>)
    requires forall i :: 0 <= i < |a| ==> a[i].AtomOut?
    ensures DividerCount(a) == 0
    decreases |a|
  {
    if |a| > 0 {
      AtomsHaveNoDivider(a[1..]);
    }
  }

  lemma HeadDividers(m: Molecule, num: nat, corrected: bool)
    requires WellFormed(m) && num < |m.fragments|
    ensures DividerCount(Head(m, num, corrected))
            == (if num > 0 && (corrected || FragmentHasReal(m, num)) then 1 else 0)
  {
    var h := Head(m, num, corrected);
    if |h| == 2 {
      assert h[1..][1..] == [];
      assert h[1].ChargeLine?;
      assert DividerCount(h) == (if h[0].Divider? then 1 else 0) + DividerCount(h[1..]);
      assert DividerCount(h[1..]) == 0;
    } else if |h| == 1 {
      assert h[1..] == [];
    }
  }

  /** As written, the text reads back as one block for the first fragment
      and one more for each later fragment with a real atom: a fragment of
      ghosts only loses its divider and merges into the one before. */
  lemma WrittenBlocks(m: Molecule, fmt: real -> string)
    requires WellFormed(m)
    ensures |Blocks(Reread(m, fmt, false))| == 1 + RealFragmentsFrom(m, 0)
  {
    var body := FragmentsOut(m, 0, false);
    MarkersRead(Layout(m, false), fmt);
    DividerCountAppend([Blank(0)] + body, Trailer);
    DividerCountAppend([Blank(0)], body);
    WrittenDividers(m, 0, false);
    assert DividerCount(Trailer) == 0 by {
      assert Trailer[1..][1..][1..][1..] == [];
    }
    assert DividerCount([Blank(0)]) == 0 by {
      assert [Blank(0)][1..] == [];
    }
  }

  /** The corrected text reads back as one block per fragment. */
  lemma CorrectedBlocks(m: Molecule, fmt: real -> string)
    requires WellFormed(m) && 0 < |m.fragments|
    ensures |Blocks(Reread(m, fmt, true))| == |m.fragments|
  {
    var body := FragmentsOut(m, 0, true);
    MarkersRead(Layout(m, true), fmt);
    DividerCountAppend([Blank(0)] + body, Trailer);
    DividerCountAppend([Blank(0)], body);
    WrittenDividers(m, 0, true);
    assert DividerCount(Trailer) == 0 by {
      assert Trailer[1..][1..][1..][1..] == [];
    }
    assert DividerCount([Blank(0)]) == 0 by {
      assert [Blank(0)][1..] == [];
    }
  }

  /** When every fragment has a real atom the two layouts agree. */
  lemma {:induction false} SameWhenAllReal(m: Molecule, num: nat)
    requires WellFormed(m) && num <= |m.fragments|
    requires forall k :: 0 <= k < |m.fragments| ==> FragmentHasReal(m, k)
    ensures FragmentsOut(m, num, false) == FragmentsOut(m, num, true)
    decreases |m.fragments| - num
  {
    if num < |m.fragments| {
      SameWhenAllReal(m, num + 1);
      FragmentsOutUnfold(m, num, false);
      FragmentsOutUnfold(m, num, true);
      assert Head(m, num, false) == Head(m, num, true);
    }
  }

  lemma LayoutsAgree(m: Molecule)
    requires WellFormed(m)
    requires forall k :: 0 <= k < |m.fragments| ==> FragmentHasReal(m, k)
    ensures Layout(m, false) == Layout(m, true)
  {
    SameWhenAllReal(m, 0);
  }

  /** Two one-atom fragments, the second a ghost: as written the text
      reads back as a single fragment, corrected as two. */
  lemma GhostFragmentMerged(fmt: real -> string)
    ensures var m := Molecule("", "", ["He", "He"], [[0.0, 0.0, 0.0], [0.0, 0.0, 0.0]], [], false,
                              0.0, 1, [true, false], [[0], [1]], [0.0, 0.0], [1, 1]);
            && WellFormed(m)
            && |m.fragments| == 2
            && |Blocks(Reread(m, fmt, false))| == 1
            && |Blocks(Reread(m, fmt, true))| == 2
  {
    var m := Molecule("", "", ["He", "He"], [[0.0, 0.0, 0.0], [0.0, 0.0, 0.0]], [], false,
                      0.0, 1, [true, false], [[0], [1]], [0.0, 0.0], [1, 1]);
    assert !FragmentHasReal(m, 1);
    assert RealFragmentsFrom(m, 2) == 0;
    WrittenBlocks(m, fmt);
    CorrectedBlocks(m, fmt);
  }
}
