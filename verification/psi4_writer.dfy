/** The psi4 serializer (`Molecule._to_psi4_string`, optrotvib/molecule.py).

    The text is modelled as a list of typed output lines (`OutLine`) and a
    renderer that writes each one exactly as the source's format strings do;
    only the float format `% 14.10f` is a parameter `fmt`.  To state what
    the text means, `ReadLine` gives the class the parser's expressions
    assign to each rendered line, and the round-trip lemmas run the parser
    model over the result.
 */
module Psi4Writer {

  import opened Results
  import opened Strs
  import opened Matrices
  import opened Elements
  import opened Molecules
  import opened Psi4Geometry

  /** `"%d" % x` for a float: truncation toward zero. */
  function Trunc(x: real): int {
    if x >= 0.0 then x.Floor else -((-x).Floor)
  }

  /** Truncation drops the fraction and keeps the sign. */
  lemma TruncToward(x: real)
    ensures Abs(Trunc(x) as real) <= Abs(x) < Abs(Trunc(x) as real) + 1.0
    ensures Trunc(x) > 0 ==> x > 0.0
    ensures Trunc(x) < 0 ==> x < 0.0
  {
  }

  /** One line of the text, by kind. */
  datatype OutLine =
    | Blank(width: nat)
    | Divider
    | ChargeLine(charge: int, multiplicity: int)
    | AtomOut(isReal: bool, symbol: string, x: real, y: real, z: real)
    | Keyword(directive: Directive)

  /** The closing directives. */
  datatype Directive = BohrUnits | FixedCom | FixedOrientation

  function Word(d: Directive): string {
    match d
    case BohrUnits => "units bohr"
    case FixedCom => "no_com"
    case FixedOrientation => "no_reorient"
  }

  /** A real atom is written by its symbol, any other as `Gh(symbol)`. */
  function AtomText(isReal: bool, symbol: string): (r: string)
    ensures isReal ==> r == symbol
    ensures !isReal ==> |r| == |symbol| + 4 && r[..3] == "Gh(" && r[3..|r| - 1] == symbol && r[|r| - 1] == ')'
  {
    if isReal then symbol else "Gh(" + symbol + ")"
  }

  /** The text of one line, without its newline. */
  function Render(l: OutLine, fmt: real -> string): string {
    match l
    case Blank(w) => seq(w, _ => ' ')
    case Divider => "    --    "
    case ChargeLine(c, m) => "    " + IntToString(c) + " " + IntToString(m)
    case AtomOut(isReal, symbol, x, y, z) =>
      "    " + PadRight(AtomText(isReal, symbol), 8) + "    " + fmt(x) + " " + fmt(y) + " " + fmt(z)
    case Keyword(d) => "    " + Word(d)
  }

  /** Every line followed by a newline. */
  function Text(ls: seq<OutLine>, fmt: real -> string): string
    decreases |ls|
  {
    if |ls| == 0 then "" else Render(ls[0], fmt) + "\n" + Text(ls[1..], fmt)
  }

  lemma {:induction false} TextAppend(a: seq<OutLine>, b: seq<OutLine>, fmt: real -> string)
    ensures Text(a + b, fmt) == Text(a, fmt) + Text(b, fmt)
    decreases |a|
  {
    if |a| == 0 {
      assert a + b == b;
    } else {
      assert (a + b)[1..] == a[1..] + b;
      TextAppend(a[1..], b, fmt);
    }
  }

  // ---------------------------------------------------------------------
  // Layout

  predicate IndicesIn(frag: seq<int>, n: nat) {
    forall j :: 0 <= j < |frag| ==> 0 <= frag[j] < n
  }

  lemma FragmentIndices(m: Molecule, num: nat)
    requires WellFormed(m) && num < |m.fragments|
    ensures IndicesIn(m.fragments[num], |m.symbols|)
  {
  }

  /** `any(self.real[at] for at in frag)`. */
  predicate AnyReal(isReal: seq<bool>, frag: seq<int>)
    requires IndicesIn(frag, |isReal|)
  {
    exists j :: 0 <= j < |frag| && isReal[frag[j]]
  }

  function FragmentHasReal(m: Molecule, num: nat): bool
    requires WellFormed(m) && num < |m.fragments|
  {
    FragmentIndices(m, num);
    AnyReal(m.isReal, m.fragments[num])
  }

  function AtomOutAt(m: Molecule, at: int): OutLine
    requires WellFormed(m) && 0 <= at < |m.symbols|
  {
    AtomOut(m.isReal[at], m.symbols[at], m.geometry[at][0], m.geometry[at][1], m.geometry[at][2])
  }

  /** One atom line per index, in order. */
  function AtomsOut(m: Molecule, idx: seq<int>): (r: seq<OutLine>)
    requires WellFormed(m) && IndicesIn(idx, |m.symbols|)
    ensures |r| == |idx| && forall j :: 0 <= j < |idx| ==> r[j] == AtomOutAt(m, idx[j])
  {
    seq(|idx|, j requires 0 <= j < |idx| => AtomOutAt(m, idx[j]))
  }

  /** The lines before a fragment's atoms.  As written, a fragment without a
      real atom gets nothing, not even its `--`; `corrected` keeps the
      divider for every fragment after the first. */
  function Head(m: Molecule, num: nat, corrected: bool): (r: seq<OutLine>)
    requires WellFormed(m) && num < |m.fragments|
  {
    if FragmentHasReal(m, num) then
      [if num == 0 then Blank(4) else Divider,
       ChargeLine(Trunc(m.fragmentCharges[num]), m.fragmentMultiplicities[num])]
    else if corrected && num > 0 then [Divider]
    else []
  }

  /** Fragments `num` onwards, in order. */
  function FragmentsOut(m: Molecule, num: nat, corrected: bool): seq<OutLine>
    requires WellFormed(m) && num <= |m.fragments|
    decreases |m.fragments| - num
  {
    if num == |m.fragments| then []
    else
      FragmentIndices(m, num);
      Head(m, num, corrected) + AtomsOut(m, m.fragments[num]) + FragmentsOut(m, num + 1, corrected)
  }

  const Trailer := [Blank(0), Keyword(BohrUnits), Keyword(FixedCom), Keyword(FixedOrientation)]

  function Layout(m: Molecule, corrected: bool): seq<OutLine>
    requires WellFormed(m)
  {
    [Blank(0)] + FragmentsOut(m, 0, corrected) + Trailer
  }

  /** `_to_psi4_string()`: the text opens with an empty line and always
      closes with `units bohr`, `no_com` and `no_reorient`. */
  function ToPsi4String(m: Molecule, fmt: real -> string): (r: string)
    requires WellFormed(m)
    ensures |r| > 0 && r[0] == '\n'
    ensures EndsWith(r, TrailerString)
  {
    LayoutText(m, false, fmt);
    Text(Layout(m, false), fmt)
  }

  lemma LayoutText(m: Molecule, corrected: bool, fmt: real -> string)
    requires WellFormed(m)
    ensures Text(Layout(m, corrected), fmt)
            == "\n" + Text(FragmentsOut(m, 0, corrected), fmt) + TrailerString
  {
    var body := FragmentsOut(m, 0, corrected);
    TextAppend([Blank(0)] + body, Trailer, fmt);
    TextAppend([Blank(0)], body, fmt);
    assert Text([Blank(0)], fmt) == "\n";
    TrailerText(fmt);
  }

  lemma TextSingle(l: OutLine, fmt: real -> string)
    ensures Text([l], fmt) == Render(l, fmt) + "\n"
  {
    assert [l][1..] == [];
  }

  lemma KeywordText(d: Directive, fmt: real -> string)
    ensures Text([Keyword(d)], fmt) == DirectiveLine(d)
  {
    TextSingle(Keyword(d), fmt);
  }

  lemma TextOfFour(a: OutLine, b: OutLine, c: OutLine, d: OutLine, fmt: real -> string)
    ensures Text([a, b, c, d], fmt) == Text([a], fmt) + (Text([b], fmt) + (Text([c], fmt) + Text([d], fmt)))
  {
    assert [a, b, c, d] == [a] + ([b] + ([c] + [d]));
    TextAppend([a], [b] + ([c] + [d]), fmt);
    TextAppend([b], [c] + [d], fmt);
    TextAppend([c], [d], fmt);
  }

  lemma TrailerSplit(fmt: real -> string)
    ensures Text(Trailer, fmt) == Text([Blank(0)], fmt) + (Text([Keyword(BohrUnits)], fmt)
                                  + (Text([Keyword(FixedCom)], fmt) + Text([Keyword(FixedOrientation)], fmt)))
  {
    TextOfFour(Blank(0), Keyword(BohrUnits), Keyword(FixedCom), Keyword(FixedOrientation), fmt);
  }

  lemma BlankLineText(fmt: real -> string)
    ensures Text([Blank(0)], fmt) == "\n"
  {
    TextSingle(Blank(0), fmt);
    assert Render(Blank(0), fmt) == "";
  }

  /** A directive's line: indented, then a newline. */
  function DirectiveLine(d: Directive): string {
    "    " + Word(d) + "\n"
  }

  const TrailerString: string :=
    "\n" + (DirectiveLine(BohrUnits) + (DirectiveLine(FixedCom) + DirectiveLine(FixedOrientation)))

  lemma TrailerText(fmt: real -> string)
    ensures Text(Trailer, fmt) == TrailerString
  {
    TrailerSplit(fmt);
    BlankLineText(fmt);
    KeywordText(BohrUnits, fmt);
    KeywordText(FixedCom, fmt);
    KeywordText(FixedOrientation, fmt);
  }

  lemma HeadHasNoAtoms(m: Molecule, num: nat, corrected: bool)
    requires WellFormed(m) && num < |m.fragments|
    ensures AtomOutsIn(Head(m, num, corrected)) == []
  {
    var h := Head(m, num, corrected);
    if |h| == 1 {
      assert h[1..] == [];
    } else if |h| == 2 {
      assert h[1..] == [h[1]] && [h[1]][1..] == [];
      assert !h[0].AtomOut? && !h[1].AtomOut?;
      assert AtomOutsIn([h[1]]) == [];
    }
  }

  /** The groups from index `i` on, one after another. */
  function Concat<T>(gs: seq<seq<T>>, i: nat): seq<T>
    requires i <= |gs|
    decreases |gs| - i
  {
    if i == |gs| then [] else gs[i] + Concat(gs, i + 1)
  }

  /** Each fragment's lines: its header, then its atoms. */
  function Groups(m: Molecule, corrected: bool): (r: seq<seq<OutLine>>)
    requires WellFormed(m)
    ensures |r| == |m.fragments|
  {
    seq(|m.fragments|, k requires 0 <= k < |m.fragments| =>
      FragmentIndices(m, k);
      Head(m, k, corrected) + AtomsOut(m, m.fragments[k]))
  }

  /** Each fragment's atom lines. */
  function AtomGroups(m: Molecule): (r: seq<seq<OutLine>>)
    requires WellFormed(m)
    ensures |r| == |m.fragments|
  {
    seq(|m.fragments|, k requires 0 <= k < |m.fragments| =>
      FragmentIndices(m, k);
      AtomsOut(m, m.fragments[k]))
  }

  /** The fragments from `num` on are their groups, concatenated. */
  lemma {:induction false} FragmentsOutConcat(m: Molecule, num: nat, corrected: bool)
    requires WellFormed(m) && num <= |m.fragments|
    ensures FragmentsOut(m, num, corrected) == Concat(Groups(m, corrected), num)
    decreases |m.fragments| - num
  {
    if num < |m.fragments| {
      FragmentsOutConcat(m, num + 1, corrected);
      FragmentsOutUnfold(m, num, corrected);
    }
  }

  /** A fragment's group holds its atom lines and no other. */
  lemma GroupAtoms(m: Molecule, k: nat, corrected: bool)
    requires WellFormed(m) && k < |m.fragments|
    ensures AtomOutsIn(Groups(m, corrected)[k]) == AtomGroups(m)[k]
  {
    FragmentIndices(m, k);
    var h, a := Head(m, k, corrected), AtomsOut(m, m.fragments[k]);
    assert Groups(m, corrected)[k] == h + a;
    AtomOutsInAppend(h, a);
    AtomOutsOfAtoms(a);
    HeadHasNoAtoms(m, k, corrected);
  }

  lemma {:induction false} ConcatAtomOuts(gs: seq<seq<OutLine>>, ats: seq<seq<OutLine>>, i: nat)
    requires |gs| == |ats| && i <= |gs|
    requires forall k :: i <= k < |gs| ==> AtomOutsIn(gs[k]) == ats[k]
    ensures AtomOutsIn(Concat(gs, i)) == Concat(ats, i)
    decreases |gs| - i
  {
    if i < |gs| {
      ConcatAtomOuts(gs, ats, i + 1);
      AtomOutsInAppend(gs[i], Concat(gs, i + 1));
    }
  }

  /** The atom lines of the fragments, fragment after fragment. */
  lemma FragmentsOutAtoms(m: Molecule, corrected: bool)
    requires WellFormed(m)
    ensures AtomOutsIn(FragmentsOut(m, 0, corrected)) == Concat(AtomGroups(m), 0)
  {
    FragmentsOutConcat(m, 0, corrected);
    forall k | 0 <= k < |m.fragments| ensures AtomOutsIn(Groups(m, corrected)[k]) == AtomGroups(m)[k] {
      GroupAtoms(m, k, corrected);
    }
    ConcatAtomOuts(Groups(m, corrected), AtomGroups(m), 0);
  }

  /** Fragments `num` onwards, flattened, index atoms. */
  lemma {:induction false} AtomsFromFlatten(m: Molecule, num: nat)
    requires WellFormed(m) && num <= |m.fragments|
    ensures IndicesIn(Flatten(m.fragments[num..]), |m.symbols|)
    ensures Concat(AtomGroups(m), num) == AtomsOut(m, Flatten(m.fragments[num..]))
    decreases |m.fragments| - num
  {
    var fs := m.fragments[num..];
    if num == |m.fragments| {
      assert fs == [];
    } else {
      AtomsFromFlatten(m, num + 1);
      FragmentIndices(m, num);
      assert fs[1..] == m.fragments[num + 1..];
      assert Flatten(fs) == m.fragments[num] + Flatten(m.fragments[num + 1..]);
      assert AtomGroups(m)[num] == AtomsOut(m, m.fragments[num]);
      AtomsOutAppend(m, m.fragments[num], Flatten(m.fragments[num + 1..]));
    }
  }

  lemma AtomsOutAppend(m: Molecule, a: seq<int>, b: seq<int>)
    requires WellFormed(m) && IndicesIn(a, |m.symbols|) && IndicesIn(b, |m.symbols|)
    ensures IndicesIn(a + b, |m.symbols|)
    ensures AtomsOut(m, a + b) == AtomsOut(m, a) + AtomsOut(m, b)
  {
  }

  /** The atoms are written fragment after fragment, each as its symbol
      when real and as `Gh(symbol)` otherwise, with its coordinates. */
  lemma AtomsLayout(m: Molecule, corrected: bool)
    requires WellFormed(m)
    ensures IndicesIn(Flatten(m.fragments), |m.symbols|)
    ensures AtomOutsIn(Layout(m, corrected)) == AtomsOut(m, Flatten(m.fragments))
  {
    FragmentsOutAtoms(m, corrected);
    AtomsFromFlatten(m, 0);
    assert m.fragments[0..] == m.fragments;
    var body := FragmentsOut(m, 0, corrected);
    AtomOutsInAppend([Blank(0)] + body, Trailer);
    AtomOutsInAppend([Blank(0)], body);
    assert AtomOutsIn(Trailer) == [] by {
      assert Trailer[1..][1..][1..][1..] == [];
    }
  }

  /** The atom lines of a layout, in order. */
  function AtomOutsIn(ls: seq<OutLine>): (r: seq<OutLine>)
    ensures forall i :: 0 <= i < |r| ==> r[i].AtomOut?
    decreases |ls|
  {
    if |ls| == 0 then [] else (if ls[0].AtomOut? then [ls[0]] else []) + AtomOutsIn(ls[1..])
  }

  lemma {:induction false} AtomOutsInAppend(a: seq<OutLine>, b: seq<OutLine>)
    ensures AtomOutsIn(a + b) == AtomOutsIn(a) + AtomOutsIn(b)
    decreases |a|
  {
    if |a| == 0 {
      assert a + b == b;
    } else {
      assert (a + b)[1..] == a[1..] + b;
      AtomOutsInAppend(a[1..], b);
    }
  }

  lemma {:induction false} AtomOutsOfAtoms(a: seq<OutLine>)
    requires forall i :: 0 <= i < |a| ==> a[i].AtomOut?
    ensures AtomOutsIn(a) == a
    decreases |a|
  {
    if |a| > 0 {
      AtomOutsOfAtoms(a[1..]);
    }
  }

  // ---------------------------------------------------------------------
  // How the parser reads the text back

  /** A symbol the atom expression captures whole: one to three letters. */
  predicate SymbolShaped(s: string) {
    1 <= |s| <= 3 && forall i :: 0 <= i < |s| ==> IsLetter(s[i])
  }

  /** The class the parser's expressions give a rendered line: blanks are
      skipped, `--` is a marker, `c m` is a charge line when m has no sign,
      an atom line splits into its label and three stripped number fields,
      and the three keywords are recognised. */
  function ReadLine(l: OutLine, fmt: real -> string): Psi4Line {
    match l
    case Blank(_) => Skip
    case Divider => FragmentMarker
    case ChargeLine(c, mult) => if mult >= 0 then ChargeMult(c, mult) else Unidentifiable(Render(l, fmt))
    case AtomOut(isReal, symbol, x, y, z) =>
      if SymbolShaped(symbol)
      then AtomLine(AtomLabel(!isReal, Upper(symbol), None),
                    [AtomText(isReal, symbol), Strip(fmt(x)), Strip(fmt(y)), Strip(fmt(z))])
      else Unidentifiable(Render(l, fmt))
    case Keyword(d) =>
      match d
      case BohrUnits => UnitsBohr
      case FixedCom => NoCom
      case FixedOrientation => NoReorient
  }

  /** Every line read back, in order. */
  function ReadAll(ls: seq<OutLine>, fmt: real -> string): (r: seq<Psi4Line>)
    ensures |r| == |ls|
    decreases |ls|
  {
    if |ls| == 0 then [] else [ReadLine(ls[0], fmt)] + ReadAll(ls[1..], fmt)
  }

  lemma {:induction false} ReadAllIndex(ls: seq<OutLine>, fmt: real -> string, i: nat)
    requires i < |ls|
    ensures ReadAll(ls, fmt)[i] == ReadLine(ls[i], fmt)
    decreases i
  {
    if i > 0 {
      ReadAllIndex(ls[1..], fmt, i - 1);
    }
  }

  lemma {:induction false} ReadAllAppend(a: seq<OutLine>, b: seq<OutLine>, fmt: real -> string)
    ensures ReadAll(a + b, fmt) == ReadAll(a, fmt) + ReadAll(b, fmt)
    decreases |a|
  {
    if |a| == 0 {
      assert a + b == b;
    } else {
      assert (a + b)[1..] == a[1..] + b;
      ReadAllAppend(a[1..], b, fmt);
    }
  }

  /** The text read back: the as-written layout or the corrected one. */
  function Reread(m: Molecule, fmt: real -> string, corrected: bool): seq<Psi4Line>
    requires WellFormed(m)
  {
    ReadAll(Layout(m, corrected), fmt)
  }

  // ---------------------------------------------------------------------
  // Blocks of concatenated lines

  predicate NoMarkers(a: seq<Psi4Line>) {
    forall i :: 0 <= i < |a| ==> !a[i].FragmentMarker?
  }

  lemma {:induction false} BlocksPlain(a: seq<Psi4Line>, x: seq<Psi4Line>)
    requires NoMarkers(a)
    ensures Blocks(a + x) == [a + Blocks(x)[0]] + Blocks(x)[1..]
    decreases |a|
  {
    if |a| == 0 {
      assert a + x == x;
      assert a + Blocks(x)[0] == Blocks(x)[0];
    } else {
      assert (a + x)[1..] == a[1..] + x;
      BlocksPlain(a[1..], x);
      assert [a[0]] + (a[1..] + Blocks(x)[0]) == a + Blocks(x)[0];
    }
  }

  lemma BlocksMarker(x: seq<Psi4Line>)
    ensures Blocks([FragmentMarker] + x) == [[]] + Blocks(x)
  {
    assert ([FragmentMarker] + x)[1..] == x;
  }

  /** A block's counts over a concatenation. */
  lemma {:induction false} CountsAppend(a: seq<Psi4Line>, b: seq<Psi4Line>)
    ensures Psi4Geometry.AtomCount(a + b) == Psi4Geometry.AtomCount(a) + Psi4Geometry.AtomCount(b)
    ensures ChargeMultCount(a + b) == ChargeMultCount(a) + ChargeMultCount(b)
    ensures HasAtom(a + b) == (HasAtom(a) || HasAtom(b))
    ensures LastChargeMult(a + b) == if LastChargeMult(b).Some? then LastChargeMult(b) else LastChargeMult(a)
    decreases |a|
  {
    if |a| == 0 {
      assert a + b == b;
    } else {
      assert (a + b)[1..] == a[1..] + b;
      CountsAppend(a[1..], b);
    }
  }

  /** A run of atom lines. */
  lemma {:induction false} AtomRun(a: seq<Psi4Line>)
    requires forall i :: 0 <= i < |a| ==> a[i].AtomLine?
    ensures Psi4Geometry.AtomCount(a) == |a| && ChargeMultCount(a) == 0 && LastChargeMult(a) == None
    ensures HasAtom(a) == (|a| > 0) && NoMarkers(a)
    decreases |a|
  {
    if |a| > 0 {
      AtomRun(a[1..]);
    }
  }

  /** A block carries no atom and no charge line. */
  predicate Inert(b: seq<Psi4Line>) {
    Psi4Geometry.AtomCount(b) == 0 && ChargeMultCount(b) == 0 && LastChargeMult(b) == None && !HasAtom(b)
  }

  /** Block `b` holds `n` atoms and, as its only charge line, `last` when
      there is one. */
  predicate BlockFits(b: seq<Psi4Line>, n: nat, last: Option<Psi4Line>) {
    && Psi4Geometry.AtomCount(b) == n
    && HasAtom(b) == (n > 0)
    && ChargeMultCount(b) == (if last.Some? then 1 else 0)
    && LastChargeMult(b) == last
  }

  /** The charge line fragment `k` is written with: only when it has a real
      atom, and with the charge truncated. */
  function ChargeLineOf(m: Molecule, k: nat): Option<Psi4Line>
    requires WellFormed(m) && k < |m.fragments| && m.fragmentMultiplicities[k] >= 0
  {
    if FragmentHasReal(m, k)
    then Some(ChargeMult(Trunc(m.fragmentCharges[k]), m.fragmentMultiplicities[k])) else None
  }

  /** Block `b` is what fragment `k` reads back as: its atoms, and its
      charge line when it has a real atom. */
  predicate BlockMatches(m: Molecule, k: nat, b: seq<Psi4Line>)
    requires WellFormed(m) && UnsignedMultiplicities(m) && k < |m.fragments|
  {
    BlockFits(b, |m.fragments[k]|, ChargeLineOf(m, k))
  }

  /** What the text needs for the parser to read it back: well formed,
      consecutive non-empty fragments covering every atom, multiplicities
      without a sign, symbols of one to three letters the table knows, and
      coordinates whose printed form reads as a number. */
  predicate Rereadable(m: Molecule, t: Table, fmt: real -> string, parse: string -> Entry) {
    && WellFormed(m)
    && |m.fragments| > 0
    && m.fragments == SizedRanges(0, Sizes(m.fragments))
    && SumNat(Sizes(m.fragments)) == |m.symbols|
    && (forall k :: 0 <= k < |m.fragments| ==> |m.fragments[k]| > 0)
    && UnsignedMultiplicities(m)
    && ShapedSymbols(m)
    && (forall i :: 0 <= i < |m.symbols| ==> Upper(m.symbols[i]) in t.bySymbol)
    && (forall i, c :: 0 <= i < |m.symbols| && 0 <= c < 3 ==> parse(Strip(fmt(m.geometry[i][c]))).Number?)
  }

  /** Fragment `k`'s charge line, when it has a real atom, read back. */
  function ChargeRead(m: Molecule, k: nat): seq<Psi4Line>
    requires WellFormed(m) && k < |m.fragments| && m.fragmentMultiplicities[k] >= 0
  {
    if FragmentHasReal(m, k)
    then [ChargeMult(Trunc(m.fragmentCharges[k]), m.fragmentMultiplicities[k])] else []
  }
  /** Fragment `k`'s atom lines read back. */
  function AtomsRead(m: Molecule, k: nat, fmt: real -> string): seq<Psi4Line>
    requires WellFormed(m) && k < |m.fragments|
  {
    FragmentIndices(m, k);
    ReadAll(AtomsOut(m, m.fragments[k]), fmt)
  }

  predicate ShapedSymbols(m: Molecule) {
    forall i :: 0 <= i < |m.symbols| ==> SymbolShaped(m.symbols[i])
  }

  lemma AtomsReadAreAtoms(m: Molecule, k: nat, fmt: real -> string)
    requires WellFormed(m) && k < |m.fragments| && ShapedSymbols(m)
    ensures forall j :: 0 <= j < |AtomsRead(m, k, fmt)| ==> AtomsRead(m, k, fmt)[j].AtomLine?
  {
    FragmentIndices(m, k);
    var atoms := AtomsRead(m, k, fmt);
    forall j | 0 <= j < |atoms| ensures atoms[j].AtomLine? {
      ReadAllIndex(AtomsOut(m, m.fragments[k]), fmt, j);
    }
  }

  lemma ChargeReadCounts(m: Molecule, k: nat)
    requires WellFormed(m) && k < |m.fragments| && m.fragmentMultiplicities[k] >= 0
    ensures var cm, c := ChargeRead(m, k), ChargeLineOf(m, k);
            && NoMarkers(cm) && Psi4Geometry.AtomCount(cm) == 0 && !HasAtom(cm)
            && ChargeMultCount(cm) == (if c.Some? then 1 else 0)
            && LastChargeMult(cm) == c
  {
    var cm := ChargeRead(m, k);
    if |cm| > 0 {
      assert cm[1..] == [];
    }
  }
  /** A charge line, or none, followed by a run of atoms is a marker-free
      block holding those atoms and that charge line. */
  lemma PieceFits(cm: seq<Psi4Line>, atoms: seq<Psi4Line>, last: Option<Psi4Line>)
    requires NoMarkers(cm) && Psi4Geometry.AtomCount(cm) == 0 && !HasAtom(cm)
    requires ChargeMultCount(cm) == (if last.Some? then 1 else 0) && LastChargeMult(cm) == last
    requires forall i :: 0 <= i < |atoms| ==> atoms[i].AtomLine?
    ensures NoMarkers(cm + atoms) && BlockFits(cm + atoms, |atoms|, last)
  {
    AtomRun(atoms);
    CountsAppend(cm, atoms);
    assert forall i :: |cm| <= i < |cm + atoms| ==> (cm + atoms)[i] == atoms[i - |cm|];
  }

  /** The piece of a fragment after its divider, read back, has no marker
      and reads as that fragment. */
  lemma FragmentPiece(m: Molecule, k: nat, fmt: real -> string)
    requires WellFormed(m) && UnsignedMultiplicities(m) && ShapedSymbols(m) && k < |m.fragments|
    ensures NoMarkers(ChargeRead(m, k) + AtomsRead(m, k, fmt))
    ensures BlockMatches(m, k, ChargeRead(m, k) + AtomsRead(m, k, fmt))
  {
    AtomsReadAreAtoms(m, k, fmt);
    ChargeReadCounts(m, k);
    PieceFits(ChargeRead(m, k), AtomsRead(m, k, fmt), ChargeLineOf(m, k));
  }

  /** Inert lines after a block change nothing it reads as. */
  lemma FitsInert(b: seq<Psi4Line>, x: seq<Psi4Line>, n: nat, last: Option<Psi4Line>)
    requires BlockFits(b, n, last) && Inert(x)
    ensures BlockFits(b + x, n, last)
  {
    CountsAppend(b, x);
  }

  /** The lines from fragment `num` on, trailer included, read back. */
  function TailLines(m: Molecule, num: nat, fmt: real -> string): seq<Psi4Line>
    requires WellFormed(m) && num <= |m.fragments|
  {
    ReadAll(FragmentsOut(m, num, true) + Trailer, fmt)
  }

  /** A fragment's header lines, read back. */
  lemma HeadRead(m: Molecule, num: nat, fmt: real -> string)
    requires WellFormed(m) && num < |m.fragments| && m.fragmentMultiplicities[num] >= 0
    ensures ReadAll(Head(m, num, true), fmt)
            == (if num > 0 then [FragmentMarker] else if FragmentHasReal(m, num) then [Skip] else [])
               + ChargeRead(m, num)
  {
  }

  lemma ReadAllThree(h: seq<OutLine>, a: seq<OutLine>, rest: seq<OutLine>, fmt: real -> string,
                     p: seq<Psi4Line>, c: seq<Psi4Line>)
    requires ReadAll(h, fmt) == p + c
    ensures ReadAll((h + a) + rest, fmt) == p + ((c + ReadAll(a, fmt)) + ReadAll(rest, fmt))
  {
    ReadAllAppend(h + a, rest, fmt);
    ReadAllAppend(h, a, fmt);
  }

  lemma Regroup<T>(x: seq<T>, h: seq<T>, a: seq<T>, f: seq<T>, t: seq<T>)
    ensures (x + ((h + a) + f)) + t == ((x + h) + a) + (f + t)
  {
  }

  lemma FragmentsOutUnfold(m: Molecule, num: nat, corrected: bool)
    requires WellFormed(m) && num < |m.fragments|
    ensures IndicesIn(m.fragments[num], |m.symbols|)
    ensures FragmentsOut(m, num, corrected)
            == (Head(m, num, corrected) + AtomsOut(m, m.fragments[num])) + FragmentsOut(m, num + 1, corrected)
  {
  }

  /** The skipped lines before the first fragment's charge line. */
  function Lead(m: Molecule): seq<Psi4Line>
    requires WellFormed(m) && 0 < |m.fragments|
  {
    [Skip] + (if FragmentHasReal(m, 0) then [Skip] else [])
  }

  lemma LeadSkips(m: Molecule)
    requires WellFormed(m) && 0 < |m.fragments|
    ensures forall i :: 0 <= i < |Lead(m)| ==> Lead(m)[i] == Skip
  {
  }

  lemma LeadRead(m: Molecule, fmt: real -> string)
    requires WellFormed(m) && 0 < |m.fragments| && m.fragmentMultiplicities[0] >= 0
    ensures ReadAll([Blank(0)] + Head(m, 0, true), fmt) == Lead(m) + ChargeRead(m, 0)
  {
    ReadAllAppend([Blank(0)], Head(m, 0, true), fmt);
    HeadRead(m, 0, fmt);
  }

  lemma LayoutStep(m: Molecule)
    requires WellFormed(m) && 0 < |m.fragments|
    ensures IndicesIn(m.fragments[0], |m.symbols|)
    ensures Layout(m, true)
            == ([Blank(0)] + Head(m, 0, true) + AtomsOut(m, m.fragments[0])) + (FragmentsOut(m, 1, true) + Trailer)
  {
    FragmentsOutUnfold(m, 0, true);
    Regroup([Blank(0)], Head(m, 0, true), AtomsOut(m, m.fragments[0]), FragmentsOut(m, 1, true), Trailer);
  }

  lemma LayoutSplit(m: Molecule, fmt: real -> string)
    requires WellFormed(m) && 0 < |m.fragments| && m.fragmentMultiplicities[0] >= 0
    ensures Reread(m, fmt, true)
            == (Lead(m) + (ChargeRead(m, 0) + AtomsRead(m, 0, fmt))) + TailLines(m, 1, fmt)
  {
    LayoutStep(m);
    LeadRead(m, fmt);
    ReadAllThree([Blank(0)] + Head(m, 0, true), AtomsOut(m, m.fragments[0]), FragmentsOut(m, 1, true) + Trailer,
                 fmt, Lead(m), ChargeRead(m, 0));
    Assoc(Lead(m), ChargeRead(m, 0) + AtomsRead(m, 0, fmt), TailLines(m, 1, fmt));
  }

  /** The trailer read back: skipped, then the three keywords. */
  function TrailerRead(fmt: real -> string): seq<Psi4Line> {
    ReadAll(Trailer, fmt)
  }

  /** Lines that are neither atoms, charge lines nor markers form one
      inert block. */
  lemma {:induction false} PlainLines(b: seq<Psi4Line>)
    requires forall i :: 0 <= i < |b| ==> !b[i].AtomLine? && !b[i].ChargeMult? && !b[i].FragmentMarker?
    ensures Blocks(b) == [b] && Inert(b)
    decreases |b|
  {
    if |b| > 0 {
      PlainLines(b[1..]);
      assert [b[0]] + b[1..] == b;
    }
  }

  lemma TrailerBlocks(fmt: real -> string)
    ensures Blocks(TrailerRead(fmt)) == [TrailerRead(fmt)]
    ensures Inert(TrailerRead(fmt))
  {
    var tr := TrailerRead(fmt);
    assert tr == [Skip, UnitsBohr, NoCom, NoReorient];
    PlainLines(tr);
  }

  /** Every multiplicity is written without a sign. */
  predicate UnsignedMultiplicities(m: Molecule)
    requires WellFormed(m)
  {
    forall k :: 0 <= k < |m.fragments| ==> m.fragmentMultiplicities[k] >= 0
  }

  /** Each fragment's charge line and atoms, read back. */
  function Pieces(m: Molecule, fmt: real -> string): (r: seq<seq<Psi4Line>>)
    requires WellFormed(m) && UnsignedMultiplicities(m)
    ensures |r| == |m.fragments|
  {
    seq(|m.fragments|, k requires 0 <= k < |m.fragments| => ChargeRead(m, k) + AtomsRead(m, k, fmt))
  }

  /** Skipped lines in front of a block change none of its counts. */
  lemma {:induction false} SkipPrefix(lead: seq<Psi4Line>, b: seq<Psi4Line>)
    requires forall i :: 0 <= i < |lead| ==> lead[i] == Skip
    ensures NoMarkers(lead)
    ensures Psi4Geometry.AtomCount(lead + b) == Psi4Geometry.AtomCount(b)
    ensures ChargeMultCount(lead + b) == ChargeMultCount(b)
    ensures LastChargeMult(lead + b) == LastChargeMult(b)
    ensures HasAtom(lead + b) == HasAtom(b)
    decreases |lead|
  {
    if |lead| == 0 {
      assert lead + b == b;
    } else {
      SkipPrefix(lead[1..], b);
      assert (lead + b)[1..] == lead[1..] + b;
    }
  }

  /** Pieces, each behind a marker, then a tail. */
  function Chain(ps: seq<seq<Psi4Line>>, tail: seq<Psi4Line>): seq<Psi4Line>
    decreases |ps|
  {
    if |ps| == 0 then tail else [FragmentMarker] + (ps[0] + Chain(ps[1..], tail))
  }

  /** A chain of marker-free pieces splits back into its pieces, the tail
      joining the last one. */
  lemma {:induction false} ChainBlocks(ps: seq<seq<Psi4Line>>, tail: seq<Psi4Line>)
    requires forall k :: 0 <= k < |ps| ==> NoMarkers(ps[k])
    requires Blocks(tail) == [tail]
    ensures var bs := Blocks(Chain(ps, tail));
            && |bs| == |ps| + 1
            && bs[0] == (if |ps| == 0 then tail else [])
            && forall j :: 1 <= j < |bs| ==> bs[j] == ps[j - 1] + (if j == |ps| then tail else [])
    decreases |ps|
  {
    if |ps| > 0 {
      var rest := Chain(ps[1..], tail);
      ChainBlocks(ps[1..], tail);
      BlocksMarker(ps[0] + rest);
      BlocksPlain(ps[0], rest);
      var bs, rbs := Blocks(Chain(ps, tail)), Blocks(rest);
      assert bs == [[]] + ([ps[0] + rbs[0]] + rbs[1..]);
      forall j | 1 <= j < |bs| ensures bs[j] == ps[j - 1] + (if j == |ps| then tail else []) {
        if j > 1 {
          assert bs[j] == rbs[j - 1];
        }
      }
    }
  }

  /** The pieces from index `i` on, each behind a marker, then a tail. */
  function ChainFrom(ps: seq<seq<Psi4Line>>, i: nat, tail: seq<Psi4Line>): seq<Psi4Line>
    requires i <= |ps|
    decreases |ps| - i
  {
    if i == |ps| then tail else [FragmentMarker] + (ps[i] + ChainFrom(ps, i + 1, tail))
  }

  lemma {:induction false} ChainFromDrop(ps: seq<seq<Psi4Line>>, i: nat, tail: seq<Psi4Line>)
    requires i <= |ps|
    ensures ChainFrom(ps, i, tail) == Chain(ps[i..], tail)
    decreases |ps| - i
  {
    if i < |ps| {
      ChainFromDrop(ps, i + 1, tail);
      assert ps[i..][1..] == ps[i + 1..];
    }
  }

  /** Groups that each read back as a marker and a piece, followed by any
      lines, read back as the chain of the pieces. */
  lemma {:induction false} ReadChain(gs: seq<seq<OutLine>>, ps: seq<seq<Psi4Line>>, tr: seq<OutLine>,
                                     fmt: real -> string, i: nat)
    requires |gs| == |ps| && i <= |gs|
    requires forall k :: i <= k < |gs| ==> ReadAll(gs[k], fmt) == [FragmentMarker] + ps[k]
    ensures ReadAll(Concat(gs, i) + tr, fmt) == ChainFrom(ps, i, ReadAll(tr, fmt))
    decreases |gs| - i
  {
    if i == |gs| {
      assert Concat(gs, i) + tr == tr;
    } else {
      ReadChain(gs, ps, tr, fmt, i + 1);
      Assoc(gs[i], Concat(gs, i + 1), tr);
      ReadAllAppend(gs[i], Concat(gs, i + 1) + tr, fmt);
      Assoc([FragmentMarker], ps[i], ChainFrom(ps, i + 1, ReadAll(tr, fmt)));
    }
  }

  /** A fragment after the first reads back as its divider, then its piece. */
  lemma GroupRead(m: Molecule, k: nat, fmt: real -> string)
    requires WellFormed(m) && UnsignedMultiplicities(m) && 1 <= k < |m.fragments|
    ensures ReadAll(Groups(m, true)[k], fmt) == [FragmentMarker] + Pieces(m, fmt)[k]
  {
    FragmentIndices(m, k);
    var h, a := Head(m, k, true), AtomsOut(m, m.fragments[k]);
    assert Groups(m, true)[k] == h + a;
    ReadAllAppend(h, a, fmt);
    HeadRead(m, k, fmt);
    assert Pieces(m, fmt)[k] == ChargeRead(m, k) + AtomsRead(m, k, fmt);
    Assoc([FragmentMarker], ChargeRead(m, k), AtomsRead(m, k, fmt));
  }

  /** From fragment `num` (not the first) on, the corrected text read back
      is the fragments' pieces behind their dividers, then the trailer. */
  lemma TailChain(m: Molecule, num: nat, fmt: real -> string)
    requires WellFormed(m) && UnsignedMultiplicities(m) && 1 <= num <= |m.fragments|
    ensures TailLines(m, num, fmt) == ChainFrom(Pieces(m, fmt), num, TrailerRead(fmt))
  {
    var gs := Groups(m, true);
    FragmentsOutConcat(m, num, true);
    forall k | num <= k < |m.fragments| ensures ReadAll(gs[k], fmt) == [FragmentMarker] + Pieces(m, fmt)[k] {
      GroupRead(m, k, fmt);
    }
    ReadChain(gs, Pieces(m, fmt), Trailer, fmt, num);
  }

  /** From fragment 1 on, the blocks of the corrected text read back: an
      empty one before the first divider (or the trailer alone), then each
      fragment's piece, the last followed by the trailer. */
  lemma TailShapes(m: Molecule, fmt: real -> string)
    requires WellFormed(m) && UnsignedMultiplicities(m) && 0 < |m.fragments|
    requires forall k :: 0 <= k < |m.fragments| ==> NoMarkers(Pieces(m, fmt)[k])
    ensures var rbs := Blocks(TailLines(m, 1, fmt));
            && |rbs| == |m.fragments|
            && rbs[0] == (if |m.fragments| == 1 then TrailerRead(fmt) else [])
            && forall k :: 1 <= k < |rbs| ==>
                 rbs[k] == Pieces(m, fmt)[k] + (if k + 1 == |m.fragments| then TrailerRead(fmt) else [])
  {
    var ps := Pieces(m, fmt);
    TailChain(m, 1, fmt);
    ChainFromDrop(ps, 1, TrailerRead(fmt));
    TrailerBlocks(fmt);
    ChainBlocks(ps[1..], TrailerRead(fmt));
    assert forall k :: 1 <= k < |ps| ==> ps[1..][k - 1] == ps[k];
  }

  /** The first block of the corrected text read back holds the leading
      skipped lines, fragment 0's piece and whatever precedes the first
      divider; the rest are the tail's blocks. */
  lemma HeadShape(m: Molecule, fmt: real -> string)
    requires WellFormed(m) && UnsignedMultiplicities(m) && 0 < |m.fragments|
    requires NoMarkers(Pieces(m, fmt)[0])
    ensures var rbs := Blocks(TailLines(m, 1, fmt));
            Blocks(Reread(m, fmt, true)) == [Lead(m) + (Pieces(m, fmt)[0] + rbs[0])] + rbs[1..]
  {
    var lead, piece, rest := Lead(m), Pieces(m, fmt)[0], TailLines(m, 1, fmt);
    LayoutSplit(m, fmt);
    SkipPrefix(lead, piece);
    BlocksPlain(lead + piece, rest);
    Assoc(lead, piece, Blocks(rest)[0]);
  }

  /** The corrected text read back splits into one block per fragment: its
      piece, the first behind the leading skipped lines and the last
      followed by the trailer. */
  lemma LayoutBlockShapes(m: Molecule, fmt: real -> string)
    requires WellFormed(m) && UnsignedMultiplicities(m) && 0 < |m.fragments|
    requires forall k :: 0 <= k < |m.fragments| ==> NoMarkers(Pieces(m, fmt)[k])
    ensures var bs := Blocks(Reread(m, fmt, true));
            && |bs| == |m.fragments|
            && forall k :: 0 <= k < |bs| ==>
                 bs[k] == (if k == 0 then Lead(m) else []) + (Pieces(m, fmt)[k]
                          + (if k + 1 == |m.fragments| then TrailerRead(fmt) else []))
  {
    TailShapes(m, fmt);
    HeadShape(m, fmt);
    JoinHead(Blocks(Reread(m, fmt, true)), Blocks(TailLines(m, 1, fmt)), Lead(m), Pieces(m, fmt), TrailerRead(fmt));
  }

  /** Prefixing the first of the tail's blocks and the pieces line up. */
  lemma JoinHead<T>(bs: seq<seq<T>>, rbs: seq<seq<T>>, lead: seq<T>, ps: seq<seq<T>>, tr: seq<T>)
    requires 0 < |ps| == |rbs|
    requires rbs[0] == (if |ps| == 1 then tr else [])
    requires forall k :: 1 <= k < |rbs| ==> rbs[k] == ps[k] + (if k + 1 == |ps| then tr else [])
    requires bs == [lead + (ps[0] + rbs[0])] + rbs[1..]
    ensures |bs| == |ps|
    ensures forall k :: 0 <= k < |bs| ==>
              bs[k] == (if k == 0 then lead else []) + (ps[k] + (if k + 1 == |ps| then tr else []))
  {
    forall k | 0 <= k < |bs|
      ensures bs[k] == (if k == 0 then lead else []) + (ps[k] + (if k + 1 == |ps| then tr else []))
    {
      if k > 0 {
        assert bs[k] == rbs[k];
      }
    }
  }

  lemma PieceMatches(m: Molecule, k: nat, fmt: real -> string, x: seq<Psi4Line>)
    requires WellFormed(m) && UnsignedMultiplicities(m) && ShapedSymbols(m) && k < |m.fragments|
    requires Inert(x)
    ensures BlockMatches(m, k, Pieces(m, fmt)[k] + x)
  {
    FragmentPiece(m, k, fmt);
    assert Pieces(m, fmt)[k] == ChargeRead(m, k) + AtomsRead(m, k, fmt);
    FitsInert(Pieces(m, fmt)[k], x, |m.fragments[k]|, ChargeLineOf(m, k));
  }

  /** The block fragment `k` is read into matches it. */
  lemma ShapeMatches(m: Molecule, k: nat, fmt: real -> string)
    requires WellFormed(m) && UnsignedMultiplicities(m) && ShapedSymbols(m) && k < |m.fragments|
    ensures BlockMatches(m, k, (if k == 0 then Lead(m) else [])
                               + (Pieces(m, fmt)[k] + (if k + 1 == |m.fragments| then TrailerRead(fmt) else [])))
  {
    var x := if k + 1 == |m.fragments| then TrailerRead(fmt) else [];
    TrailerBlocks(fmt);
    assert Inert([]);
    PieceMatches(m, k, fmt, x);
    LeadSkips(m);
    FitsShape(Lead(m), Pieces(m, fmt)[k] + x, |m.fragments[k]|, ChargeLineOf(m, k), k == 0);
  }

  /** Skipped lines, when present, in front of a block change nothing it
      reads as. */
  lemma FitsShape(lead: seq<Psi4Line>, b: seq<Psi4Line>, n: nat, last: Option<Psi4Line>, first: bool)
    requires forall i :: 0 <= i < |lead| ==> lead[i] == Skip
    requires BlockFits(b, n, last)
    ensures BlockFits((if first then lead else []) + b, n, last)
  {
    if first {
      SkipPrefix(lead, b);
    } else {
      assert [] + b == b;
    }
  }

  /** The corrected text read back splits into one block per fragment, each
      holding that fragment's atoms and, when it has a real atom, its charge
      line. */
  lemma LayoutBlocks(m: Molecule, fmt: real -> string)
    requires WellFormed(m) && UnsignedMultiplicities(m) && ShapedSymbols(m) && 0 < |m.fragments|
    ensures var bs := Blocks(Reread(m, fmt, true));
            && |bs| == |m.fragments|
            && forall k :: 0 <= k < |bs| ==> BlockMatches(m, k, bs[k])
  {
    forall k | 0 <= k < |m.fragments| ensures NoMarkers(Pieces(m, fmt)[k]) {
      FragmentPiece(m, k, fmt);
    }
    LayoutBlockShapes(m, fmt);
    forall k | 0 <= k < |m.fragments| ensures BlockMatches(m, k, Blocks(Reread(m, fmt, true))[k]) {
      ShapeMatches(m, k, fmt);
    }
  }
}
