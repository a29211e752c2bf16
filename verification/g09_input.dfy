/** The sections of the Gaussian input deck (`_route`, `_title`,
    `_rotation_wls` and `_geometry_sec`, optrotvib/engine/g09_engine.py).

    Each section is a list of lines; the float formats (`{:20.12f}` for a
    coordinate, `{}` for a wavelength) and the Bohr-to-Ångström factor are
    parameters.  What the lines mean is stated through the words Gaussian
    reads from them: `Words` is `str.split()`.
 */
module G09Input {

  import opened Results
  import opened Strs
  import opened Psi4Writer

  /** A dictionary entry that may be absent, present but `None`, or set. */
  datatype Entry<T> = Absent | Null | Present(value: T)

  /** The model chemistry: the entries `_route` reads. */
  datatype ModelChem = ModelChem(methodName: Option<string>, basis: Option<string>)

  /** The molecule entries `_geometry_sec` reads. */
  datatype MolInput = MolInput(charge: Option<real>, multiplicity: Option<int>,
                               symbols: Option<seq<string>>, geometry: Option<seq<real>>)

  /** `"{}".format(x)` for an optional string. */
  function Shown(x: Option<string>): string {
    match x
    case None => "None"
    case Some(s) => s
  }

  // ---------------------------------------------------------------------
  // _route

  const ScfKeywords := "scf(conver=11) int=ultrafine"

  /** The job keyword slot after `#P`: `Force`, `Freq`, an empty word for a
      rotation, nothing otherwise. */
  function JobSlot(driver: string): seq<string> {
    if driver == "gradient" then ["Force"]
    else if driver == "hessian" then ["Freq"]
    else if driver == "rotation" then [""]
    else []
  }

  function RotationExtras(driver: string): seq<string> {
    if driver == "rotation" then ["polar=OptRot", "cphf(RdFreq,conver=11)"] else []
  }

  function RouteParts(driver: string, mc: ModelChem): seq<string> {
    ["#P"] + JobSlot(driver) + [Shown(mc.methodName) + "/" + Shown(mc.basis), ScfKeywords] + RotationExtras(driver)
  }

  /** `_route(driver, input_json)`: the route line and the blank line that
      ends the route section.  A missing `modelchem` is a KeyError and a
      `None` one an AttributeError. */
  function Route(driver: string, mc: Entry<ModelChem>): (r: Result<seq<string>>)
    ensures mc.Absent? ==> r.Err? && r.error.KeyError?
    ensures mc.Null? ==> r.Err? && r.error.AttributeError?
    ensures mc.Present? <==> r.Ok?
    ensures r.Ok? ==> |r.value| == 2 && r.value[1] == "" && StartsWith(r.value[0], "#P ")
  {
    match mc
    case Absent => Err(KeyError("'modelchem'"))
    case Null => Err(AttributeError("'NoneType' object has no attribute 'get'"))
    case Present(m) =>
      var line := Join(RouteParts(driver, m), " ");
      assert line == "#P" + " " + Join(RouteParts(driver, m)[1..], " ");
      Ok([line, ""])
  }

  /** The keyword Gaussian reads for the job type. */
  function JobKeywords(driver: string): seq<string> {
    if driver == "gradient" then ["Force"]
    else if driver == "hessian" then ["Freq"]
    else []
  }

  /** The route line's words: `#P`, the job keyword (none for an energy or
      a rotation), `method/basis`, the SCF and grid keywords and, for a
      rotation, the optical-rotation keywords. */
  lemma RouteWords(driver: string, m: ModelChem)
    requires NoSpace(Shown(m.methodName)) && NoSpace(Shown(m.basis))
    ensures var r := Route(driver, Present(m));
            && r.Ok?
            && Words(r.value[0])
               == ["#P"] + JobKeywords(driver)
                  + [Shown(m.methodName) + "/" + Shown(m.basis), "scf(conver=11)", "int=ultrafine"]
                  + RotationExtras(driver)
  {
    var mb := Shown(m.methodName) + "/" + Shown(m.basis);
    SlashWord(Shown(m.methodName), Shown(m.basis));
    var pre := ["#P"] + JobSlot(driver);
    var post := [mb, ScfKeywords] + RotationExtras(driver);
    assert RouteParts(driver, m) == pre + post;
    WordsOfJoin(pre + post);
    WordsOfLinesAppend(pre, post);
    JobWords(driver);
    TailWords(mb, driver);
  }

  lemma SlashWord(a: string, b: string)
    requires NoSpace(a) && NoSpace(b)
    ensures IsWord(a + "/" + b)
  {
    var w := a + "/" + b;
    forall i | 0 <= i < |w| ensures !IsSpace(w[i]) {
      if i < |a| {
        assert w[i] == a[i];
      } else if i > |a| {
        assert w[i] == b[i - |a| - 1];
      }
    }
  }

  lemma JobWords(driver: string)
    ensures WordsOfLines(["#P"] + JobSlot(driver)) == ["#P"] + JobKeywords(driver)
  {
    var job := JobSlot(driver);
    WordsOfLinesAppend(["#P"], job);
    WordsOfLinesOfWords(["#P"]);
    if driver == "rotation" {
      assert Words("") == [];
      assert WordsOfLines(job) == [] + [];
    } else {
      WordsOfLinesOfWords(job);
    }
  }

  lemma TailWords(mb: string, driver: string)
    requires IsWord(mb)
    ensures WordsOfLines([mb, ScfKeywords] + RotationExtras(driver))
            == [mb, "scf(conver=11)", "int=ultrafine"] + RotationExtras(driver)
  {
    var extras := RotationExtras(driver);
    WordsOfLinesAppend([mb, ScfKeywords], extras);
    assert [mb, ScfKeywords] == [mb] + [ScfKeywords];
    WordsOfLinesAppend([mb], [ScfKeywords]);
    WordsOfLinesOfWords([mb]);
    ScfWords();
    ExtrasAreWords(driver);
    WordsOfLinesOfWords(extras);
  }

  lemma ExtrasAreWords(driver: string)
    ensures forall k :: 0 <= k < |RotationExtras(driver)| ==> IsWord(RotationExtras(driver)[k])
  {
    assert IsWord("polar=OptRot");
    assert IsWord("cphf(RdFreq,conver=11)");
  }

  lemma ScfWords()
    ensures WordsOfLines([ScfKeywords]) == ["scf(conver=11)", "int=ultrafine"]
  {
    var ws := ["scf(conver=11)", "int=ultrafine"];
    assert Join(ws, " ") == ScfKeywords;
    WordsJoinRoundTrip(ws);
  }

  // ---------------------------------------------------------------------
  // _title

  const NoName := "(no name)"

  function NameOr(name: Option<string>): string {
    match name
    case None => NoName
    case Some(n) => n
  }

  /** `_title(driver, mol_name, modelchem_name)`: the title line, with
      `(no name)` for a missing name, and the blank line after it. */
  function Title(driver: string, molName: Option<string>, mcName: Option<string>): (r: seq<string>)
    ensures |r| == 2 && r[1] == ""
  {
    [Join([driver, "mol", NameOr(molName), "mc", NameOr(mcName)], " "), ""]
  }

  /** The title's words: the driver, `mol`, the molecule's name (or
      `(no name)`), `mc`, the model chemistry's name (or `(no name)`). */
  lemma TitleWords(driver: string, molName: Option<string>, mcName: Option<string>)
    requires IsWord(driver)
    ensures Words(Title(driver, molName, mcName)[0])
            == [driver] + ["mol"] + Words(NameOr(molName)) + ["mc"] + Words(NameOr(mcName))
  {
    var a := NameOr(molName);
    var b := NameOr(mcName);
    assert Title(driver, molName, mcName)[0] == Join([driver, "mol", a, "mc", b], " ");
    FiveWords(driver, "mol", a, "mc", b);
    WordsOfWord(driver);
    MarkerWords();
  }

  lemma MarkerWords()
    ensures Words("mol") == ["mol"] && Words("mc") == ["mc"]
  {
    WordsOfWord("mol");
    WordsOfWord("mc");
  }

  /** Five texts joined by spaces split into their words, in order. */
  lemma FiveWords(a: string, b: string, c: string, d: string, e: string)
    ensures Words(Join([a, b, c, d, e], " ")) == Words(a) + Words(b) + Words(c) + Words(d) + Words(e)
  {
    var ps := [a, b, c, d, e];
    WordsOfJoin(ps);
    assert ps[1..] == [b, c, d, e] && ps[1..][1..] == [c, d, e];
    assert ps[1..][1..][1..] == [d, e] && ps[1..][1..][1..][1..] == [e];
    assert WordsOfLines([e]) == Words(e) + [];
    assert WordsOfLines([d, e]) == Words(d) + Words(e);
    assert WordsOfLines([c, d, e]) == Words(c) + Words(d) + Words(e);
    assert WordsOfLines([b, c, d, e]) == Words(b) + Words(c) + Words(d) + Words(e);
  }

  /** A missing name reads as the two words `(no` and `name)`. */
  lemma NoNameWords()
    ensures Words(NoName) == ["(no", "name)"]
  {
    assert Join(["(no", "name)"], " ") == NoName;
    WordsJoinRoundTrip(["(no", "name)"]);
  }

  // ---------------------------------------------------------------------
  // _rotation_wls

  /** `_rotation_wls(omegas)`: one `<x>nm` line per wavelength, `show`
      being `"{}".format` of a number. */
  function RotationWls(omegas: seq<real>, show: real -> string): (r: seq<string>)
    ensures |r| == |omegas|
    ensures forall k :: 0 <= k < |r| ==> EndsWith(r[k], "nm") && r[k][..|r[k]| - 2] == show(omegas[k])
  {
    seq(|omegas|, k requires 0 <= k < |omegas| => show(omegas[k]) + "nm")
  }

  const NmUnit: set<char> := {'n', 'm'}

  /** A number's text Gaussian can read back: it neither starts nor ends
      with `n` or `m`. */
  predicate Unframed(w: string) {
    |w| > 0 && w[0] !in NmUnit && w[|w| - 1] !in NmUnit
  }

  /** Each wavelength line, its unit stripped, reads back as the wavelength
      whenever `show`'s text does. */
  lemma RotationWlsRead(omegas: seq<real>, show: real -> string, pf: string -> Option<real>, k: nat)
    requires k < |omegas|
    requires Unframed(show(omegas[k])) && pf(show(omegas[k])) == Some(omegas[k])
    ensures pf(StripChars(RotationWls(omegas, show)[k], NmUnit)) == Some(omegas[k])
  {
    var w := show(omegas[k]);
    assert forall i :: 0 <= i < |"nm"| ==> "nm"[i] in NmUnit by {
      assert "nm" == ['n', 'm'];
    }
    StripCharsFramed("", w, "nm", NmUnit);
    assert "" + w + "nm" == RotationWls(omegas, show)[k];
  }

  // ---------------------------------------------------------------------
  // _geometry_sec

  /** `"{}".format` of an optional integer. */
  function IntShown(x: Option<int>): string {
    match x
    case None => "None"
    case Some(i) => IntToString(i)
  }

  /** The charge and multiplicity line: `int(charge)`, which truncates. */
  function ChargeLine(charge: real, multiplicity: Option<int>): string {
    IntToString(Trunc(charge)) + " " + IntShown(multiplicity)
  }

  /** One atom's line: the symbol and its three coordinates in Ångström. */
  function AtomLine(symbol: string, g: seq<real>, i: nat, fmt: real -> string, bohr2ang: real): string
    requires 3 * i + 2 < |g|
  {
    Join([symbol, fmt(g[3 * i] * bohr2ang), fmt(g[3 * i + 1] * bohr2ang), fmt(g[3 * i + 2] * bohr2ang)], " ")
  }

  /** The atom lines for the symbols, three coordinates each. */
  function AtomLines(syms: seq<string>, g: seq<real>, fmt: real -> string, bohr2ang: real): (r: seq<string>)
    requires |g| >= 3 * |syms|
    ensures |r| == |syms|
    ensures forall i :: 0 <= i < |syms| ==> r[i] == AtomLine(syms[i], g, i, fmt, bohr2ang)
  {
    seq(|syms|, i requires 0 <= i < |syms| => AtomLine(syms[i], g, i, fmt, bohr2ang))
  }

  /** Whether the molecule's entries are enough to write its section. */
  predicate Writable(m: MolInput) {
    && m.charge.Some? && m.symbols.Some?
    && (|m.symbols.value| == 0 || (m.geometry.Some? && |m.geometry.value| >= 3 * |m.symbols.value|))
  }

  /** The atom lines of a writable molecule. */
  function AtomsOf(m: MolInput, fmt: real -> string, bohr2ang: real): (r: seq<string>)
    requires Writable(m)
    ensures |r| == |m.symbols.value|
  {
    if |m.symbols.value| == 0 then [] else AtomLines(m.symbols.value, m.geometry.value, fmt, bohr2ang)
  }

  /** `_geometry_sec(input_json)`: the charge and multiplicity line, one
      line per symbol and a blank line.  A missing molecule is an
      AttributeError; a missing charge, symbol list or (with atoms)
      geometry a TypeError; a geometry shorter than three values per symbol
      an IndexError. */
  function GeometrySec(mol: Option<MolInput>, fmt: real -> string, bohr2ang: real): (r: Result<seq<string>>)
    ensures mol.None? ==> r.Err? && r.error.AttributeError?
    ensures mol.Some? && (mol.value.charge.None? || mol.value.symbols.None?) ==> r.Err? && r.error.TypeError?
    ensures mol.Some? && mol.value.charge.Some? && mol.value.symbols.Some? && |mol.value.symbols.value| > 0 ==>
              && (mol.value.geometry.None? ==> r.Err? && r.error.TypeError?)
              && (mol.value.geometry.Some? && |mol.value.geometry.value| < 3 * |mol.value.symbols.value| ==>
                    r.Err? && r.error.IndexError?)
    ensures r.Ok? <==> mol.Some? && Writable(mol.value)
    ensures r.Ok? ==> && |r.value| == |mol.value.symbols.value| + 2
                      && r.value[0] == ChargeLine(mol.value.charge.value, mol.value.multiplicity)
                      && r.value[1..|r.value| - 1] == AtomsOf(mol.value, fmt, bohr2ang)
                      && r.value[|r.value| - 1] == ""
  {
    if mol.None? then Err(AttributeError("'NoneType' object has no attribute 'get'"))
    else
      var m := mol.value;
      if m.charge.None? then Err(TypeError("int() argument must be a string, a bytes-like object or a real number, not 'NoneType'"))
      else if m.symbols.None? then Err(TypeError("'NoneType' object is not iterable"))
      else if |m.symbols.value| > 0 && m.geometry.None? then Err(TypeError("'NoneType' object is not subscriptable"))
      else if |m.symbols.value| > 0 && |m.geometry.value| < 3 * |m.symbols.value| then Err(IndexError("list index out of range"))
      else
        var atoms := AtomsOf(m, fmt, bohr2ang);
        var r := [ChargeLine(m.charge.value, m.multiplicity)] + atoms + [""];
        assert r[1..|r| - 1] == atoms;
        Ok(r)
  }

  /** `int(s)` of a word, `None` for the text `None`. */
  function ReadOptInt(w: string): Option<Option<int>> {
    if w == "None" then Some(None)
    else match ParseInt(w)
      case None => None
      case Some(i) => Some(Some(i))
  }

  /** The charge line reads back as the truncated charge and the
      multiplicity. */
  lemma ChargeLineRead(charge: real, multiplicity: Option<int>)
    ensures var ws := Words(ChargeLine(charge, multiplicity));
            && |ws| == 2
            && ParseInt(ws[0]) == Some(Trunc(charge))
            && ReadOptInt(ws[1]) == Some(multiplicity)
  {
    var a := IntToString(Trunc(charge));
    var b := IntShown(multiplicity);
    NumberWord(Trunc(charge));
    assert IsWord(b) by {
      if multiplicity.Some? {
        NumberWord(multiplicity.value);
      } else {
        assert b == "None";
      }
    }
    assert Join([a, b], " ") == ChargeLine(charge, multiplicity);
    WordsJoinRoundTrip([a, b]);
    ParseIntOfIntToString(Trunc(charge));
    if multiplicity.Some? {
      ParseIntOfIntToString(multiplicity.value);
      assert IntToString(multiplicity.value) != "None" by {
        assert IsDigit(b[0]) || b[0] == '-';
      }
    }
  }

  /** A printed integer is one word. */
  lemma NumberWord(i: int)
    ensures IsWord(IntToString(i))
  {
    var s := IntToString(i);
    forall k | 0 <= k < |s| ensures !IsSpace(s[k]) {
      if i < 0 && k > 0 {
        assert s[k] == s[1..][k - 1];
      }
    }
  }

  /** An atom line's words: the symbol, then each coordinate's words. */
  lemma AtomLineWords(symbol: string, g: seq<real>, i: nat, fmt: real -> string, bohr2ang: real)
    requires 3 * i + 2 < |g| && IsWord(symbol)
    ensures Words(AtomLine(symbol, g, i, fmt, bohr2ang))
            == [symbol] + Words(fmt(g[3 * i] * bohr2ang)) + Words(fmt(g[3 * i + 1] * bohr2ang))
               + Words(fmt(g[3 * i + 2] * bohr2ang))
  {
    var x := fmt(g[3 * i] * bohr2ang);
    var y := fmt(g[3 * i + 1] * bohr2ang);
    var z := fmt(g[3 * i + 2] * bohr2ang);
    var ps := [symbol, x, y, z];
    WordsOfJoin(ps);
    assert ps == [symbol] + [x] + [y] + [z];
    WordsOfLinesAppend([symbol] + [x] + [y], [z]);
    WordsOfLinesAppend([symbol] + [x], [y]);
    WordsOfLinesAppend([symbol], [x]);
    WordsOfLinesOfWords([symbol]);
    assert WordsOfLines([x]) == Words(x) + [];
    assert WordsOfLines([y]) == Words(y) + [];
    assert WordsOfLines([z]) == Words(z) + [];
  }

  /** `fmt`'s text of `v` is one word that `pf` reads back as `v`. */
  predicate ReadsAs(fmt: real -> string, pf: string -> Option<real>, v: real) {
    |Words(fmt(v))| == 1 && pf(Words(fmt(v))[0]) == Some(v)
  }

  /** How Gaussian reads an atom line: a symbol and three numbers. */
  function ReadAtom(line: string, pf: string -> Option<real>): Option<(string, real, real, real)> {
    var ws := Words(line);
    if |ws| != 4 then None
    else match (pf(ws[1]), pf(ws[2]), pf(ws[3]))
      case (Some(x), Some(y), Some(z)) => Some((ws[0], x, y, z))
      case _ => None
  }

  /** An atom line reads back as the symbol and the coordinates in
      Ångström whenever each coordinate's text does. */
  lemma AtomLineRead(symbol: string, g: seq<real>, i: nat, fmt: real -> string, bohr2ang: real, pf: string -> Option<real>)
    requires 3 * i + 2 < |g| && IsWord(symbol)
    requires ReadsAs(fmt, pf, g[3 * i] * bohr2ang)
    requires ReadsAs(fmt, pf, g[3 * i + 1] * bohr2ang)
    requires ReadsAs(fmt, pf, g[3 * i + 2] * bohr2ang)
    ensures ReadAtom(AtomLine(symbol, g, i, fmt, bohr2ang), pf)
            == Some((symbol, g[3 * i] * bohr2ang, g[3 * i + 1] * bohr2ang, g[3 * i + 2] * bohr2ang))
  {
    AtomLineWords(symbol, g, i, fmt, bohr2ang);
    var x := Words(fmt(g[3 * i] * bohr2ang));
    var y := Words(fmt(g[3 * i + 1] * bohr2ang));
    var z := Words(fmt(g[3 * i + 2] * bohr2ang));
    var ws := [symbol] + x + y + z;
    assert ws == [symbol, x[0], y[0], z[0]];
  }
}
