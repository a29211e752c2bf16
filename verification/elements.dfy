/** The periodic table and the one physical constant the molecule code reads.

    The repository imports them from a constants module that is not part of
    this model; here they are a value handed to every operation that looks
    something up, so no element data is built in.
 */
module Elements {

  import opened Results

  type PositiveReal = r: real | r > 0.0 witness 1.0

  /** What the table knows of one element symbol: `el2z` and `el2masses`. */
  datatype Element = Element(z: int, mass: real)

  /** `el2z`/`el2masses` keyed by symbol, `z2el` keyed by atomic number, and
      `physconst["bohr2angstroms"]`. */
  datatype Table = Table(bySymbol: map<string, Element>, byZ: map<int, string>, bohr2angstroms: PositiveReal)

  /** `el2masses[symbol]`. */
  function MassOf(t: Table, symbol: string): (r: Result<real>)
    ensures r.Ok? <==> symbol in t.bySymbol
    ensures r.Ok? ==> r.value == t.bySymbol[symbol].mass
    ensures r.Err? ==> r.error.KeyError?
  {
    if symbol in t.bySymbol then Ok(t.bySymbol[symbol].mass) else Err(KeyError(symbol))
  }

  /** `z2el[x]` for an entry `x` of a float array: a float equal to an integer
      key finds that key; any other value is a KeyError. */
  function SymbolOf(t: Table, z: real): (r: Result<string>)
    ensures r.Ok? <==> z == z.Floor as real && z.Floor in t.byZ
    ensures r.Ok? ==> r.value == t.byZ[z.Floor]
    ensures r.Err? ==> r.error.KeyError?
  {
    if z == z.Floor as real && z.Floor in t.byZ then Ok(t.byZ[z.Floor]) else Err(KeyError("atomic number"))
  }

  /** One table mass per symbol, failing at the first unknown symbol. */
  function MassesOf(t: Table, symbols: seq<string>): (r: Result<seq<real>>)
    ensures r.Ok? <==> forall i :: 0 <= i < |symbols| ==> symbols[i] in t.bySymbol
    ensures r.Ok? ==> |r.value| == |symbols|
                      && forall i :: 0 <= i < |symbols| ==> r.value[i] == t.bySymbol[symbols[i]].mass
    ensures r.Err? ==> r.error.KeyError?
    decreases |symbols|
  {
    if |symbols| == 0 then Ok([])
    else
      var m :- MassOf(t, symbols[0]);
      var rest :- MassesOf(t, symbols[1..]);
      assert forall i :: 1 <= i < |symbols| ==> symbols[i] == symbols[1..][i - 1];
      Ok([m] + rest)
  }

  /** One symbol per atomic number, failing at the first unknown one. */
  function SymbolsOf(t: Table, zs: seq<real>): (r: Result<seq<string>>)
    ensures r.Ok? <==> forall i :: 0 <= i < |zs| ==> SymbolOf(t, zs[i]).Ok?
    ensures r.Ok? ==> |r.value| == |zs| && forall i :: 0 <= i < |zs| ==> r.value[i] == SymbolOf(t, zs[i]).value
    ensures r.Err? ==> r.error.KeyError?
    decreases |zs|
  {
    if |zs| == 0 then Ok([])
    else
      var s :- SymbolOf(t, zs[0]);
      var rest :- SymbolsOf(t, zs[1..]);
      assert forall i :: 1 <= i < |zs| ==> zs[i] == zs[1..][i - 1];
      Ok([s] + rest)
  }
}
