/** The JSON form of a molecule and its hash (`Molecule.to_json` and
    `Molecule.get_hash`, optrotvib/molecule.py).

    `to_json` walks the schema's field list in order, reads each attribute,
    leaves out empty lists and strings, rounds the float-valued fields
    through `float_prep` at their own precision and keeps every other
    attribute as it is.  The field lists, `json.dumps` and the digest are
    parameters.
 */
module MoleculeJson {

  import opened Results
  import opened Matrices
  import opened Elements
  import opened Molecules
  import opened Hashing

  /** Decimal digits kept when hashing each kind of number. */
  const GeometryNoise: nat := 7
  const MassNoise: nat := 6
  const ChargeNoise: nat := 4

  /** The values the JSON document holds. */
  datatype Json =
    | JFloat(x: Float)
    | JInt(i: int)
    | JBool(b: bool)
    | JStr(s: string)
    | JList(items: seq<Json>)

  /** `float_prep(list, around).tolist()`: each number rounded, small
      results made +0.0. */
  function PreparedList(xs: seq<real>, around: nat): (r: seq<Json>)
    ensures |r| == |xs|
    ensures forall k :: 0 <= k < |xs| ==> r[k] == JFloat(PrepListItem(FromReal(xs[k]), around))
  {
    var prepared := FloatPrep(PyList(seq(|xs|, k requires 0 <= k < |xs| => FromReal(xs[k]))), around).value.items;
    seq(|xs|, k requires 0 <= k < |xs| => JFloat(prepared[k]))
  }

  /** `float_prep(charge, 4)` for a float: rounded, never -0.0. */
  function PreparedScalar(x: real, around: nat): (r: Json)
    ensures r.JFloat? && !r.x.IsNegativeZero() && r.x.Value() == Round(FromReal(x), around).Value()
  {
    JFloat(FloatPrep(PyFloat(FromReal(x)), around).value.x)
  }

  function Strings(xs: seq<string>): (r: seq<Json>)
    ensures |r| == |xs| && forall k :: 0 <= k < |xs| ==> r[k] == JStr(xs[k])
  {
    seq(|xs|, k requires 0 <= k < |xs| => JStr(xs[k]))
  }

  function Bools(xs: seq<bool>): (r: seq<Json>)
    ensures |r| == |xs| && forall k :: 0 <= k < |xs| ==> r[k] == JBool(xs[k])
  {
    seq(|xs|, k requires 0 <= k < |xs| => JBool(xs[k]))
  }

  function Ints(xs: seq<int>): (r: seq<Json>)
    ensures |r| == |xs| && forall k :: 0 <= k < |xs| ==> r[k] == JInt(xs[k])
  {
    seq(|xs|, k requires 0 <= k < |xs| => JInt(xs[k]))
  }

  function IntLists(xs: seq<seq<int>>): (r: seq<Json>)
    ensures |r| == |xs| && forall k :: 0 <= k < |xs| ==> r[k] == JList(Ints(xs[k]))
  {
    seq(|xs|, k requires 0 <= k < |xs| => JList(Ints(xs[k])))
  }

  /** A list entry, left out when the list is empty. */
  function NonEmpty(items: seq<Json>): Option<Json> {
    if |items| == 0 then None else Some(JList(items))
  }

  /** One field of the document: the attribute `getattr` finds, `None` when
      it is an empty list or string, an AttributeError for a name the
      molecule does not carry, and the `masses` property's KeyError for an
      unknown symbol.  `provenance` starts as `{}` and nothing modelled
      fills it, so it is always left out; `fix_com` and `fix_orientation`
      start true and are only ever set true. */
  function Entry(m: Molecule, t: Table, field: string): Result<Option<Json>> {
    if field == "symbols" then Ok(NonEmpty(Strings(m.symbols)))
    else if field == "geometry" then
      Ok(if |m.geometry| == 0 then None else Some(JList(PreparedList(Ravel(m.geometry), GeometryNoise))))
    else if field == "masses" then
      var ms :- Masses(m, t);
      Ok(NonEmpty(PreparedList(ms, MassNoise)))
    else if field == "name" then Ok(if |m.name| == 0 then None else Some(JStr(m.name)))
    else if field == "comment" then Ok(if |m.comment| == 0 then None else Some(JStr(m.comment)))
    else if field == "charge" then Ok(Some(PreparedScalar(m.charge, ChargeNoise)))
    else if field == "multiplicity" then Ok(Some(JInt(m.multiplicity)))
    else if field == "real" then Ok(NonEmpty(Bools(m.isReal)))
    else if field == "fragments" then Ok(NonEmpty(IntLists(m.fragments)))
    else if field == "fragment_charges" then Ok(NonEmpty(PreparedList(m.fragmentCharges, ChargeNoise)))
    else if field == "fragment_multiplicities" then Ok(NonEmpty(Ints(m.fragmentMultiplicities)))
    else if field == "provenance" then Ok(None)
    else if field == "fix_com" || field == "fix_orientation" then Ok(Some(JBool(true)))
    else Err(AttributeError("'Molecule' object has no attribute '" + field + "'"))
  }

  /** `to_json()` with the schema's field list passed in: the fields with a
      non-empty value, each under its own name; the first field that cannot
      be read raises. */
  function ToJson(m: Molecule, t: Table, fields: seq<string>): (r: Result<map<string, Json>>)
    ensures r.Ok? <==> forall i :: 0 <= i < |fields| ==> Entry(m, t, fields[i]).Ok?
    ensures r.Err? ==> exists i :: 0 <= i < |fields| && Entry(m, t, fields[i]) == Err(r.error)
                                   && forall j :: 0 <= j < i ==> Entry(m, t, fields[j]).Ok?
    ensures r.Ok? ==> forall f :: f in r.value <==> f in fields && Entry(m, t, f).value.Some?
    ensures r.Ok? ==> forall f :: f in r.value ==> r.value[f] == Entry(m, t, f).value.value
    decreases |fields|
  {
    if |fields| == 0 then Ok(map[])
    else
      var f := fields[0];
      var e :- Entry(m, t, f);
      var rest :- ToJson(m, t, fields[1..]);
      assert forall i :: 1 <= i < |fields| ==> fields[i] == fields[1..][i - 1];
      assert forall g :: g in fields ==> g == f || g in fields[1..];
      Ok(if e.Some? then rest[f := e.value] else rest)
  }

  /** `get_hash()`: the digest of the hash fields' serializations, in the
      order the schema lists them. */
  function GetHash<D>(m: Molecule, t: Table, fields: seq<string>, hashFields: seq<string>,
                      dumps: Json -> string, sha: string -> D): (r: Result<D>)
    ensures r.Ok? <==> ToJson(m, t, fields).Ok?
    ensures r.Ok? ==> r.value == sha(HashText(hashFields, ToJson(m, t, fields).value, dumps))
  {
    var doc :- ToJson(m, t, fields);
    Ok(sha(HashText(hashFields, doc, dumps)))
  }

  // ---------------------------------------------------------------------
  // What the document holds

  /** The geometry entry holds 3N numbers, row after row, each rounded to
      seven decimals and never -0.0; it is absent exactly when there are no
      atoms. */
  lemma GeometryEntry(m: Molecule, t: Table)
    requires WellFormed(m)
    ensures var e := Entry(m, t, "geometry");
            && e.Ok?
            && (e.value.None? <==> |m.symbols| == 0)
            && (e.value.Some? ==>
                  && e.value.value.JList?
                  && |e.value.value.items| == 3 * |m.symbols|
                  && forall i, c :: 0 <= i < |m.symbols| && 0 <= c < 3 ==>
                       var y := e.value.value.items[3 * i + c];
                       && y.JFloat? && !y.x.IsNegativeZero()
                       && y.x == PrepListItem(FromReal(m.geometry[i][c]), GeometryNoise))
  {
    RavelIndex(m.geometry, |m.symbols|);
    var xs := Ravel(m.geometry);
    var items := FloatPrep(PyList(seq(|xs|, k requires 0 <= k < |xs| => FromReal(xs[k]))), GeometryNoise).value.items;
    forall k | 0 <= k < |xs| ensures !PrepListItem(FromReal(xs[k]), GeometryNoise).IsNegativeZero() {
      assert items[k] == PrepListItem(FromReal(xs[k]), GeometryNoise);
    }
  }

  /** Attributes other than the rounded ones go into the document unchanged. */
  lemma PlainEntries(m: Molecule, t: Table)
    ensures Entry(m, t, "multiplicity") == Ok(Some(JInt(m.multiplicity)))
    ensures |m.symbols| > 0 ==> Entry(m, t, "symbols") == Ok(Some(JList(Strings(m.symbols))))
    ensures |m.name| > 0 ==> Entry(m, t, "name") == Ok(Some(JStr(m.name)))
    ensures |m.isReal| > 0 ==> Entry(m, t, "real") == Ok(Some(JList(Bools(m.isReal))))
    ensures |m.fragments| > 0 ==> Entry(m, t, "fragments") == Ok(Some(JList(IntLists(m.fragments))))
    ensures Entry(m, t, "provenance") == Ok(None)
  {
  }

  /** Two molecules whose coordinates agree once rounded to seven decimals,
      and that agree everywhere else, have the same document. */
  lemma GeometryNoiseInvisible(m1: Molecule, m2: Molecule, t: Table, fields: seq<string>)
    requires WellFormed(m1) && WellFormed(m2)
    requires m2 == m1.(geometry := m2.geometry)
    requires forall i, c :: 0 <= i < |m1.symbols| && 0 <= c < 3 ==>
               Round(FromReal(m1.geometry[i][c]), GeometryNoise).Value()
               == Round(FromReal(m2.geometry[i][c]), GeometryNoise).Value()
    ensures ToJson(m1, t, fields) == ToJson(m2, t, fields)
  {
    GeometryEntriesAgree(m1, m2, t);
    forall f ensures Entry(m1, t, f) == Entry(m2, t, f) {
      if f != "geometry" {
        OtherEntriesAgree(m1, m2, t, f);
      }
    }
    SameEntries(m1, m2, t, fields);
  }

  lemma GeometryEntriesAgree(m1: Molecule, m2: Molecule, t: Table)
    requires WellFormed(m1) && WellFormed(m2) && m1.symbols == m2.symbols
    requires forall i, c :: 0 <= i < |m1.symbols| && 0 <= c < 3 ==>
               Round(FromReal(m1.geometry[i][c]), GeometryNoise).Value()
               == Round(FromReal(m2.geometry[i][c]), GeometryNoise).Value()
    ensures Entry(m1, t, "geometry") == Entry(m2, t, "geometry")
  {
    GeometryEntry(m1, t);
    GeometryEntry(m2, t);
    var e1, e2 := Entry(m1, t, "geometry"), Entry(m2, t, "geometry");
    if e1.value.Some? {
      var a, b := e1.value.value.items, e2.value.value.items;
      forall k | 0 <= k < |a| ensures a[k] == b[k] {
        var i, c := k / 3, k % 3;
        assert k == 3 * i + c;
        PrepAbsorbs(FromReal(m1.geometry[i][c]), FromReal(m2.geometry[i][c]), GeometryNoise);
      }
      assert a == b;
    }
  }

  lemma OtherEntriesAgree(m1: Molecule, m2: Molecule, t: Table, f: string)
    requires m2 == m1.(geometry := m2.geometry) && f != "geometry"
    ensures Entry(m1, t, f) == Entry(m2, t, f)
  {
    assert Masses(m1, t) == Masses(m2, t);
  }

  lemma PrepAbsorbs(x: Float, y: Float, n: nat)
    requires Round(x, n).Value() == Round(y, n).Value()
    ensures PrepListItem(x, n) == PrepListItem(y, n)
  {
    FloatPrepAbsorbsNoise(x, y, n);
    assert FloatPrep(PyList([x]), n).value.items[0] == PrepListItem(x, n);
    assert FloatPrep(PyList([y]), n).value.items[0] == PrepListItem(y, n);
  }

  /** Equal entries field by field make equal documents. */
  lemma {:induction false} SameEntries(m1: Molecule, m2: Molecule, t: Table, fields: seq<string>)
    requires forall f :: Entry(m1, t, f) == Entry(m2, t, f)
    ensures ToJson(m1, t, fields) == ToJson(m2, t, fields)
    decreases |fields|
  {
    if |fields| > 0 {
      SameEntries(m1, m2, t, fields[1..]);
    }
  }

  /** The hash sees only the hash fields: molecules whose documents agree on
      them hash alike, whatever else differs. */
  lemma HashSeesOnlyHashFields<D>(m1: Molecule, m2: Molecule, t: Table, fields: seq<string>,
                                  hashFields: seq<string>, dumps: Json -> string, sha: string -> D)
    requires ToJson(m1, t, fields).Ok? && ToJson(m2, t, fields).Ok?
    requires forall k :: 0 <= k < |hashFields| ==> Entry(m1, t, hashFields[k]) == Entry(m2, t, hashFields[k])
    ensures GetHash(m1, t, fields, hashFields, dumps, sha) == GetHash(m2, t, fields, hashFields, dumps, sha)
  {
    var d1, d2 := ToJson(m1, t, fields).value, ToJson(m2, t, fields).value;
    HashTextIgnoresOtherKeys(hashFields, d1, d2, dumps);
  }
}
