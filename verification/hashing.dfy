/** Hash preparation (optrotvib/schema/hash_helpers.py).

    `float_prep` rounds numbers before they are serialized for hashing and
    turns negative zeros into positive ones; `compute_hash` concatenates the
    JSON serialization of the hash-relevant fields, in the order the schema
    lists them, and digests the result.  `json.dumps` and SHA-256 are foreign
    code: they enter as function parameters.
 */
module Hashing {

  import opened Results

  type NonNegReal = r: real | 0.0 <= r

  /** A double as rounding sees it: sign bit and magnitude, so that -0.0
      (`Float(true, 0.0)`) is distinct from 0.0 (`Float(false, 0.0)`). */
  datatype Float = Float(negative: bool, magnitude: NonNegReal) {
    function Value(): real {
      if negative then -(magnitude as real) else magnitude as real
    }
    predicate IsNegativeZero() {
      negative && magnitude == 0.0
    }
  }

  const PositiveZero := Float(false, 0.0)

  /** The double nearest a real computed by the rest of the model (never -0.0). */
  function FromReal(x: real): (f: Float)
    ensures f.Value() == x && !f.IsNegativeZero()
  {
    if x < 0.0 then Float(true, -x) else Float(false, x)
  }

  function Pow10(n: nat): (p: real)
    ensures p >= 1.0
  {
    if n == 0 then 1.0 else 10.0 * Pow10(n - 1)
  }

  function Pow5(n: nat): (p: real)
    ensures p >= 1.0
  {
    if n == 0 then 1.0 else 5.0 * Pow5(n - 1)
  }

  /** Round half to even, the tie rule of `round` and `np.around`. */
  function RoundHalfEven(y: real): int {
    var f := y.Floor;
    var d := y - f as real;
    if d < 0.5 then f
    else if d > 0.5 then f + 1
    else if f % 2 == 0 then f
    else f + 1
  }

  /** The nearest integer is at most half a unit away, integers are kept and
      non-negative numbers stay non-negative. */
  lemma RoundHalfEvenSpec(y: real)
    ensures -0.5 <= RoundHalfEven(y) as real - y <= 0.5
    ensures y == y.Floor as real ==> RoundHalfEven(y) == y.Floor
    ensures y >= 0.0 ==> RoundHalfEven(y) >= 0
    ensures y - y.Floor as real == 0.5 ==> RoundHalfEven(y) % 2 == 0
  {
  }

  /** The magnitude shifted n decimal places left. */
  function Scaled(x: Float, n: nat): real
  {
    if n == 0 then x.magnitude else 10.0 * Scaled(x, n - 1)
  }

  lemma {:induction false} ScaledSpec(x: Float, n: nat)
    ensures Scaled(x, n) == x.magnitude * Pow10(n)
    ensures Scaled(x, n) >= 0.0
  {
    if n > 0 {
      ScaledSpec(x, n - 1);
    }
  }

  /** The number of 10^-n units `round` keeps of a magnitude. */
  function Units(x: Float, n: nat): int {
    RoundHalfEven(Scaled(x, n))
  }

  lemma UnitsSpec(x: Float, n: nat)
    ensures Units(x, n) >= 0
    ensures -0.5 <= Units(x, n) as real - x.magnitude * Pow10(n) <= 0.5
  {
    ScaledSpec(x, n);
    RoundHalfEvenSpec(Scaled(x, n));
  }

  /** `round(x, n)` / `np.around(x, n)` on the exact value: the magnitude goes
      to the nearest multiple of 10^-n (ties to even), the sign bit is kept, so
      a small negative number rounds to -0.0. */
  function Round(x: Float, n: nat): (r: Float)
    ensures r.negative == x.negative
    ensures r.magnitude * Pow10(n) == Units(x, n) as real
    ensures -0.5 <= r.magnitude * Pow10(n) - x.magnitude * Pow10(n) <= 0.5
  {
    UnitsSpec(x, n);
    var k, p := Units(x, n) as real, Pow10(n);
    QuotientTimes(k, p);
    Float(x.negative, k / p)
  }

  lemma QuotientTimes(k: real, p: real)
    requires p > 0.0
    ensures (k / p) * p == k
  {
  }

  /** A whole number of units below half a unit is zero units. */
  lemma BelowHalfUnit(k: int, p: real)
    requires p > 0.0 && k >= 0 && k as real / p < 0.5 / p
    ensures k == 0
  {
    assert k as real < 0.5;
  }

  /** Rounding a rounded value changes nothing. */
  lemma RoundIdempotent(x: Float, n: nat)
    ensures Round(Round(x, n), n) == Round(x, n)
  {
    var r := Round(x, n);
    ScaledSpec(r, n);
    var y := Scaled(r, n);
    assert y == Units(x, n) as real;
    RoundHalfEvenSpec(y);
    assert Units(r, n) == Units(x, n);
  }

  /** Positive zero rounds to itself. */
  lemma RoundZero(n: nat)
    ensures Round(PositiveZero, n) == PositiveZero
  {
    ScaledSpec(PositiveZero, n);
    RoundHalfEvenSpec(0.0);
  }

  /** The value `float_prep` compares magnitudes with before zeroing:
      5^-(around+1), as written (base five, not ten). */
  function FlipThreshold(n: nat): real {
    1.0 / Pow5(n + 1)
  }

  function PrepListItem(x: Float, n: nat): Float {
    var r := Round(x, n);
    if r.magnitude < FlipThreshold(n) then PositiveZero else r
  }

  /** The Python values `float_prep` distinguishes. */
  datatype PyValue =
    | PyList(items: seq<Float>)   // a list or ndarray of floats
    | PyFloat(x: Float)
    | PyInt(i: int)
    | PyOther(typeName: string)

  /** `float_prep(array, around)`.  Lists are rounded item by item and every
      item whose rounded magnitude is below 5^-(around+1) becomes 0.0;
      scalars are rounded and a zero result becomes 0.0 (Python `round` of an
      int returns the int itself); any other type is a TypeError. */
  function FloatPrep(v: PyValue, around: nat): (r: Result<PyValue>)
    ensures v.PyOther? <==> r.Err?
    ensures r.Err? ==> r.error.TypeError?
    ensures v.PyList? ==> r.Ok? && r.value.PyList? && |r.value.items| == |v.items|
    ensures v.PyList? ==> forall i :: 0 <= i < |v.items| ==>
              var y := r.value.items[i];
              !y.IsNegativeZero()
              && (Round(v.items[i], around).magnitude < FlipThreshold(around) ==> y == PositiveZero)
              && (Round(v.items[i], around).magnitude >= FlipThreshold(around) ==> y == Round(v.items[i], around))
    ensures v.PyFloat? ==> (r.Ok? && r.value.PyFloat? && !r.value.x.IsNegativeZero()
                            && r.value.x.Value() == Round(v.x, around).Value())
    ensures v.PyInt? ==> r.Ok? && (if v.i == 0 then r.value == PyFloat(PositiveZero) else r.value == v)
  {
    match v
    case PyList(items) =>
      Ok(PyList(seq(|items|, i requires 0 <= i < |items| => PrepListItem(items[i], around))))
    case PyFloat(x) =>
      var r := Round(x, around);
      Ok(PyFloat(if r.magnitude == 0.0 then PositiveZero else r))
    case PyInt(i) =>
      Ok(if i == 0 then PyFloat(PositiveZero) else PyInt(i))
    case PyOther(_) =>
      Err(TypeError("Type '" + v.typeName + "' not recognized"))
  }

  lemma PrepListItemIdempotent(x: Float, n: nat)
    ensures PrepListItem(PrepListItem(x, n), n) == PrepListItem(x, n)
  {
    RoundIdempotent(x, n);
    RoundZero(n);
  }

  /** Preparing prepared data again gives the same data. */
  lemma FloatPrepIdempotent(v: PyValue, around: nat)
    requires !v.PyOther?
    ensures FloatPrep(v, around).Ok?
    ensures FloatPrep(FloatPrep(v, around).value, around) == FloatPrep(v, around)
  {
    RoundZero(around);
    match v
    case PyList(items) =>
      var once := FloatPrep(v, around).value.items;
      var twice := FloatPrep(PyList(once), around).value.items;
      forall i | 0 <= i < |items|
        ensures twice[i] == once[i]
      {
        PrepListItemIdempotent(items[i], around);
      }
      assert twice == once;
    case PyFloat(x) =>
      RoundIdempotent(x, around);
    case PyInt(i) =>
  }

  /** Two inputs that round to the same value, whatever their sign bits when
      they round to zero, are prepared identically: noise below the declared
      precision does not reach the serialization. */
  lemma FloatPrepAbsorbsNoise(x: Float, y: Float, n: nat)
    requires Round(x, n).Value() == Round(y, n).Value()
    ensures FloatPrep(PyList([x]), n) == FloatPrep(PyList([y]), n)
    ensures FloatPrep(PyFloat(x), n) == FloatPrep(PyFloat(y), n)
  {
    var rx := Round(x, n);
    var ry := Round(y, n);
    if rx.magnitude != 0.0 || ry.magnitude != 0.0 {
      assert rx.negative == ry.negative;
      assert rx == ry;
    }
    assert PrepListItem(x, n) == PrepListItem(y, n);
    assert FloatPrep(PyList([x]), n).value.items == [PrepListItem(x, n)];
    assert FloatPrep(PyList([y]), n).value.items == [PrepListItem(y, n)];
  }

  // ---------------------------------------------------------------------
  // Finding: the zero flip threshold

  /** As written, for three or more digits the flip zeroes numbers that
      rounding kept: 10^-6 survives rounding to 7 digits but lies below
      5^-8 = 2.56e-6 and is replaced by 0.0. */
  lemma FlipZeroesKeptDigits()
    ensures var x := Float(false, 1.0 / 1000000.0);
      && Round(x, 7) == x
      && FloatPrep(PyList([x]), 7) == Ok(PyList([PositiveZero]))
  {
    var x := Float(false, 1.0 / 1000000.0);
    assert Pow10(7) == 10000000.0 by {
      assert Pow10(1) == 10.0;
      assert Pow10(2) == 100.0;
      assert Pow10(3) == 1000.0;
      assert Pow10(4) == 10000.0;
      assert Pow10(5) == 100000.0;
      assert Pow10(6) == 1000000.0;
    }
    assert x.magnitude * Pow10(7) == 10.0;
    assert RoundHalfEven(10.0) == 10;
    assert Pow5(8) == 390625.0 by {
      assert Pow5(1) == 5.0;
      assert Pow5(2) == 25.0;
      assert Pow5(3) == 125.0;
      assert Pow5(4) == 625.0;
      assert Pow5(5) == 3125.0;
      assert Pow5(6) == 15625.0;
      assert Pow5(7) == 78125.0;
    }
    var items := seq(1, i requires 0 <= i < 1 => PrepListItem([x][i], 7));
    assert items == [PositiveZero];
  }

  /** Half a unit in the n-th decimal, the threshold the docstring ("build
      positive zeros") evidently intends: 5·10^-(n+1). */
  function IntendedFlipThreshold(n: nat): real {
    5.0 / Pow10(n + 1)
  }

  function PrepListItemIntended(x: Float, n: nat): Float {
    var r := Round(x, n);
    if r.magnitude < IntendedFlipThreshold(n) then PositiveZero else r
  }

  /** `float_prep` with the intended threshold: lists and scalars are treated
      alike — rounding, then -0.0 becomes 0.0, and nothing else changes. */
  function FloatPrepIntended(v: PyValue, around: nat): (r: Result<PyValue>)
    ensures v.PyOther? <==> r.Err?
    ensures v.PyList? ==> (r.Ok? && r.value.PyList? && |r.value.items| == |v.items|
                           && forall i :: 0 <= i < |v.items| ==>
                                var y := r.value.items[i];
                                !y.IsNegativeZero() && y.Value() == Round(v.items[i], around).Value())
  {
    match v
    case PyList(items) =>
      var out := seq(|items|, i requires 0 <= i < |items| => PrepListItemIntended(items[i], around));
      assert forall i :: 0 <= i < |items| ==> out[i].Value() == Round(items[i], around).Value() by {
        forall i | 0 <= i < |items| ensures out[i].Value() == Round(items[i], around).Value() {
          IntendedFlipOnlyZeros(items[i], around);
        }
      }
      Ok(PyList(out))
    case _ => FloatPrep(v, around)
  }

  /** With the intended threshold the flip touches only values rounding made zero. */
  lemma IntendedFlipOnlyZeros(x: Float, n: nat)
    ensures Round(x, n).magnitude < IntendedFlipThreshold(n) ==> Round(x, n).magnitude == 0.0
  {
    var p := Pow10(n);
    assert Pow10(n + 1) == 10.0 * p;
    assert IntendedFlipThreshold(n) == 0.5 / p by {
      assert 5.0 / (10.0 * p) == 0.5 / p;
    }
    UnitsSpec(x, n);
    if Round(x, n).magnitude < IntendedFlipThreshold(n) {
      BelowHalfUnit(Units(x, n), p);
    }
  }

  // ---------------------------------------------------------------------
  // compute_hash

  /** The text `compute_hash` digests: the serializations of the fields named
      in `fields` that `data` holds, in the order of `fields`. */
  function HashText<J>(fields: seq<string>, data: map<string, J>, dumps: J -> string): string
    decreases |fields|
  {
    if |fields| == 0 then ""
    else (if fields[0] in data then dumps(data[fields[0]]) else "") + HashText(fields[1..], data, dumps)
  }

  lemma {:induction false} HashTextAppend<J>(a: seq<string>, b: seq<string>, data: map<string, J>, dumps: J -> string)
    ensures HashText(a + b, data, dumps) == HashText(a, data, dumps) + HashText(b, data, dumps)
    decreases |a|
  {
    if |a| == 0 {
      assert a + b == b;
    } else {
      assert (a + b)[1..] == a[1..] + b;
      HashTextAppend(a[1..], b, data, dumps);
    }
  }

  /** `compute_hash(data, obj_type)` with the schema's hash-field list passed
      in: the loop of the source, appending one serialization per present
      field, then one digest call. */
  method ComputeHash<J, D>(data: map<string, J>, fields: seq<string>, dumps: J -> string, sha: string -> D)
    returns (digest: D, concat: string)
    ensures concat == HashText(fields, data, dumps)
    ensures digest == sha(concat)
  {
    concat := "";
    var i := 0;
    while i < |fields|
      invariant 0 <= i <= |fields|
      invariant concat == HashText(fields[..i], data, dumps)
    {
      var f := fields[i];
      HashTextAppend(fields[..i], [f], data, dumps);
      assert fields[..i + 1] == fields[..i] + [f];
      if f in data {
        concat := concat + dumps(data[f]);
      }
      assert HashText([f], data, dumps) == (if f in data then dumps(data[f]) else "");
      i := i + 1;
    }
    assert fields[..|fields|] == fields;
    digest := sha(concat);
  }

  /** The digest text depends only on the hash fields: two documents holding
      the same hash fields with equal serializations give the same text, so
      every other key is invisible to the digest. */
  lemma {:induction false} HashTextIgnoresOtherKeys<J>(fields: seq<string>, d1: map<string, J>, d2: map<string, J>, dumps: J -> string)
    requires forall k :: 0 <= k < |fields| ==> (fields[k] in d1 <==> fields[k] in d2)
    requires forall k :: 0 <= k < |fields| && fields[k] in d1 ==> dumps(d1[fields[k]]) == dumps(d2[fields[k]])
    ensures HashText(fields, d1, dumps) == HashText(fields, d2, dumps)
    decreases |fields|
  {
    if |fields| > 0 {
      HashTextIgnoresOtherKeys(fields[1..], d1, d2, dumps);
    }
  }

  /** Fields missing from the document contribute nothing. */
  lemma {:induction false} HashTextAbsentFields<J>(fields: seq<string>, data: map<string, J>, dumps: J -> string)
    requires forall k :: 0 <= k < |fields| ==> fields[k] !in data
    ensures HashText(fields, data, dumps) == ""
    decreases |fields|
  {
    if |fields| > 0 {
      HashTextAbsentFields(fields[1..], data, dumps);
    }
  }

  /** A present field's serialization appears in the text at the position its
      list order dictates. */
  lemma HashTextSingleField<J>(pre: seq<string>, f: string, post: seq<string>, data: map<string, J>, dumps: J -> string)
    requires f in data
    ensures HashText(pre + [f] + post, data, dumps)
            == HashText(pre, data, dumps) + dumps(data[f]) + HashText(post, data, dumps)
  {
    HashTextAppend(pre + [f], post, data, dumps);
    HashTextAppend(pre, [f], data, dumps);
    assert HashText([f], data, dumps) == dumps(data[f]) + HashText([], data, dumps);
  }
}
