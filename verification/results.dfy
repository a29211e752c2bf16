/** Failure values for the modelled Python code.

    Every exception class the modelled functions can raise becomes one
    constructor of `Error`.  `NonFinite` stands for the one outcome that is not
    an exception: numpy dividing by zero or taking the square root of a
    negative number, which yields inf/nan with only a runtime warning.  The
    real-number model cannot carry inf/nan, so it stops there and says so.
 */
module Results {

  datatype Error =
    | TypeError(msg: string)
    | ValueError(msg: string)
    | AttributeError(msg: string)
    | KeyError(msg: string)
    | IndexError(msg: string)
    | ZeroDivisionError(msg: string)
    | NonFinite(msg: string)

  /** A value or the exception that replaced it; usable with `:-`. */
  datatype Result<+T> = Ok(value: T) | Err(error: Error) {

    predicate IsFailure() {
      Err?
    }

    function PropagateFailure<U>(): Result<U>
      requires Err?
    {
      Err(error)
    }

    function Extract(): T
      requires Ok?
    {
      value
    }
  }

  /** Python's `None` or a value. */
  datatype Option<+T> = None | Some(value: T)

  /** `[f(e) for e in es]` where each `f(e)` may raise: the first
      exception propagates. */
  function Collect<E, R>(es: seq<E>, f: E -> Result<R>): (r: Result<seq<R>>)
    ensures r.Ok? <==> forall j :: 0 <= j < |es| ==> f(es[j]).Ok?
    ensures r.Ok? ==> |r.value| == |es| && forall j :: 0 <= j < |es| ==> r.value[j] == f(es[j]).value
    ensures r.Err? ==> exists j :: 0 <= j < |es| && f(es[j]).Err? && r.error == f(es[j]).error
                                   && forall i :: 0 <= i < j ==> f(es[i]).Ok?
    decreases |es|
  {
    if |es| == 0 then Ok([])
    else
      var first := f(es[0]);
      if first.Err? then Err(first.error)
      else
        var rest := Collect(es[1..], f);
        if rest.Err? then
          Err(rest.error)
        else
          Ok([first.value] + rest.value)
  }

  /** The exception `Collect` raises is the first failing element's. */
  lemma {:induction false} CollectFirstError<E, R>(es: seq<E>, f: E -> Result<R>, j: nat)
    requires j < |es| && f(es[j]).Err?
    requires forall i :: 0 <= i < j ==> f(es[i]).Ok?
    ensures Collect(es, f) == Err(f(es[j]).error)
    decreases j
  {
    if j > 0 {
      assert forall i :: 0 <= i < j - 1 ==> es[1..][i] == es[i + 1];
      CollectFirstError(es[1..], f, j - 1);
    }
  }

  /** Python's `seq[i]` for an integer index: negative indices count from the
      end, anything outside `-|s| <= i < |s|` is an IndexError. */
  function PyAt<T>(s: seq<T>, i: int): (r: Result<T>)
    ensures r.Ok? <==> -|s| <= i < |s|
    ensures 0 <= i < |s| ==> r == Ok(s[i])
    ensures -|s| <= i < 0 ==> r == Ok(s[|s| + i])
  {
    if 0 <= i < |s| then Ok(s[i])
    else if -|s| <= i < 0 then Ok(s[|s| + i])
    else Err(IndexError("list index out of range"))
  }
}
