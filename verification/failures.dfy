/** Failure-carrying values shared by the whole model.

    The modelled Python code signals failure by raising exceptions; each
    exception class that can escape a modelled operation is one constructor
    of `Error`, so that callers can tell apart the `ValueError`s the
    substitution engine swallows from the errors it lets through.
 */
module Failures {

  datatype Option<+T> = None | Some(value: T)

  /** Why a `ValueError` was raised. */
  datatype ValueReason =
    | InvalidVariable(variable: string)   // `resolve` on text that is not a placeholder
    | UnpackMismatch(fields: nat)         // `k, v = line.split('=')` with fields != 2
    | CpuOnLegacyIde                      // a cpu given to a pre-1.5 installation
    | AmbiguousCpu(board: string)         // a board with cpu variants and no cpu

  /** The Python exception classes the modelled code can raise. */
  datatype Error =
    | ValueError(reason: ValueReason)
    | KeyError(key: Option<string>)       // `None` stands for Python's `None` key
    | TypeError
    | AttributeError
    | IndexError
    | AssertionError

  datatype Result<+T> = Ok(value: T) | Err(error: Error) {

    predicate IsFailure() {
      Err?
    }

    function PropagateFailure<U>(): Result<U>
      requires Err?
    {
      Err(error)
    }

    function Extract(): T
      requires Ok?
    {
      value
    }
  }

  // ---------------------------------------------------------------------
  // Evaluating a list of results in order
  // ---------------------------------------------------------------------

  /** Unpacking a list of results in order: the first failure is raised,
      otherwise every value is kept. */
  function Collect<T>(rs: seq<Result<T>>): (r: Result<seq<T>>)
    ensures r.Ok? ==> |r.value| == |rs|
  {
    if |rs| == 0 then Ok([])
    else
      var x :- rs[0];
      var rest :- Collect(rs[1..]);
      Ok([x] + rest)
  }

  /** Unpacking succeeds exactly when every result is a value, and then
      keeps the values in order. */
  lemma {:induction false} CollectOk<T>(rs: seq<Result<T>>)
    ensures Collect(rs).Ok? <==> forall i :: 0 <= i < |rs| ==> rs[i].Ok?
    ensures Collect(rs).Ok? ==> forall i :: 0 <= i < |rs| ==> Collect(rs).value[i] == rs[i].value
  {
    if |rs| > 0 {
      var rest := rs[1..];
      CollectOk(rest);
      assert forall i :: 1 <= i < |rs| ==> rs[i] == rest[i - 1];
    }
  }

  /** A failed unpacking raises the first failure, every earlier result
      being a value. */
  lemma {:induction false} CollectFirstError<T>(rs: seq<Result<T>>) returns (i: nat)
    requires Collect(rs).Err?
    ensures i < |rs| && rs[i].Err? && Collect(rs).error == rs[i].error
    ensures forall j :: 0 <= j < i ==> rs[j].Ok?
  {
    if rs[0].Err? {
      i := 0;
    } else {
      var rest := rs[1..];
      var i' := CollectFirstError(rest);
      i := i' + 1;
      assert rs[i] == rest[i'];
      assert forall j :: 1 <= j < i ==> rs[j] == rest[j - 1];
    }
  }
}
