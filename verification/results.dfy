/** Optional values, the exceptions the modelled Python code can raise, and a
    result type that carries either a value or one of those exceptions. */
module Results {

  datatype Option<+T> = None | Some(value: T)

  /** The Python exception classes raised by the modelled code. The string is a
      short description of the cause, not the original message text. */
  datatype Error =
    | ValueError(cause: string)
    | NameError(cause: string)
    | KeyError(cause: string)
    | IndexError(cause: string)
    | TypeError(cause: string)
    | RuntimeError(cause: string)
    | ImportError(cause: string)
    | ZeroDivisionError(cause: string)

  datatype Result<+T> = Ok(value: T) | Err(error: Error) {
    predicate IsFailure() { Err? }

    function PropagateFailure<U>(): Result<U>
      requires Err?
    {
      Err(error)
    }

    function Extract(): T
      requires Ok?
    {
      value
    }
  }

  /** `[f(x) for x in xs]` where `f` may raise: the results in order, or the
      exception of the first element that raises. */
  function MapAll<A, B>(xs: seq<A>, f: A -> Result<B>): (r: Result<seq<B>>)
    ensures r.Ok? <==> forall i :: 0 <= i < |xs| ==> f(xs[i]).Ok?
    ensures r.Ok? ==> |r.value| == |xs| && forall i :: 0 <= i < |xs| ==> Ok(r.value[i]) == f(xs[i])
    ensures r.Err? ==> exists i :: 0 <= i < |xs| && f(xs[i]) == Err(r.error) &&
                                   forall j :: 0 <= j < i ==> f(xs[j]).Ok?
  {
    if |xs| == 0 then Ok([])
    else
      var first := f(xs[0]);
      var rest := MapAll(xs[1..], f);
      assert forall i :: 1 <= i < |xs| ==> xs[1..][i - 1] == xs[i];
      if first.Err? then Err(first.error)
      else if rest.Err? then
        assert exists i :: 1 <= i < |xs| && f(xs[i]) == Err(rest.error) &&
                           forall j :: 1 <= j < i ==> f(xs[j]).Ok?;
        Err(rest.error)
      else Ok([first.value] + rest.value)
  }
}
