// What the models share: optional values, results that may be an exception, and two small notions.
module Common {
  datatype Option<+T> = None | Some(value: T)

  /** What a call returns, or the exception it raises. */
  datatype Outcome<+T, +E> = Return(value: T) | Raise(error: E) {
    predicate IsFailure() { Raise? }

    function PropagateFailure<U>(): Outcome<U, E>
      requires Raise?
    {
      Raise(error)
    }

    function Extract(): T
      requires Return?
    {
      value
    }
  }

  function Min(a: nat, b: nat): nat { if a < b then a else b }

  predicate Distinct<T(==)>(s: seq<T>) {
    forall j, k :: 0 <= j < k < |s| ==> s[j] != s[k]
  }
}
