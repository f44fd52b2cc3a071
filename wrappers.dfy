// Small result types shared by every module: an optional value and the
// outcome of an operation that the C code can abandon with elog(ERROR) or
// abort().

module Wrappers {

  datatype Option<T> = None | Some(value: T)

  /** Why an operation did not complete. */
  datatype Fault =
    | BadInput(what: string)      // ereport(ERROR) about malformed text (invalid text representation)
    | OutOfRange(what: string)    // ereport(ERROR) about a numeric value out of range
    | SchemaError(what: string)   // elog(ERROR) about the node schema tables themselves
    | OutOfMemory(what: string)   // an allocation request over the allocator's limit
    | Abort(what: string)         // abort(), or elog(ERROR) on a request the code calls impossible
    | Undefined(what: string)     // the C code dereferences NULL or indexes outside a table
    | Unmodelled(what: string)    // a path that calls code outside this model (floating point)

  datatype Result<T> = Ok(value: T) | Err(fault: Fault)
  {
    predicate IsFailure() { Err? }

    function PropagateFailure<U>(): Result<U>
      requires Err?
    {
      Err(fault)
    }

    function Extract(): T
      requires Ok?
    {
      value
    }
  }

  /** `prefix + rest`, through an error. */
  function Prepend<T>(prefix: seq<T>, rest: Result<seq<T>>): Result<seq<T>>
  {
    if rest.Err? then rest else Ok(prefix + rest.value)
  }

  lemma {:induction false} PrependNothing<T>(r: Result<seq<T>>)
    ensures Prepend([], r) == r
  {
    if r.Ok? {
      assert [] + r.value == r.value;
    }
  }

  /** Concatenation is associative (stated once so that proofs need not rediscover it). */
  lemma {:induction false} ConcatAssoc<T>(a: seq<T>, b: seq<T>, c: seq<T>)
    ensures (a + b) + c == a + (b + c)
  {
  }

  /** The outcome of an operation that changes state and returns nothing. */
  datatype Outcome = Done | Failed(fault: Fault)

  /** The outcome of a state change whose text or value is `r`. */
  function StatusOf<T>(r: Result<T>): Outcome
  {
    if r.Ok? then Done else Failed(r.fault)
  }
}
