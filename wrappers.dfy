/** The optional value used wherever the source answers with `null` or
    `Infinity` ("nothing found yet"), and a fact about lists the loops that
    build a result by appending rely on. */
module Wrappers {

  datatype Option<+T> = None | Some(value: T)

  /** Appending is associative. */
  lemma {:induction false} AppendAssoc<T>(a: seq<T>, b: seq<T>, c: seq<T>)
    ensures a + (b + c) == (a + b) + c
  {
  }
}
