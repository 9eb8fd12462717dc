/**
 Option and Result, used where the source returns `(v, ok)` pairs or `(v, error)` pairs, and what a
 sequence is without one of its elements.
 */
module Wrappers {

  datatype Option<+T> = None | Some(value: T)

  datatype Result<+T, +E> = Ok(value: T) | Err(error: E)

  function Without<T>(s: seq<T>, i: nat): seq<T>
    requires i < |s|
  {
    s[..i] + s[i + 1..]
  }

  /** The sequence lists the set: in some order, and each member once. */
  ghost predicate Lists<T(!new)>(s: seq<T>, all: set<T>)
  {
    (forall x :: x in s <==> x in all) && forall i, j :: 0 <= i < j < |s| ==> s[i] != s[j]
  }
}
