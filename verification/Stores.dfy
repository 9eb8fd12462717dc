/**
 Go's maps as they are in memory: objects with an address, which several places may refer to and which
 lookups extend in place.
 */
module Stores {
  import opened Types

  type Loc = int

  /** The global `emptyMap` that stands for a missing value; nothing is ever stored there. */
  const EMPTY: Loc := -1

  /** A value in memory: as in module Values, except that a map is only referred to. */
  datatype Ref =
    | Null
    | Bool(b: bool)
    | Number(text: string)
    | Native(kind: Kind, num: real)
    | Text(s: string)
    | List(items: seq<Ref>)
    | MapAt(loc: Loc)

  type Entries = map<string, Ref>

  /** The maps in memory, by address. */
  type Store = seq<Entries>

  function Get(h: Store, loc: Loc): Entries
  {
    if 0 <= loc < |h| then h[loc] else map[]
  }

  function Put(h: Store, loc: Loc, entries: Entries): (h': Store)
    ensures |h'| == |h|
  {
    if 0 <= loc < |h| then h[loc := entries] else h
  }

  /** `b` binds everything that `a` binds, to the same values. */
  predicate Within(a: Entries, b: Entries)
  {
    forall k :: k in a ==> k in b && b[k] == a[k]
  }

  /** Maps only gain bindings, and new maps are added. */
  ghost predicate Extends(h: Store, h': Store)
  {
    |h| <= |h'| && forall l: Loc :: Within(Get(h, l), Get(h', l))
  }

  lemma ExtendsTransitive(a: Store, b: Store, c: Store)
    requires Extends(a, b) && Extends(b, c)
    ensures Extends(a, c)
  {
  }
}
