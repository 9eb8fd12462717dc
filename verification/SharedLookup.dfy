/**
 The valuers of core/mapping/valuer.go on maps in memory: a lookup in a recursive valuer extends the map it
 finds by what the ancestors' map has and it has not.
 */
module SharedLookup {
  import opened Wrappers
  import opened Stores
  import opened Valuers

  function Bound(entries: Entries, key: string): Option<Ref>
  {
    if key in entries then Some(entries[key]) else None
  }

  /** What a lookup finds, and the maps as it leaves them. */
  datatype Sought = Sought(value: Option<Ref>, store: Store)

  /** `Value(key)` of the three kinds of valuers. */
  function Find(h: Store, v: Valuer<Loc>, key: string): Sought
    decreases Rank(v), Depth(v)
  {
    match v
    case MapValuer(loc) => Sought(Bound(Get(h, loc), key), h)
    case SimpleValuer(current, _) => Find(h, current, key)
    case RecursiveValuer(current, _) =>
      var own := Find(h, current, key);
      if own.value.Some? && !own.value.value.MapAt? then own
      else if Parent(v).None? then own
      else
        var above := (ParentIsSmaller(v); Find(own.store, Parent(v).value, key));
        if own.value.None? then above else Sought(own.value, Inherited(above, own.value.value.loc))
  }

  /** The merge: the map at `loc` gains what the map found above binds and it does not. */
  function Inherited(above: Sought, loc: Loc): Store
  {
    if above.value.Some? && above.value.value.MapAt? then
      Put(above.store, loc, Get(above.store, above.value.value.loc) + Get(above.store, loc))
    else above.store
  }

  /** `getValueWithChainedKeys`: the head of a dotted key is resolved, then its tail below the map found. */
  function Seek(h: Store, v: Valuer<Loc>, keys: seq<string>): Sought
    decreases |keys|
  {
    if keys == [] then Sought(None, h)
    else if |keys| == 1 then Find(h, v, keys[0])
    else
      var head := Find(h, v, keys[0]);
      if head.value.Some? && head.value.value.MapAt? then
        Seek(head.store, EnterChained(v, head.value.value.loc), keys[1..])
      else Sought(None, head.store)
  }

  // ---------- The maps, updated in place ----------

  /** What `theirs` binds and `own` does not, among the given keys. */
  function Missing(own: Entries, theirs: Entries, keys: set<string>): Entries
  {
    map k | k in theirs && k in keys && k !in own :: theirs[k]
  }

  lemma OneMoreMissing(own: Entries, theirs: Entries, keys: set<string>, k: string)
    requires k in theirs && k !in keys
    ensures own + Missing(own, theirs, keys + {k}) ==
            if k in own then own + Missing(own, theirs, keys) else (own + Missing(own, theirs, keys))[k := theirs[k]]
    ensures k in own + Missing(own, theirs, keys) <==> k in own
  {
  }

  /** The maps in the middle of a merge, when the given keys have been gone through. */
  function Merging(h: Store, vm: Loc, theirs: Entries, keys: set<string>): Store
  {
    Put(h, vm, Get(h, vm) + Missing(Get(h, vm), theirs, keys))
  }

  lemma MergeStarts(h: Store, vm: Loc, theirs: Entries)
    ensures Merging(h, vm, theirs, {}) == h
  {
    assert Get(h, vm) + Missing(Get(h, vm), theirs, {}) == Get(h, vm);
  }

  lemma MergeEnds(h: Store, vm: Loc, theirs: Entries)
    ensures Merging(h, vm, theirs, theirs.Keys) == Put(h, vm, theirs + Get(h, vm))
  {
    assert Get(h, vm) + Missing(Get(h, vm), theirs, theirs.Keys) == theirs + Get(h, vm);
  }

  lemma MergeTurns(h: Store, vm: Loc, theirs: Entries, keys: set<string>, k: string)
    requires k in keys && keys <= theirs.Keys
    ensures var now := Merging(h, vm, theirs, theirs.Keys - keys);
            Merging(h, vm, theirs, theirs.Keys - (keys - {k})) ==
            if k in Get(now, vm) then now else Put(now, vm, Get(now, vm)[k := theirs[k]])
  {
    assert theirs.Keys - (keys - {k}) == theirs.Keys - keys + {k};
    OneMoreMissing(Get(h, vm), theirs, theirs.Keys - keys, k);
  }

  class Maps {
    var maps: Store

    constructor (maps: Store)
      ensures this.maps == maps
    {
      this.maps := maps;
    }

    /** The merge loop of `recursiveValuer.Value`: the parent's keys come in any order. */
    method FillMissing(vm: Loc, pm: Loc)
      modifies this
      ensures maps == Put(old(maps), vm, Get(old(maps), pm) + Get(old(maps), vm))
    {
      ghost var was := maps;
      var theirs := Get(maps, pm);
      var keys := theirs.Keys;
      MergeStarts(was, vm, theirs);
      assert theirs.Keys - keys == {};
      while keys != {}
        invariant keys <= theirs.Keys
        invariant maps == Merging(was, vm, theirs, theirs.Keys - keys)
        decreases |keys|
      {
        var k :| k in keys;
        MergeTurns(was, vm, theirs, keys, k);
        if k !in Get(maps, vm) {
          maps := Put(maps, vm, Get(maps, vm)[k := theirs[k]]);
        }
        keys := keys - {k};
      }
      assert theirs.Keys - keys == theirs.Keys;
      MergeEnds(was, vm, theirs);
    }

    method Value(v: Valuer<Loc>, key: string) returns (r: Option<Ref>)
      modifies this
      ensures Sought(r, maps) == Find(old(maps), v, key)
      decreases Rank(v), Depth(v)
    {
      if v.MapValuer? {
        return Bound(Get(maps, v.level), key);
      }
      r := Value(v.current, key);
      if v.SimpleValuer? || (r.Some? && !r.value.MapAt?) || Parent(v).None? {
        return;
      }
      ParentIsSmaller(v);
      var pv := Value(Parent(v).value, key);
      if r.None? {
        return pv;
      }
      if pv.Some? && pv.value.MapAt? {
        FillMissing(r.value.loc, pv.value.loc);
      }
    }
  }

  // ---------- What lookups leave alone ----------

  lemma PutExtends(h: Store, loc: Loc, entries: Entries)
    requires Within(Get(h, loc), entries)
    ensures Extends(h, Put(h, loc, entries))
  {
  }

  /** However maps share one another, a lookup only adds bindings to maps that there were before. */
  lemma {:induction false} FindExtends(h: Store, v: Valuer<Loc>, key: string)
    ensures Extends(h, Find(h, v, key).store) && |Find(h, v, key).store| == |h|
    decreases Rank(v), Depth(v)
  {
    if !v.MapValuer? {
      FindExtends(h, v.current, key);
      if v.RecursiveValuer? && Parent(v).Some? {
        var own := Find(h, v.current, key);
        ParentIsSmaller(v);
        FindExtends(own.store, Parent(v).value, key);
        var above := Find(own.store, Parent(v).value, key);
        ExtendsTransitive(h, own.store, above.store);
        if own.value.Some? && own.value.value.MapAt? {
          InheritedExtends(above, own.value.value.loc);
          ExtendsTransitive(h, above.store, Inherited(above, own.value.value.loc));
        }
      }
    }
  }

  lemma InheritedExtends(above: Sought, loc: Loc)
    ensures Extends(above.store, Inherited(above, loc)) && |Inherited(above, loc)| == |above.store|
  {
    if above.value.Some? && above.value.value.MapAt? {
      PutExtends(above.store, loc, Get(above.store, above.value.value.loc) + Get(above.store, loc));
    }
  }

  lemma {:induction false} SeekExtends(h: Store, v: Valuer<Loc>, keys: seq<string>)
    ensures Extends(h, Seek(h, v, keys).store) && |Seek(h, v, keys).store| == |h|
    decreases |keys|
  {
    if keys != [] {
      FindExtends(h, v, keys[0]);
      var head := Find(h, v, keys[0]);
      if |keys| > 1 && head.value.Some? && head.value.value.MapAt? {
        var below := EnterChained(v, head.value.value.loc);
        SeekExtends(head.store, below, keys[1..]);
        ExtendsTransitive(h, head.store, Seek(head.store, below, keys[1..]).store);
      }
    }
  }

  /** A lookup that does not inherit sees its own level, as it is, and writes nothing. */
  lemma {:induction false} FindPlain(h: Store, v: Valuer<Loc>, key: string)
    requires !Deep(v)
    ensures Find(h, v, key) == Sought(Bound(Get(h, Nearest(v)), key), h)
  {
    if v.SimpleValuer? { FindPlain(h, v.current, key); }
  }

  /** What the nearest level binds is what is found. */
  lemma {:induction false} FindNearest(h: Store, v: Valuer<Loc>, key: string)
    requires key in Get(h, Nearest(v))
    ensures Find(h, v, key).value == Some(Get(h, Nearest(v))[key])
  {
    if !v.MapValuer? { FindNearest(h, v.current, key); }
  }
}
