/**
 What inherited lookups leave behind when no map serves two purposes: which maps they have extended, and so
 what lookups that do not inherit see afterwards.
 */
module SharedEffects {
  import opened Wrappers
  import opened Stores
  import opened Valuers
  import opened SharedLookup
  import opened SharedOverlay

  /** The level binds the key to a map. */
  predicate BindsMap(h: Store, levels: seq<Loc>, n: nat, key: string)
    requires n < |levels|
  {
    key in Get(h, levels[n]) && Get(h, levels[n])[key].MapAt?
  }

  /** The map a level binds the key to. */
  function PerKey(h: Store, levels: seq<Loc>, n: nat, key: string): Loc
    requires n < |levels| && BindsMap(h, levels, n, key)
  {
    Get(h, levels[n])[key].loc
  }

  /** A level and a key. */
  type Place = (nat, string)

  ghost predicate At(h: Store, levels: seq<Loc>, p: Place, l: Loc)
  {
    p.0 < |levels| && BindsMap(h, levels, p.0, p.1) && PerKey(h, levels, p.0, p.1) == l
  }

  /** The maps bound to asked keys are different maps, and none of them is a level itself. */
  ghost predicate Separate(h: Store, levels: seq<Loc>, keys: set<string>)
  {
    (forall p: Place, l :: p.1 in keys && At(h, levels, p, l) ==> 0 <= l < |h| && l !in levels) &&
    (forall p: Place, q: Place, l ::
       p.1 in keys && q.1 in keys && At(h, levels, p, l) && At(h, levels, q, l) ==> p == q)
  }

  ghost function Content(was: Store, levels: seq<Loc>, p: Place): Entries
    requires p.0 < |levels|
  {
    var all := Overlay(was, levels[p.0..], p.1);
    if all.Some? && all.value.Branch? then all.value.entries else map[]
  }

  /** The maps of `was`, with those at the given places replaced by the overlay. */
  ghost function Filled(was: Store, levels: seq<Loc>, places: set<Place>): (h: Store)
    ensures |h| == |was|
  {
    seq(|was|, l requires 0 <= l < |was| => FilledMap(was, levels, places, l))
  }

  ghost function FilledMap(was: Store, levels: seq<Loc>, places: set<Place>, l: Loc): Entries
  {
    if exists p :: p in places && At(was, levels, p, l) then
      var p :| p in places && At(was, levels, p, l);
      Content(was, levels, p)
    else Get(was, l)
  }

  ghost predicate Among(levels: seq<Loc>, keys: set<string>, places: set<Place>)
  {
    forall p :: p in places ==> p.0 < |levels| && p.1 in keys
  }

  lemma FilledAt(was: Store, levels: seq<Loc>, keys: set<string>, places: set<Place>, n: nat, key: string)
    requires Separate(was, levels, keys) && Among(levels, keys, places)
    requires n < |levels| && key in keys && BindsMap(was, levels, n, key)
    ensures Get(Filled(was, levels, places), PerKey(was, levels, n, key)) ==
            if (n, key) in places then Content(was, levels, (n, key)) else Get(was, PerKey(was, levels, n, key))
  {
    var l := PerKey(was, levels, n, key);
    forall p | p in places && At(was, levels, p, l) ensures p == (n, key) {
      assert p == (p.0, p.1);
    }
    if (n, key) in places { assert At(was, levels, (n, key), l); }
  }

  lemma FilledElsewhere(was: Store, levels: seq<Loc>, places: set<Place>, l: Loc)
    requires forall p :: p in places ==> !At(was, levels, p, l)
    ensures Get(Filled(was, levels, places), l) == Get(was, l)
  {
  }

  /** Levels are not written to. */
  lemma FilledLevel(was: Store, levels: seq<Loc>, keys: set<string>, places: set<Place>, n: nat)
    requires Separate(was, levels, keys) && Among(levels, keys, places) && n < |levels|
    ensures Get(Filled(was, levels, places), levels[n]) == Get(was, levels[n])
  {
    forall p | p in places ensures !At(was, levels, p, levels[n]) {
      assert p == (p.0, p.1) && levels[n] in levels;
    }
    FilledElsewhere(was, levels, places, levels[n]);
  }

  /** The content of a place extends the map that is there. */
  lemma ContentExtends(was: Store, levels: seq<Loc>, n: nat, key: string)
    requires n < |levels| && BindsMap(was, levels, n, key)
    ensures Overlay(was, levels[n..], key) == Some(Branch(Content(was, levels, (n, key))))
    ensures Within(Get(was, PerKey(was, levels, n, key)), Content(was, levels, (n, key)))
  {
    OverlayStep(was, levels, n, key);
  }

  lemma FilledGrows(was: Store, levels: seq<Loc>, keys: set<string>, some: set<Place>, more: set<Place>)
    requires Separate(was, levels, keys) && Among(levels, keys, more) && some <= more
    ensures Extends(Filled(was, levels, some), Filled(was, levels, more)) && Extends(was, Filled(was, levels, more))
  {
    forall l: Loc
      ensures Within(Get(Filled(was, levels, some), l), Get(Filled(was, levels, more), l)) &&
              Within(Get(was, l), Get(Filled(was, levels, more), l))
    {
      if p :| p in more && At(was, levels, p, l) {
        assert p == (p.0, p.1);
        FilledAt(was, levels, keys, some, p.0, p.1);
        FilledAt(was, levels, keys, more, p.0, p.1);
        ContentExtends(was, levels, p.0, p.1);
      } else {
        FilledElsewhere(was, levels, some, l);
        FilledElsewhere(was, levels, more, l);
      }
    }
  }

  function AllPlaces(levels: seq<Loc>, keys: set<string>): set<Place>
  {
    set n: nat, key | n < |levels| && key in keys :: (n, key)
  }

  /** When no map serves two purposes, filling all of them is a completion. */
  lemma SeparateCompletes(was: Store, levels: seq<Loc>, keys: set<string>)
    requires Separate(was, levels, keys)
    ensures Completes(was, Filled(was, levels, AllPlaces(levels, keys)), levels, keys)
  {
    var all := AllPlaces(levels, keys);
    var full := Filled(was, levels, all);
    FilledGrows(was, levels, keys, {}, all);
    forall i, key | 0 <= i < |levels| && key in keys ensures CompleteAt(was, full, levels, i, key) {
      FilledLevel(was, levels, keys, all, i);
      if key in Get(was, levels[i]) {
        OverlayStep(was, levels, i, key);
        if BindsMap(was, levels, i, key) {
          assert (i, key) in all;
          FilledAt(was, levels, keys, all, i, key);
          ContentExtends(was, levels, i, key);
        }
      }
    }
  }

  /** So inherited lookups keep showing the overlay of the levels as they were. */
  lemma SeparateKeeps(was: Store, levels: seq<Loc>, keys: set<string>)
    requires Separate(was, levels, keys)
    ensures KeepsOverlay(was, levels, keys)
  {
    SeparateCompletes(was, levels, keys);
    CompletionKeeps(was, Filled(was, levels, AllPlaces(levels, keys)), levels, keys);
  }

  // ---------- What a lookup extends ----------

  /** The places that an inherited lookup from level `n` on comes to: until a value that is no map cuts it off. */
  function Reach(was: Store, levels: seq<Loc>, n: nat, key: string): set<Place>
    requires n <= |levels|
    decreases |levels| - n
  {
    if n == |levels| then {}
    else if key !in Get(was, levels[n]) then Reach(was, levels, n + 1, key)
    else if BindsMap(was, levels, n, key) then {(n, key)} + Reach(was, levels, n + 1, key)
    else {}
  }

  /** Nothing between the levels cuts a lookup off. */
  ghost predicate Open(was: Store, levels: seq<Loc>, n: nat, m: nat, key: string)
    requires n <= m <= |levels|
  {
    forall i :: n <= i < m && key in Get(was, levels[i]) ==> Get(was, levels[i])[key].MapAt?
  }

  lemma {:induction false} ReachExactly(was: Store, levels: seq<Loc>, n: nat, key: string, p: Place)
    requires n <= |levels|
    ensures p in Reach(was, levels, n, key) <==>
              n <= p.0 < |levels| && p.1 == key && BindsMap(was, levels, p.0, key) && Open(was, levels, n, p.0, key)
    decreases |levels| - n
  {
    if n < |levels| { ReachExactly(was, levels, n + 1, key, p); }
  }

  lemma ReachAmong(was: Store, levels: seq<Loc>, n: nat, key: string, keys: set<string>)
    requires n <= |levels| && key in keys
    ensures Among(levels, keys, Reach(was, levels, n, key))
  {
    forall p | p in Reach(was, levels, n, key) ensures p.0 < |levels| && p.1 in keys {
      ReachExactly(was, levels, n, key, p);
    }
  }

  /** A store that has the right map at one place and is filled elsewhere is filled there too. */
  lemma FilledOneMore(was: Store, levels: seq<Loc>, keys: set<string>, places: set<Place>, n: nat, key: string,
                      h: Store)
    requires Separate(was, levels, keys) && Among(levels, keys, places)
    requires n < |levels| && key in keys && BindsMap(was, levels, n, key) && |h| == |was|
    requires var q := PerKey(was, levels, n, key);
             Get(h, q) == Content(was, levels, (n, key)) &&
             forall l: Loc :: l != q ==> Get(h, l) == Get(Filled(was, levels, places), l)
    ensures h == Filled(was, levels, places + {(n, key)})
  {
    var q, more := PerKey(was, levels, n, key), places + {(n, key)};
    forall l: Loc ensures Get(h, l) == Get(Filled(was, levels, more), l) {
      if l == q {
        FilledAt(was, levels, keys, more, n, key);
      } else if p :| p in places && At(was, levels, p, l) {
        assert p == (p.0, p.1);
        FilledAt(was, levels, keys, places, p.0, p.1);
        FilledAt(was, levels, keys, more, p.0, p.1);
      } else {
        assert !At(was, levels, (n, key), l);
        FilledElsewhere(was, levels, places, l);
        FilledElsewhere(was, levels, more, l);
      }
    }
    SameStores(h, Filled(was, levels, more));
  }

  lemma SameStores(a: Store, b: Store)
    requires |a| == |b| && forall l: Loc :: Get(a, l) == Get(b, l)
    ensures a == b
  {
    forall i | 0 <= i < |a| ensures a[i] == b[i] {
      assert Get(a, i) == a[i] && Get(b, i) == b[i];
    }
  }

  lemma FilledBetween(was: Store, levels: seq<Loc>, keys: set<string>, places: set<Place>)
    requires Separate(was, levels, keys) && Among(levels, keys, places)
    ensures Between(was, Filled(was, levels, places), Filled(was, levels, AllPlaces(levels, keys)))
  {
    var all := AllPlaces(levels, keys);
    forall p | p in places ensures p in all {
      assert p == (p.0, p.1);
    }
    FilledGrows(was, levels, keys, places, all);
    FilledGrows(was, levels, keys, {}, places);
  }

  /** The map of the outermost level has nothing to inherit. */
  lemma LastFills(was: Store, levels: seq<Loc>, keys: set<string>, places: set<Place>, key: string)
    requires Separate(was, levels, keys) && Among(levels, keys, places) && key in keys && levels != []
    ensures Filled(was, levels, places) == Filled(was, levels, places + Reach(was, levels, |levels| - 1, key))
  {
    var n := |levels| - 1;
    var h := Filled(was, levels, places);
    if BindsMap(was, levels, n, key) {
      OverlayStep(was, levels, n, key);
      FilledAt(was, levels, keys, places, n, key);
      FilledOneMore(was, levels, keys, places, n, key, h);
      assert Reach(was, levels, n, key) == {(n, key)};
    } else {
      assert Reach(was, levels, n, key) == {} && places + {} == places;
    }
  }

  /** The merge fills the map at the place of the level's own binding. */
  lemma MergeFills(was: Store, levels: seq<Loc>, keys: set<string>, places: set<Place>, n: nat, key: string,
                   above: Sought)
    requires Separate(was, levels, keys) && Among(levels, keys, places) && key in keys
    requires n < |levels| && BindsMap(was, levels, n, key) && above.store == Filled(was, levels, places)
    requires Right(was, Filled(was, levels, AllPlaces(levels, keys)), levels, n + 1, key, above)
    ensures Inherited(above, PerKey(was, levels, n, key)) == Filled(was, levels, places + {(n, key)})
  {
    var all, q := AllPlaces(levels, keys), PerKey(was, levels, n, key);
    var full := Filled(was, levels, all);
    SeparateCompletes(was, levels, keys);
    FilledLevel(was, levels, keys, all, n);
    assert CompleteAt(was, full, levels, n, key);
    MergeCompletes(was, full, levels, n, key, q, above);
    ContentExtends(was, levels, n, key);
    var h := Inherited(above, q);
    if above.value.Some? && above.value.value.MapAt? {
      var merged := Get(above.store, above.value.value.loc) + Get(above.store, q);
      forall l: Loc | l != q ensures Get(h, l) == Get(above.store, l) {
        GetPut(above.store, q, merged, l);
      }
    }
    FilledOneMore(was, levels, keys, places, n, key, h);
  }

  /** A lookup extends exactly the maps at the places it comes to, each to the overlay from there on. */
  lemma {:induction false} FindFills(was: Store, levels: seq<Loc>, keys: set<string>, places: set<Place>,
                                     v: Valuer<Loc>, n: nat, key: string)
    requires Separate(was, levels, keys) && Among(levels, keys, places) && key in keys
    requires Coherent(v) && Deep(v) && n < |levels| && Chain(v) == levels[n..]
    ensures Find(Filled(was, levels, places), v, key).store == Filled(was, levels, places + Reach(was, levels, n, key))
    decreases Rank(v), Depth(v)
  {
    assert Nearest(v) == Nearest(v.current) == levels[n];
    if v.SimpleValuer? {
      FindFills(was, levels, keys, places, v.current, n, key);
    } else if Deep(v.current) {
      FindFills(was, levels, keys, places, v.current, n, key);
      FillsAgain(was, levels, keys, places, v, n, key);
    } else {
      FillsOnce(was, levels, keys, places, v, n, key);
    }
  }

  /** A recursive valuer around one that does not inherit. */
  lemma {:induction false} FillsOnce(was: Store, levels: seq<Loc>, keys: set<string>, places: set<Place>,
                                     v: Valuer<Loc>, n: nat, key: string)
    requires Separate(was, levels, keys) && Among(levels, keys, places) && key in keys
    requires Coherent(v) && v.RecursiveValuer? && !Deep(v.current) && n < |levels| && Chain(v) == levels[n..]
    ensures Find(Filled(was, levels, places), v, key).store == Filled(was, levels, places + Reach(was, levels, n, key))
    decreases Rank(v), Depth(v), 0
  {
    var h := Filled(was, levels, places);
    assert Nearest(v) == Nearest(v.current) == levels[n];
    FindPlain(h, v.current, key);
    FilledLevel(was, levels, keys, places, n);
    ParentChain(v);
    if key in Get(was, levels[n]) && !BindsMap(was, levels, n, key) {
      assert places + {} == places;
    } else if Parent(v).None? {
      LastFills(was, levels, keys, places, key);
    } else {
      ParentIsSmaller(v);
      assert levels[n..][1..] == levels[n + 1..];
      FindFills(was, levels, keys, places, Parent(v).value, n + 1, key);
      if BindsMap(was, levels, n, key) {
        FilledBetween(was, levels, keys, places);
        SeparateCompletes(was, levels, keys);
        FindShows(was, Filled(was, levels, AllPlaces(levels, keys)), levels, keys, h, Parent(v).value, n + 1, key);
        ReachAmong(was, levels, n + 1, key, keys);
        var reached := places + Reach(was, levels, n + 1, key);
        MergeFills(was, levels, keys, reached, n, key, Find(h, Parent(v).value, key));
        assert reached + {(n, key)} == places + Reach(was, levels, n, key);
      }
    }
  }

  /** A recursive valuer around one that inherits already: going over the ancestors again changes nothing. */
  lemma {:induction false} FillsAgain(was: Store, levels: seq<Loc>, keys: set<string>, places: set<Place>,
                                      v: Valuer<Loc>, n: nat, key: string)
    requires Separate(was, levels, keys) && Among(levels, keys, places) && key in keys
    requires Coherent(v) && v.RecursiveValuer? && Deep(v.current) && n < |levels| && Chain(v) == levels[n..]
    requires Find(Filled(was, levels, places), v.current, key).store ==
             Filled(was, levels, places + Reach(was, levels, n, key))
    ensures Find(Filled(was, levels, places), v, key).store == Filled(was, levels, places + Reach(was, levels, n, key))
    decreases Rank(v), Depth(v), 0
  {
    var h, full := Filled(was, levels, places), Filled(was, levels, AllPlaces(levels, keys));
    var own := Find(h, v.current, key);
    assert Nearest(v) == Nearest(v.current) == levels[n];
    FilledLevel(was, levels, keys, places, n);
    if key in Get(h, levels[n]) { FindNearest(h, v.current, key); }
    ParentChain(v);
    if !(own.value.Some? && !own.value.value.MapAt?) && Parent(v).Some? {
      var reached := places + Reach(was, levels, n, key);
      ReachAmong(was, levels, n, key, keys);
      ParentIsSmaller(v);
      assert levels[n..][1..] == levels[n + 1..];
      FindFills(was, levels, keys, reached, Parent(v).value, n + 1, key);
      assert reached + Reach(was, levels, n + 1, key) == reached;
      if own.value.Some? {
        FilledBetween(was, levels, keys, places);
        FilledBetween(was, levels, keys, reached);
        SeparateCompletes(was, levels, keys);
        FindShows(was, full, levels, keys, h, v.current, n, key);
        FindShows(was, full, levels, keys, own.store, Parent(v).value, n + 1, key);
        FindExtends(own.store, Parent(v).value, key);
        MergeAgain(was, full, levels, n, key, own, Find(own.store, Parent(v).value, key));
      }
    }
  }

  // ---------- After any sequence of lookups ----------

  /** The level that an inheriting valuer starts from. */
  function From(levels: seq<Loc>, v: Valuer<Loc>): int
  {
    |levels| - |Chain(v)|
  }

  /** The places that some of the lookups have come to. */
  function Touched(was: Store, levels: seq<Loc>, asks: seq<Ask>): set<Place>
  {
    if asks == [] then {}
    else
      var n := |asks| - 1;
      var from := From(levels, asks[n].v);
      Touched(was, levels, asks[..n]) + if 0 <= from then Reach(was, levels, from, asks[n].key) else {}
  }

  /** Some lookup of the key starts at or below the level, and nothing cuts it off before. */
  ghost predicate ComesBy(was: Store, levels: seq<Loc>, a: Ask, n: nat, key: string)
    requires n <= |levels|
  {
    a.key == key && 0 <= From(levels, a.v) <= n && Open(was, levels, From(levels, a.v), n, key)
  }

  lemma {:induction false} TouchedExactly(was: Store, levels: seq<Loc>, asks: seq<Ask>, n: nat, key: string)
    requires n < |levels|
    ensures (n, key) in Touched(was, levels, asks) <==>
              BindsMap(was, levels, n, key) && exists a :: a in asks && ComesBy(was, levels, a, n, key)
  {
    if asks != [] {
      var m := |asks| - 1;
      var from := From(levels, asks[m].v);
      TouchedExactly(was, levels, asks[..m], n, key);
      if 0 <= from { ReachExactly(was, levels, from, asks[m].key, (n, key)); }
      if a :| a in asks && ComesBy(was, levels, a, n, key) {
        assert a == asks[m] || a in asks[..m];
      }
      assert asks[m] in asks && forall a :: a in asks[..m] ==> a in asks;
      assert BindsMap(was, levels, n, key) && ComesBy(was, levels, asks[m], n, key) ==>
             (n, key) in Reach(was, levels, from, asks[m].key);
    }
  }

  lemma {:induction false} AfterIsFilled(was: Store, levels: seq<Loc>, keys: set<string>, asks: seq<Ask>)
    requires Separate(was, levels, keys) && AllAskFor(asks, levels, keys)
    ensures Among(levels, keys, Touched(was, levels, asks))
    ensures After(was, asks) == Filled(was, levels, Touched(was, levels, asks))
  {
    if asks == [] {
      forall l: Loc ensures Get(was, l) == Get(Filled(was, levels, {}), l) {
        FilledElsewhere(was, levels, {}, l);
      }
      SameStores(was, Filled(was, levels, {}));
    } else {
      var m := |asks| - 1;
      var a := asks[m];
      AfterIsFilled(was, levels, keys, asks[..m]);
      assert AsksFor(a, levels, keys);
      var n :| 0 <= n < |levels| && Chain(a.v) == levels[n..];
      ReachAmong(was, levels, n, a.key, keys);
      FindFills(was, levels, keys, Touched(was, levels, asks[..m]), a.v, n, a.key);
    }
  }

  /**
   What a lookup that does not inherit sees after any sequence of inherited lookups: its own level's binding;
   if that is a map, the map has been extended to the overlay if some lookup has come by, and else not at all.
   */
  lemma PlainAfter(was: Store, levels: seq<Loc>, keys: set<string>, asks: seq<Ask>, v: Valuer<Loc>, n: nat, key: string)
    requires Separate(was, levels, keys) && AllAskFor(asks, levels, keys)
    requires !Deep(v) && n < |levels| && Nearest(v) == levels[n] && key in keys
    ensures var h := After(was, asks);
            Find(h, v, key) == Sought(Bound(Get(was, levels[n]), key), h) &&
            (BindsMap(was, levels, n, key) ==>
               Overlay(was, levels[n..], key) == Some(Branch(Content(was, levels, (n, key)))) &&
               Get(h, PerKey(was, levels, n, key)) ==
                 if exists a :: a in asks && ComesBy(was, levels, a, n, key) then Content(was, levels, (n, key))
                 else Get(was, PerKey(was, levels, n, key)))
  {
    var touched := Touched(was, levels, asks);
    AfterIsFilled(was, levels, keys, asks);
    FindPlain(After(was, asks), v, key);
    FilledLevel(was, levels, keys, touched, n);
    if BindsMap(was, levels, n, key) {
      FilledAt(was, levels, keys, touched, n, key);
      TouchedExactly(was, levels, asks, n, key);
      ContentExtends(was, levels, n, key);
    }
  }

  /**
   When a lookup that does not inherit is left alone: exactly if no inherited lookup of its key that starts at
   or below its level has come by, or the levels above have nothing to add to its map.
   */
  lemma PlainUnaffectedExactly(was: Store, levels: seq<Loc>, keys: set<string>, asks: seq<Ask>, n: nat, key: string)
    requires Separate(was, levels, keys) && AllAskFor(asks, levels, keys)
    requires n < |levels| && key in keys && BindsMap(was, levels, n, key)
    ensures var q := PerKey(was, levels, n, key);
            Get(After(was, asks), q) == Get(was, q) <==>
              !((exists a :: a in asks && ComesBy(was, levels, a, n, key)) &&
                (exists sub :: sub in Content(was, levels, (n, key)) && sub !in Get(was, q)))
  {
    var q := PerKey(was, levels, n, key);
    PlainAfter(was, levels, keys, asks, MapValuer(levels[n]), n, key);
    ContentExtends(was, levels, n, key);
    if forall sub :: sub in Content(was, levels, (n, key)) ==> sub in Get(was, q) {
      SameEntries(Get(was, q), Content(was, levels, (n, key)));
    }
  }
}
