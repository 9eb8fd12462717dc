/**
 When inherited lookups on shared maps keep showing the overlay of the levels as they were: exactly if the
 maps can be completed so that every asked key that is bound at a level is bound to its overlay.
 */
module SharedOverlay {
  import opened Wrappers
  import opened Stores
  import opened Valuers
  import opened SharedLookup

  // ---------- The overlay of levels in memory ----------

  /** What a value amounts to: a map by its content, anything else by itself. */
  datatype Shown = Leaf(ref: Ref) | Branch(entries: Entries)

  function View(h: Store, r: Ref): Shown
  {
    if r.MapAt? then Branch(Get(h, r.loc)) else Leaf(r)
  }

  /** One pass over the levels, nearest first, on maps as they are in `h`. */
  function Overlay(h: Store, levels: seq<Loc>, key: string): Option<Shown>
  {
    if levels == [] then None
    else
      var above := Overlay(h, levels[1..], key);
      if key !in Get(h, levels[0]) then above
      else
        var own := View(h, Get(h, levels[0])[key]);
        if own.Branch? && above.Some? && above.value.Branch? then Some(Branch(above.value.entries + own.entries))
        else Some(own)
  }

  /** What was found amounts to what is wanted. */
  predicate Shows(h: Store, r: Option<Ref>, wanted: Option<Shown>)
  {
    if r.Some? then wanted == Some(View(h, r.value)) else wanted == None
  }

  /**
   `full` completes the maps of `was`: there, every asked key that a level binds is bound to the overlay of
   the levels from that one on, as they were.
   */
  ghost predicate Completes(was: Store, full: Store, levels: seq<Loc>, keys: set<string>)
  {
    Extends(was, full) && |was| == |full| &&
    forall i, key :: 0 <= i < |levels| && key in keys ==> CompleteAt(was, full, levels, i, key)
  }

  ghost predicate CompleteAt(was: Store, full: Store, levels: seq<Loc>, i: nat, key: string)
    requires i < |levels|
  {
    key in Get(full, levels[i]) ==> Overlay(was, levels[i..], key) == Some(View(full, Get(full, levels[i])[key]))
  }

  /** `h` lies between `was` and `full`. */
  ghost predicate Between(was: Store, h: Store, full: Store)
  {
    Extends(was, h) && Extends(h, full) && |was| == |h| == |full|
  }

  /** The overlay at a level is that of the levels above it, with the level's own binding laid over it. */
  lemma OverlayStep(h: Store, levels: seq<Loc>, n: nat, key: string)
    requires n < |levels|
    ensures var above, all := Overlay(h, levels[n + 1..], key), Overlay(h, levels[n..], key);
            if key !in Get(h, levels[n]) then all == above
            else
              var own := View(h, Get(h, levels[n])[key]);
              all == Some(if own.Branch? && above.Some? && above.value.Branch? then
                            Branch(above.value.entries + own.entries)
                          else own)
  {
    assert levels[n..][1..] == levels[n + 1..];
  }

  /** The content that the merge leaves, whatever part of it was there already. */
  lemma Merged(was: Store, full: Store, levels: seq<Loc>, n: nat, key: string, q: Loc, c: Entries, x: Entries)
    requires n < |levels| && CompleteAt(was, full, levels, n, key) && Extends(was, full)
    requires key in Get(full, levels[n]) && Get(full, levels[n])[key] == MapAt(q)
    requires Within(Get(was, q), x) && Within(x, Get(full, q))
    ensures var above := Overlay(was, levels[n + 1..], key);
            (above == Some(Branch(c)) ==> c + x == Get(full, q)) &&
            (above.None? || above.value.Leaf? ==> x == Get(full, q))
  {
    OverlayStep(was, levels, n, key);
    var above, o := Overlay(was, levels[n + 1..], key), Get(full, q);
    if key in Get(was, levels[n]) {
      assert Within(Get(was, levels[n]), Get(full, levels[n]));
    }
    if above == Some(Branch(c)) {
      SameEntries(c + x, o);
    } else if above.None? || above.value.Leaf? {
      SameEntries(x, o);
    }
  }

  lemma SameEntries(a: Entries, b: Entries)
    requires a.Keys == b.Keys && Within(a, b)
    ensures a == b
  {
  }

  lemma GetPut(h: Store, loc: Loc, entries: Entries, l: Loc)
    ensures Get(Put(h, loc, entries), l) == if l == loc && 0 <= loc < |h| then entries else Get(h, l)
  {
  }

  /** Completing one map keeps a store between. */
  lemma PutBetween(was: Store, h: Store, full: Store, q: Loc)
    requires Between(was, h, full)
    ensures var h' := Put(h, q, Get(full, q)); Between(was, h', full) && Get(h', q) == Get(full, q)
  {
    assert Within(Get(h, q), Get(full, q));
    forall l: Loc ensures Within(Get(was, l), Get(Put(h, q, Get(full, q)), l)) {
      assert Within(Get(was, l), Get(h, l)) && Within(Get(was, l), Get(full, l));
    }
    assert 0 <= q < |h| || (Get(full, q) == map[]);
  }

  // ---------- One lookup ----------

  /** What was found amounts to the overlay of the original levels, now and however far the maps are completed. */
  ghost predicate Right(was: Store, full: Store, levels: seq<Loc>, n: nat, key: string, r: Sought)
    requires n <= |levels|
  {
    Between(was, r.store, full) &&
    Shows(r.store, r.value, Overlay(was, levels[n..], key)) && Shows(full, r.value, Overlay(was, levels[n..], key))
  }

  /** What a level binds itself, as the maps are now. */
  lemma OwnBinding(was: Store, full: Store, levels: seq<Loc>, n: nat, key: string, h: Store)
    requires n < |levels| && CompleteAt(was, full, levels, n, key) && Between(was, h, full)
    ensures var own, all := Bound(Get(h, levels[n]), key), Overlay(was, levels[n..], key);
            if own.None? then all == Overlay(was, levels[n + 1..], key)
            else
              key in Get(full, levels[n]) && Get(full, levels[n])[key] == own.value && Shows(full, own, all) &&
              (!own.value.MapAt? ==> Shows(h, own, all))
  {
    assert Within(Get(was, levels[n]), Get(h, levels[n])) && Within(Get(h, levels[n]), Get(full, levels[n]));
    OverlayStep(was, levels, n, key);
  }

  /** Where there is nothing above, the map found is complete. */
  lemma LastLevel(was: Store, full: Store, levels: seq<Loc>, key: string, h: Store)
    requires levels != [] && CompleteAt(was, full, levels, |levels| - 1, key) && Between(was, h, full)
    ensures Right(was, full, levels, |levels| - 1, key, Sought(Bound(Get(h, levels[|levels| - 1]), key), h))
  {
    var n := |levels| - 1;
    var own := Bound(Get(h, levels[n]), key);
    OwnBinding(was, full, levels, n, key, h);
    if own.Some? && own.value.MapAt? {
      var q := own.value.loc;
      assert Within(Get(was, q), Get(h, q)) && Within(Get(h, q), Get(full, q));
      Merged(was, full, levels, n, key, q, map[], Get(h, q));
    }
  }

  /** The merge completes the map found at level `n`, if nothing has completed it before. */
  lemma MergeCompletes(was: Store, full: Store, levels: seq<Loc>, n: nat, key: string, q: Loc, above: Sought)
    requires n < |levels| && CompleteAt(was, full, levels, n, key)
    requires key in Get(full, levels[n]) && Get(full, levels[n])[key] == MapAt(q)
    requires Right(was, full, levels, n + 1, key, above)
    ensures Right(was, full, levels, n, key, Sought(Some(MapAt(q)), Inherited(above, q)))
  {
    var x := Get(above.store, q);
    assert Within(Get(was, q), x) && Within(x, Get(full, q));
    var c := if above.value.Some? && above.value.value.MapAt? then Get(above.store, above.value.value.loc) else map[];
    Merged(was, full, levels, n, key, q, c, x);
    PutBetween(was, above.store, full, q);
  }

  /** And changes nothing if it is complete already. */
  lemma MergeAgain(was: Store, full: Store, levels: seq<Loc>, n: nat, key: string, own: Sought, above: Sought)
    requires n < |levels| && own.value.Some? && own.value.value.MapAt? && Right(was, full, levels, n, key, own)
    requires Right(was, full, levels, n + 1, key, above) && Extends(own.store, above.store)
    ensures Right(was, full, levels, n, key, Sought(own.value, Inherited(above, own.value.value.loc)))
    ensures Inherited(above, own.value.value.loc) == above.store
  {
    var q := own.value.value.loc;
    var o := Get(full, q);
    assert Within(Get(own.store, q), Get(above.store, q)) && Within(Get(above.store, q), o) && Get(own.store, q) == o;
    SameEntries(Get(above.store, q), o);
    if above.value.Some? && above.value.value.MapAt? {
      var c := Get(above.store, above.value.value.loc);
      OverlayStep(was, levels, n, key);
      SameEntries(c + o, o);
      PutBetween(was, above.store, full, q);
    }
  }

  /**
   While the maps lie between the original ones and a completion of them, an inherited lookup finds what the
   overlay of the original levels says and leaves them there, however often it goes over the same ancestors.
   */
  lemma {:induction false} FindShows(was: Store, full: Store, levels: seq<Loc>, keys: set<string>,
                                     h: Store, v: Valuer<Loc>, n: nat, key: string)
    requires Completes(was, full, levels, keys) && Between(was, h, full) && key in keys
    requires Coherent(v) && Deep(v) && n < |levels| && Chain(v) == levels[n..]
    ensures Right(was, full, levels, n, key, Find(h, v, key))
    decreases Rank(v), Depth(v)
  {
    assert CompleteAt(was, full, levels, n, key);
    assert Nearest(v) == Nearest(v.current) == levels[n];
    if v.SimpleValuer? {
      FindShows(was, full, levels, keys, h, v.current, n, key);
    } else {
      var own := Find(h, v.current, key);
      if Deep(v.current) {
        FindShows(was, full, levels, keys, h, v.current, n, key);
      } else {
        FindPlain(h, v.current, key);
        OwnBinding(was, full, levels, n, key, h);
      }
      ParentChain(v);
      if own.value.Some? && !own.value.value.MapAt? {
      } else if Parent(v).None? {
        if !Deep(v.current) { LastLevel(was, full, levels, key, h); }
      } else {
        ParentIsSmaller(v);
        assert levels[n..][1..] == levels[n + 1..];
        FindShows(was, full, levels, keys, own.store, Parent(v).value, n + 1, key);
        FindExtends(own.store, Parent(v).value, key);
        var above := Find(own.store, Parent(v).value, key);
        if own.value.None? {
          OverlayStep(was, levels, n, key);
        } else if Deep(v.current) {
          MergeAgain(was, full, levels, n, key, own, above);
        } else {
          MergeCompletes(was, full, levels, n, key, own.value.value.loc, above);
        }
      }
    }
  }

  // ---------- Any sequence of lookups ----------

  /** An inherited lookup. */
  datatype Ask = Ask(v: Valuer<Loc>, key: string)

  /** The maps after some lookups, one after the other. */
  function After(h: Store, asks: seq<Ask>): Store
  {
    if asks == [] then h
    else
      var last := asks[|asks| - 1];
      Find(After(h, asks[..|asks| - 1]), last.v, last.key).store
  }

  /** The valuer inherits, from one of the levels and all levels around it. */
  ghost predicate Inheriting(v: Valuer<Loc>, levels: seq<Loc>)
  {
    Coherent(v) && Deep(v) && exists n :: 0 <= n < |levels| && Chain(v) == levels[n..]
  }

  ghost predicate AsksFor(a: Ask, levels: seq<Loc>, keys: set<string>)
  {
    Inheriting(a.v, levels) && a.key in keys
  }

  ghost predicate AllAskFor(asks: seq<Ask>, levels: seq<Loc>, keys: set<string>)
  {
    forall a :: a in asks ==> AsksFor(a, levels, keys)
  }

  lemma {:induction false} AfterExtends(h: Store, asks: seq<Ask>)
    ensures Extends(h, After(h, asks)) && |After(h, asks)| == |h|
  {
    if asks != [] {
      var n := |asks| - 1;
      AfterExtends(h, asks[..n]);
      FindExtends(After(h, asks[..n]), asks[n].v, asks[n].key);
      ExtendsTransitive(h, After(h, asks[..n]), After(h, asks));
    }
  }

  lemma {:induction false} AfterBetween(was: Store, full: Store, levels: seq<Loc>, keys: set<string>, asks: seq<Ask>)
    requires Completes(was, full, levels, keys) && AllAskFor(asks, levels, keys)
    ensures Between(was, After(was, asks), full)
  {
    if asks != [] {
      var m := |asks| - 1;
      var a := asks[m];
      AfterBetween(was, full, levels, keys, asks[..m]);
      assert AsksFor(a, levels, keys);
      var n :| 0 <= n < |levels| && Chain(a.v) == levels[n..];
      FindShows(was, full, levels, keys, After(was, asks[..m]), a.v, n, a.key);
    }
  }

  /** After the lookups `asks`, the lookup `a` shows the overlay of the levels as they were. */
  ghost predicate ShowsOriginal(was: Store, asks: seq<Ask>, a: Ask)
  {
    var r := Find(After(was, asks), a.v, a.key);
    Shows(r.store, r.value, Overlay(was, Chain(a.v), a.key))
  }

  /** Every inherited lookup of these keys, after any others, shows the overlay of the levels as they were. */
  ghost predicate KeepsOverlay(was: Store, levels: seq<Loc>, keys: set<string>)
  {
    forall asks: seq<Ask>, a: Ask ::
      AllAskFor(asks, levels, keys) && AsksFor(a, levels, keys) ==> ShowsOriginal(was, asks, a)
  }

  lemma CompletionKeeps(was: Store, full: Store, levels: seq<Loc>, keys: set<string>)
    requires Completes(was, full, levels, keys)
    ensures KeepsOverlay(was, levels, keys)
  {
    forall asks: seq<Ask>, a: Ask | AllAskFor(asks, levels, keys) && AsksFor(a, levels, keys)
      ensures ShowsOriginal(was, asks, a)
    {
      AfterBetween(was, full, levels, keys, asks);
      var n :| 0 <= n < |levels| && Chain(a.v) == levels[n..];
      FindShows(was, full, levels, keys, After(was, asks), a.v, n, a.key);
    }
  }

  // ---------- The completion that lookups arrive at ----------

  /** An inheriting valuer for the given levels. */
  function Stack(levels: seq<Loc>): Valuer<Loc>
    requires levels != []
  {
    RecursiveValuer(MapValuer(levels[0]), if |levels| == 1 then None else Some(Stack(levels[1..])))
  }

  lemma {:induction false} StackInherits(levels: seq<Loc>)
    requires levels != []
    ensures Coherent(Stack(levels)) && Deep(Stack(levels)) && Chain(Stack(levels)) == levels
  {
    if |levels| > 1 {
      StackInherits(levels[1..]);
      assert levels == [levels[0]] + levels[1..];
    }
    assert Nearest(MapValuer(levels[0])) == levels[0];
  }

  function StackAsk(levels: seq<Loc>, i: nat, key: string): Ask
    requires i < |levels|
  {
    Ask(Stack(levels[i..]), key)
  }

  lemma StackAsks(levels: seq<Loc>, i: nat, key: string, keys: set<string>)
    requires i < |levels| && key in keys
    ensures AsksFor(StackAsk(levels, i, key), levels, keys) && Chain(Stack(levels[i..])) == levels[i..]
  {
    StackInherits(levels[i..]);
  }

  /** No lookup of the keys changes anything any more. */
  ghost predicate Stable(h: Store, levels: seq<Loc>, keys: set<string>)
  {
    forall i, key :: 0 <= i < |levels| && key in keys ==> ChangesNothing(h, StackAsk(levels, i, key))
  }

  predicate ChangesNothing(h: Store, a: Ask)
  {
    Find(h, a.v, a.key).store == h
  }

  ghost predicate KeysWithin(h: Store, all: set<string>)
  {
    forall l: Loc :: Get(h, l).Keys <= all
  }

  function KeysOf(h: Store): set<string>
  {
    if h == [] then {} else h[0].Keys + KeysOf(h[1..])
  }

  lemma {:induction false} KeysOfAll(h: Store)
    ensures KeysWithin(h, KeysOf(h))
  {
    if h != [] {
      KeysOfAll(h[1..]);
      forall l: Loc ensures Get(h, l).Keys <= KeysOf(h) {
        if 0 < l < |h| { assert Get(h, l) == Get(h[1..], l - 1); }
      }
    }
  }

  /** Lookups copy bindings, so that no new keys come up. */
  lemma {:induction false} FindKeys(h: Store, v: Valuer<Loc>, key: string, all: set<string>)
    requires KeysWithin(h, all)
    ensures KeysWithin(Find(h, v, key).store, all)
    decreases Rank(v), Depth(v)
  {
    if !v.MapValuer? {
      FindKeys(h, v.current, key, all);
      if v.RecursiveValuer? && Parent(v).Some? {
        ParentIsSmaller(v);
        var own := Find(h, v.current, key);
        FindKeys(own.store, Parent(v).value, key, all);
        if own.value.Some? && own.value.value.MapAt? {
          InheritedKeys(Find(own.store, Parent(v).value, key), own.value.value.loc, all);
        }
      }
    }
  }

  lemma InheritedKeys(above: Sought, loc: Loc, all: set<string>)
    requires KeysWithin(above.store, all)
    ensures KeysWithin(Inherited(above, loc), all)
  {
    if above.value.Some? && above.value.value.MapAt? {
      var filled := Get(above.store, above.value.value.loc) + Get(above.store, loc);
      assert filled.Keys <= all;
      forall l: Loc ensures Get(Inherited(above, loc), l).Keys <= all {
        GetPut(above.store, loc, filled, l);
      }
    }
  }

  /** How many bindings the maps can still gain. */
  function Room(h: Store, all: set<string>): nat
  {
    if h == [] then 0 else |all - h[0].Keys| + Room(h[1..], all)
  }

  lemma LessRoom(a: Entries, b: Entries, all: set<string>)
    requires Within(a, b) && b.Keys <= all
    ensures |all - b.Keys| <= |all - a.Keys| && (a != b ==> |all - b.Keys| < |all - a.Keys|)
  {
    assert all - b.Keys <= all - a.Keys;
    SubsetIsSmaller(all - b.Keys, all - a.Keys);
    if all - b.Keys == all - a.Keys {
      assert forall k :: k in b ==> k !in all - a.Keys;
      SameEntries(a, b);
    }
  }

  lemma {:induction false} SubsetIsSmaller(a: set<string>, b: set<string>)
    requires a <= b
    ensures |a| <= |b| && (a != b ==> |a| < |b|)
  {
    assert b == a + (b - a);
    assert |b| == |a| + |b - a|;
    if |b - a| == 0 { assert b - a == {}; }
  }

  predicate Gains(h: Store, h': Store, all: set<string>)
  {
    |h| == |h'| && forall i :: 0 <= i < |h| ==> Within(h[i], h'[i]) && h'[i].Keys <= all
  }

  lemma {:induction false} RoomShrinks(h: Store, h': Store, all: set<string>)
    requires Gains(h, h', all)
    ensures Room(h', all) <= Room(h, all) && (h != h' ==> Room(h', all) < Room(h, all))
  {
    if h != [] {
      LessRoom(h[0], h'[0], all);
      GainsRest(h, h', all);
      RoomShrinks(h[1..], h'[1..], all);
    }
  }

  lemma GainsRest(h: Store, h': Store, all: set<string>)
    requires Gains(h, h', all) && h != []
    ensures Gains(h[1..], h'[1..], all) && (h != h' ==> h[0] != h'[0] || h[1..] != h'[1..])
  {
    assert h == [h[0]] + h[1..] && h' == [h'[0]] + h'[1..];
  }

  /** Asking for what still changes something comes to an end. */
  lemma {:induction false} Saturate(was: Store, levels: seq<Loc>, keys: set<string>, asks: seq<Ask>, all: set<string>)
    returns (more: seq<Ask>)
    requires AllAskFor(asks, levels, keys) && KeysWithin(After(was, asks), all)
    ensures AllAskFor(more, levels, keys) && Stable(After(was, more), levels, keys)
    decreases Room(After(was, asks), all)
  {
    var h := After(was, asks);
    if Stable(h, levels, keys) {
      more := asks;
    } else {
      var i, key :| 0 <= i < |levels| && key in keys && !ChangesNothing(h, StackAsk(levels, i, key));
      var a := StackAsk(levels, i, key);
      StackAsks(levels, i, key, keys);
      FindKeys(h, a.v, key, all);
      OneMoreAsk(was, asks, a, all);
      more := Saturate(was, levels, keys, asks + [a], all);
    }
  }

  lemma OneMoreAsk(was: Store, asks: seq<Ask>, a: Ask, all: set<string>)
    requires !ChangesNothing(After(was, asks), a) && KeysWithin(Find(After(was, asks), a.v, a.key).store, all)
    ensures After(was, asks + [a]) == Find(After(was, asks), a.v, a.key).store
    ensures Room(After(was, asks + [a]), all) < Room(After(was, asks), all)
  {
    var h, h' := After(was, asks), Find(After(was, asks), a.v, a.key).store;
    assert (asks + [a])[..|asks|] == asks;
    FindExtends(h, a.v, a.key);
    forall i | 0 <= i < |h| ensures Within(h[i], h'[i]) && h'[i].Keys <= all {
      assert Get(h, i) == h[i] && Get(h', i) == h'[i];
    }
    RoomShrinks(h, h', all);
  }

  /** Where the overlay is kept, the maps that lookups arrive at complete the original ones. */
  lemma KeepingCompletes(was: Store, levels: seq<Loc>, keys: set<string>) returns (full: Store)
    requires KeepsOverlay(was, levels, keys)
    ensures Completes(was, full, levels, keys)
  {
    KeysOfAll(was);
    var asks := Saturate(was, levels, keys, [], KeysOf(was));
    full := After(was, asks);
    AfterExtends(was, asks);
    forall i, key | 0 <= i < |levels| && key in keys ensures CompleteAt(was, full, levels, i, key) {
      var a := StackAsk(levels, i, key);
      StackAsks(levels, i, key, keys);
      assert ShowsOriginal(was, asks, a) && ChangesNothing(full, a);
      assert Nearest(a.v) == levels[i];
      if key in Get(full, levels[i]) { FindNearest(full, a.v, key); }
    }
  }

  /**
   For all maps, shared in whatever way: inherited lookups of the given keys keep showing the overlay of the
   original levels if and only if the maps have a completion.
   */
  lemma KeepsExactly(was: Store, levels: seq<Loc>, keys: set<string>)
    ensures KeepsOverlay(was, levels, keys) <==> exists full :: Completes(was, full, levels, keys)
  {
    if KeepsOverlay(was, levels, keys) {
      var full := KeepingCompletes(was, levels, keys);
    }
    if full :| Completes(was, full, levels, keys) {
      CompletionKeeps(was, full, levels, keys);
    }
  }
}
