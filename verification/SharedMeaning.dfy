/**
 The configuration that maps in memory stand for, and what inherited lookups in memory mean there: the
 overlay of module ValuerLookup, on the configuration as it was at first.
 */
module SharedMeaning {
  import opened Wrappers
  import opened Stores
  import opened Valuers
  import opened SharedLookup
  import opened SharedOverlay
  import Values
  import ValuerLookup

  type Value = Values.Value
  type Level = ValuerLookup.Level

  /** What a reference stands for: the maps it leads to are in memory, and there is no way back to any of them. */
  ghost predicate Stands(h: Store, r: Ref, v: Value)
    decreases v
  {
    match v
    case Null => r.Null?
    case Bool(b) => r == Ref.Bool(b)
    case Number(text) => r == Ref.Number(text)
    case Native(kind, num) => r == Ref.Native(kind, num)
    case Text(s) => r == Ref.Text(s)
    case List(items) => r.List? && |r.items| == |items| &&
      forall i :: 0 <= i < |items| ==> Stands(h, r.items[i], items[i])
    case Object(entries) =>
      r.MapAt? && r.loc < |h| && Get(h, r.loc).Keys == entries.Keys &&
      forall k :: k in entries ==> Stands(h, Get(h, r.loc)[k], entries[k])
  }

  ghost predicate EntriesStand(h: Store, entries: Entries, level: Level)
  {
    entries.Keys == level.Keys && forall k :: k in level ==> Stands(h, entries[k], level[k])
  }

  /** Each of the levels in memory stands for the level of the configuration. */
  ghost predicate LevelsStand(h: Store, levels: seq<Loc>, config: seq<Level>)
  {
    |levels| == |config| && forall i :: 0 <= i < |levels| ==> EntriesStand(h, Get(h, levels[i]), config[i])
  }

  ghost predicate ShownStands(h: Store, shown: Option<Shown>, value: Option<Value>)
  {
    match shown
    case None => value.None?
    case Some(Leaf(ref)) => value.Some? && !value.value.Object? && Stands(h, ref, value.value)
    case Some(Branch(entries)) => value.Some? && value.value.Object? && EntriesStand(h, entries, value.value.entries)
  }

  /** A level's own binding, laid over what the levels above it show. */
  lemma LaidOver(h: Store, own: Ref, value: Value, above: Option<Shown>, outer: Option<Value>)
    requires Stands(h, own, value) && ShownStands(h, above, outer)
    ensures var shown := View(h, own);
            shown.Branch? && above.Some? && above.value.Branch? ==>
              value.Object? && outer.Some? && outer.value.Object? &&
              EntriesStand(h, above.value.entries + shown.entries,
                           ValuerLookup.Filled(value.entries, outer.value.entries))
    ensures value.Object? && outer.Some? && outer.value.Object? ==> own.MapAt? && above.Some? && above.value.Branch?
    ensures ShownStands(h, Some(View(h, own)), Some(value))
  {
  }

  /** The overlay in memory stands for the overlay of the configuration. */
  lemma {:induction false} OverlayStands(h: Store, levels: seq<Loc>, config: seq<Level>, key: string)
    requires LevelsStand(h, levels, config)
    ensures ShownStands(h, Overlay(h, levels, key), ValuerLookup.Overlay(config, key))
  {
    if levels != [] {
      var entries, level := Get(h, levels[0]), config[0];
      assert EntriesStand(h, entries, level);
      OverlayStands(h, levels[1..], config[1..], key);
      if key in level {
        assert Stands(h, entries[key], level[key]);
        LaidOver(h, entries[key], level[key], Overlay(h, levels[1..], key), ValuerLookup.Overlay(config[1..], key));
      }
    }
  }

  /** The same for a valuer on values, whatever part of the levels it starts from. */
  lemma LookupStands(h: Store, levels: seq<Loc>, config: seq<Level>, n: nat, v: Valuer<Level>, key: string)
    requires LevelsStand(h, levels, config) && n <= |levels|
    requires Coherent(v) && Deep(v) && Chain(v) == config[n..]
    ensures ShownStands(h, Overlay(h, levels[n..], key), ValuerLookup.Lookup(v, key))
  {
    OverlayStands(h, levels[n..], config[n..], key);
    ValuerLookup.LookupIsOverlay(v, key);
  }

  /** What a lookup has found, as the maps are after it. */
  function Outcome(r: Sought): Option<Shown>
  {
    if r.value.None? then None else Some(View(r.store, r.value.value))
  }

  /**
   Maps in memory that have a completion behave like the configuration they stood for at first: after any
   inherited lookups, an inherited lookup by a valuer of its levels finds what the same valuer finds on
   values, and the content of a map that is found is that of the value.
   */
  lemma LookupsMean(was: Store, full: Store, levels: seq<Loc>, keys: set<string>, config: seq<Level>,
                    asks: seq<Ask>, a: Ask, v: Valuer<Level>)
    requires Completes(was, full, levels, keys) && LevelsStand(was, levels, config)
    requires AllAskFor(asks, levels, keys) && AsksFor(a, levels, keys)
    requires Coherent(v) && Deep(v) && Chain(v) == config[|config| - |Chain(a.v)|..]
    ensures ShownStands(was, Outcome(Find(After(was, asks), a.v, a.key)), ValuerLookup.Lookup(v, a.key))
  {
    var n :| 0 <= n < |levels| && Chain(a.v) == levels[n..];
    LookupStands(was, levels, config, n, v, a.key);
    OutcomeShows(was, full, levels, keys, asks, a);
  }

  lemma OutcomeShows(was: Store, full: Store, levels: seq<Loc>, keys: set<string>, asks: seq<Ask>, a: Ask)
    requires Completes(was, full, levels, keys) && AllAskFor(asks, levels, keys) && AsksFor(a, levels, keys)
    ensures Outcome(Find(After(was, asks), a.v, a.key)) == Overlay(was, Chain(a.v), a.key)
  {
    CompletionKeeps(was, full, levels, keys);
    assert ShowsOriginal(was, asks, a);
  }
}
