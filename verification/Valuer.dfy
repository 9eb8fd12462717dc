/**
 The valuers of core/mapping/valuer.go: objects that wrap one another to look a key up in a
 configuration level and, for `inherit` fields, in the levels around it.

 A valuer is generic in what a level is, so that the same wrapping is used on configurations as values
 (module ValuerLookup) and on maps in memory (module SharedLookup).
 */
module Valuers {
  import opened Wrappers

  datatype Valuer<L> =
    | MapValuer(level: L)
    | SimpleValuer(current: Valuer<L>, parent: Option<Valuer<L>>)
    | RecursiveValuer(current: Valuer<L>, parent: Option<Valuer<L>>)

  /** `Parent()`: every call wraps the stored parent anew. A bare map has no parent. */
  function Parent<L>(v: Valuer<L>): Option<Valuer<L>>
  {
    if v.MapValuer? || v.parent.None? then None
    else Some(RecursiveValuer(v.parent.value, Parent(v.parent.value)))
  }

  /** The valuer a field is resolved with, depending on its `inherit` option. */
  function CreateValuer<L>(v: Valuer<L>, inherit: bool): Valuer<L>
  {
    if inherit then RecursiveValuer(v, Parent(v)) else SimpleValuer(v, Parent(v))
  }

  /** The valuer of a nested struct: its own map, below the valuer its field was found with. */
  function Enter<L>(around: Valuer<L>, level: L): Valuer<L>
  {
    SimpleValuer(MapValuer(level), Some(around))
  }

  /** The valuer of the tail of a dotted key, once the head is resolved to a map. */
  function EnterChained<L>(around: Valuer<L>, level: L): Valuer<L>
  {
    RecursiveValuer(MapValuer(level), Some(around))
  }

  // ---------- The termination measure of a recursive lookup ----------

  /** Nesting of a valuer. Rewrapping never makes it larger. */
  function Rank<L>(v: Valuer<L>): nat
  {
    match v
    case MapValuer(_) => 0
    case SimpleValuer(c, p) => 1 + Max(Rank(c), if p.None? then 0 else Rank(p.value))
    case RecursiveValuer(c, p) => 1 + Max(Rank(c), if p.None? then 0 else Rank(p.value))
  }

  /** Number of ancestors. Going to the parent makes it smaller. */
  function Depth<L>(v: Valuer<L>): nat
  {
    if v.MapValuer? || v.parent.None? then 0 else 1 + Depth(v.parent.value)
  }

  function Max(a: nat, b: nat): nat
  {
    if a < b then b else a
  }

  /** Rewrapping ancestors on every call does not stop a lookup from ending, for any finite valuer. */
  lemma {:induction false} ParentIsSmaller<L>(v: Valuer<L>)
    requires Parent(v).Some?
    ensures Rank(Parent(v).value) <= Rank(v)
    ensures Depth(Parent(v).value) == Depth(v) - 1
  {
    var p := v.parent.value;
    if Parent(p).Some? {
      ParentIsSmaller(p);
    }
  }

  // ---------- The levels a valuer stands for ----------

  function Nearest<L>(v: Valuer<L>): L
  {
    if v.MapValuer? then v.level else Nearest(v.current)
  }

  /** The levels of a valuer, nearest first. */
  function Chain<L>(v: Valuer<L>): (ls: seq<L>)
    ensures |ls| > 0 && ls[0] == Nearest(v)
  {
    if v.MapValuer? || v.parent.None? then [Nearest(v)] else [Nearest(v)] + Chain(v.parent.value)
  }

  /** A wrapper and what it wraps stand for the same levels; only a bare map may stand for less. */
  ghost predicate Coherent<L>(v: Valuer<L>)
  {
    !v.MapValuer? &&
    (!v.current.MapValuer? ==> Coherent(v.current) && Chain(v.current) == Chain(v)) &&
    (v.parent.Some? ==> Coherent(v.parent.value))
  }

  /** Whether a lookup looks beyond the nearest level. */
  predicate Deep<L>(v: Valuer<L>)
  {
    v.RecursiveValuer? || (v.SimpleValuer? && Deep(v.current))
  }

  /** The parent stands for exactly the levels around the nearest one, however often it was rewrapped. */
  lemma {:induction false} ParentChain<L>(v: Valuer<L>)
    requires Coherent(v)
    ensures Parent(v).None? <==> |Chain(v)| == 1
    ensures Parent(v).Some? ==> Coherent(Parent(v).value) && Chain(Parent(v).value) == Chain(v)[1..]
  {
    if v.parent.Some? {
      ParentChain(v.parent.value);
    }
  }

  lemma {:induction false} CreateValuerChain<L>(v: Valuer<L>, inherit: bool)
    requires Coherent(v)
    ensures Coherent(CreateValuer(v, inherit)) && Chain(CreateValuer(v, inherit)) == Chain(v)
    ensures Deep(CreateValuer(v, inherit)) <==> inherit || Deep(v)
  {
    ParentChain(v);
  }

  /** How an unmarshalling run descends: into a nested struct through a field, or along a dotted key. */
  datatype Step<L> = Nested(inherit: bool, level: L) | Dotted(inherit: bool, level: L)

  function Descend<L>(v: Valuer<L>, step: Step<L>): Valuer<L>
  {
    match step
    case Nested(inherit, level) => Enter(CreateValuer(v, inherit), level)
    case Dotted(inherit, level) => EnterChained(CreateValuer(v, inherit), level)
  }

  /** The valuer reached from the root map by a sequence of descents, the last one being the deepest. */
  function Reached<L>(root: L, steps: seq<Step<L>>): Valuer<L>
  {
    if steps == [] then SimpleValuer(MapValuer(root), None)
    else Descend(Reached(root, steps[..|steps| - 1]), steps[|steps| - 1])
  }

  /** The levels passed on the way, nearest first. */
  function Passed<L>(root: L, steps: seq<Step<L>>): seq<L>
  {
    if steps == [] then [root]
    else [steps[|steps| - 1].level] + Passed(root, steps[..|steps| - 1])
  }

  lemma {:induction false} ReachedChain<L>(root: L, steps: seq<Step<L>>)
    ensures Coherent(Reached(root, steps))
    ensures Chain(Reached(root, steps)) == Passed(root, steps)
  {
    if steps == [] {
      assert Nearest(MapValuer(root)) == root;
    } else {
      var last := steps[|steps| - 1];
      var around := Reached(root, steps[..|steps| - 1]);
      ReachedChain(root, steps[..|steps| - 1]);
      CreateValuerChain(around, last.inherit);
      var wrapped := CreateValuer(around, last.inherit);
      var inner := MapValuer(last.level);
      assert Nearest(inner) == last.level;
      assert Chain(Reached(root, steps)) == [last.level] + Chain(wrapped);
      assert Passed(root, steps) == [last.level] + Passed(root, steps[..|steps| - 1]);
    }
  }
}

/** Lookups on immutable levels, and the overlay they compute. */
module ValuerLookup {
  import opened Wrappers
  import opened Values
  import opened Valuers

  type Level = map<string, Value>

  /** `Value(key)` of the three kinds of valuers. */
  function Lookup(v: Valuer<Level>, key: string): Option<Value>
    decreases Rank(v), Depth(v)
  {
    match v
    case MapValuer(level) => if key in level then Some(level[key]) else None
    case SimpleValuer(current, _) => Lookup(current, key)
    case RecursiveValuer(current, _) =>
      var own := Lookup(current, key);
      if Parent(v).None? then own
      else
        var above := (ParentIsSmaller(v); Lookup(Parent(v).value, key));
        if own.None? then above
        else if own.value.Object? && above.Some? && above.value.Object? then
          Some(Object(Filled(own.value.entries, above.value.entries)))
        else own
  }

  /** `own`, with the keys it lacks taken from `above`. */
  function Filled(own: Level, above: Level): (r: Level)
    ensures r.Keys == own.Keys + above.Keys
    ensures forall k :: k in own ==> r[k] == own[k]
    ensures forall k :: k in above && k !in own ==> r[k] == above[k]
  {
    above + own
  }

  /** The intended meaning: one pass over the plain levels, nearest first. */
  function Overlay(levels: seq<Level>, key: string): Option<Value>
  {
    if levels == [] then None
    else
      var above := Overlay(levels[1..], key);
      if key !in levels[0] then above
      else if levels[0][key].Object? && above.Some? && above.value.Object? then
        Some(Object(Filled(levels[0][key].entries, above.value.entries)))
      else Some(levels[0][key])
  }

  function OwnValue(level: Level, key: string): Option<Value>
  {
    if key in level then Some(level[key]) else None
  }

  /** A lookup visits the same ancestors many times over, and still computes the one-pass overlay. */
  lemma {:induction false} LookupIsOverlay(v: Valuer<Level>, key: string)
    requires Coherent(v)
    ensures Lookup(v, key) == if Deep(v) then Overlay(Chain(v), key) else OwnValue(Nearest(v), key)
    decreases Rank(v), Depth(v)
  {
    if !v.current.MapValuer? {
      LookupIsOverlay(v.current, key);
    }
    if v.RecursiveValuer? {
      ParentChain(v);
      if Parent(v).Some? {
        ParentIsSmaller(v);
        LookupIsOverlay(Parent(v).value, key);
        OverlayAbsorbs(Chain(v), key);
        var own, above := Lookup(v.current, key), Overlay(Chain(v)[1..], key);
        assert Nearest(v) == Nearest(v.current) == Chain(v)[0];
        assert own == Overlay(Chain(v), key) || own == OwnValue(Chain(v)[0], key);
        assert Lookup(Parent(v).value, key) == above;
      } else {
        assert Chain(v) == [Nearest(v)] && Overlay([], key).None?;
        assert Overlay(Chain(v), key) == OwnValue(Nearest(v), key);
      }
    }
  }

  /** Laying the outer overlay under the whole overlay once more changes nothing. */
  lemma OverlayAbsorbs(levels: seq<Level>, key: string)
    requires levels != []
    ensures var all, outer := Overlay(levels, key), Overlay(levels[1..], key);
            (all.None? ==> outer.None?) &&
            (all.Some? && all.value.Object? && outer.Some? && outer.value.Object? ==>
               Filled(all.value.entries, outer.value.entries) == all.value.entries)
  {
  }

  /**
   For every descent from a root map, through any mix of inheriting and plain fields and dotted keys:
   an inherited lookup is the overlay of the levels passed, and a plain lookup in a nested struct sees
   its own level only.
   */
  lemma InheritedLookup(root: Level, steps: seq<Step<Level>>, key: string)
    ensures Lookup(CreateValuer(Reached(root, steps), true), key) == Overlay(Passed(root, steps), key)
    ensures steps == [] || steps[|steps| - 1].Nested? ==>
              Lookup(CreateValuer(Reached(root, steps), false), key) == OwnValue(Passed(root, steps)[0], key)
  {
    var v := Reached(root, steps);
    ReachedChain(root, steps);
    CreateValuerChain(v, true);
    CreateValuerChain(v, false);
    LookupIsOverlay(CreateValuer(v, true), key);
    LookupIsOverlay(CreateValuer(v, false), key);
  }

  /** `getValueWithChainedKeys`: the head of a dotted key is resolved, then its tail below the map found. */
  function GetValue(v: Valuer<Level>, keys: seq<string>): Option<Value>
    decreases |keys|
  {
    if keys == [] then None
    else if |keys| == 1 then Lookup(v, keys[0])
    else
      var head := Lookup(v, keys[0]);
      if head.Some? && head.value.Object? then GetValue(EnterChained(v, head.value.entries), keys[1..]) else None
  }

  /** A dotted path through the overlay: each map found becomes the nearest level for the rest of the path. */
  function OverlayPath(levels: seq<Level>, keys: seq<string>): Option<Value>
    decreases |keys|
  {
    if keys == [] then None
    else if |keys| == 1 then Overlay(levels, keys[0])
    else
      var head := Overlay(levels, keys[0]);
      if head.Some? && head.value.Object? then OverlayPath([head.value.entries] + levels, keys[1..]) else None
  }

  /** The tail of a dotted key is inherited whether or not the field asks for it; only the head is not. */
  lemma {:induction false} DottedLookup(v: Valuer<Level>, keys: seq<string>)
    requires Coherent(v)
    ensures GetValue(v, keys) ==
            if Deep(v) || |keys| == 0 then OverlayPath(Chain(v), keys)
            else if |keys| == 1 then OwnValue(Nearest(v), keys[0])
            else if keys[0] in Nearest(v) && Nearest(v)[keys[0]].Object? then
              OverlayPath([Nearest(v)[keys[0]].entries] + Chain(v), keys[1..])
            else None
    decreases |keys|
  {
    if keys != [] {
      LookupIsOverlay(v, keys[0]);
      var head := Lookup(v, keys[0]);
      if |keys| > 1 && head.Some? && head.value.Object? {
        var next := EnterChained(v, head.value.entries);
        assert Nearest(MapValuer(head.value.entries)) == head.value.entries;
        assert Chain(next) == [head.value.entries] + Chain(v);
        DottedLookup(next, keys[1..]);
      }
    }
  }

  /** Levels before `i` either lack the key or bind it to a map: nothing cuts the chain before `i`. */
  ghost predicate Open(levels: seq<Level>, key: string, i: nat)
    requires i <= |levels|
  {
    forall j :: 0 <= j < i && key in levels[j] ==> levels[j][key].Object?
  }

  /** Level `i` offers sub-key `sub` of `key`. */
  ghost predicate Offers(levels: seq<Level>, key: string, sub: string, i: nat)
    requires i < |levels|
  {
    key in levels[i] && levels[i][key].Object? && sub in levels[i][key].entries
  }

  /**
   What the overlay contains, read off the levels without any fold: when the nearest binding is a map,
   a sub-key comes from the nearest level that offers it before a non-map cuts the chain.
   */
  lemma {:induction false} NearestWins(levels: seq<Level>, key: string, sub: string)
    requires Overlay(levels, key).Some? && Overlay(levels, key).value.Object?
    ensures var entries := Overlay(levels, key).value.entries;
            (sub in entries <==>
               exists i: nat :: i < |levels| && Open(levels, key, i) && Offers(levels, key, sub, i)) &&
            (forall i: nat | i < |levels| && Open(levels, key, i) && Offers(levels, key, sub, i) &&
                             (forall j: nat | j < i :: !Offers(levels, key, sub, j)) ::
                sub in entries && entries[sub] == levels[i][key].entries[sub])
  {
    var outer := Overlay(levels[1..], key);
    forall i: nat | i < |levels| - 1
      ensures Open(levels, key, i + 1) <==> Open(levels[1..], key, i) && Open(levels, key, 1)
      ensures Offers(levels, key, sub, i + 1) <==> Offers(levels[1..], key, sub, i)
    {
      OpenShift(levels, key, i);
    }
    if outer.Some? && outer.value.Object? {
      NearestWins(levels[1..], key, sub);
      forall i: nat | i < |levels| && Open(levels, key, i) && Offers(levels, key, sub, i)
        ensures sub in Overlay(levels, key).value.entries
      {
        if i > 0 { assert Open(levels[1..], key, i - 1) && Offers(levels[1..], key, sub, i - 1); }
      }
      forall i: nat | i < |levels| && Open(levels, key, i) && Offers(levels, key, sub, i) &&
                      (forall j: nat :: j < i ==> !Offers(levels, key, sub, j))
        ensures Overlay(levels, key).value.entries[sub] == levels[i][key].entries[sub]
      {
        if i > 0 {
          assert !Offers(levels, key, sub, 0);
          forall j: nat | j < i - 1 ensures !Offers(levels[1..], key, sub, j) {
            assert !Offers(levels, key, sub, j + 1);
          }
        }
      }
      if sub in Overlay(levels, key).value.entries {
        if key in levels[0] && sub in levels[0][key].entries {
          assert Open(levels, key, 0) && Offers(levels, key, sub, 0);
        } else {
          var i: nat :| i < |levels| - 1 && Open(levels[1..], key, i) && Offers(levels[1..], key, sub, i);
          assert Open(levels, key, i + 1) && Offers(levels, key, sub, i + 1);
        }
      }
    } else {
      assert key in levels[0] && levels[0][key].Object?;
      assert Open(levels, key, 0);
      NoOffers(levels[1..], key, sub);
      forall i: nat | i < |levels| && i > 0 && Open(levels, key, i)
        ensures !Offers(levels, key, sub, i)
      {
        assert Open(levels[1..], key, i - 1);
      }
      if sub in Overlay(levels, key).value.entries {
        assert Offers(levels, key, sub, 0);
      }
    }
  }

  lemma OpenShift(levels: seq<Level>, key: string, i: nat)
    requires i < |levels| - 1
    ensures Open(levels, key, i + 1) <==> Open(levels[1..], key, i) && Open(levels, key, 1)
  {
  }

  /** Where the overlay is no map, no level reachable without a cut offers anything. */
  lemma {:induction false} NoOffers(levels: seq<Level>, key: string, sub: string)
    requires Overlay(levels, key).None? || !Overlay(levels, key).value.Object?
    ensures forall i: nat :: i < |levels| && Open(levels, key, i) ==> !Offers(levels, key, sub, i)
  {
    if levels != [] {
      if key !in levels[0] {
        NoOffers(levels[1..], key, sub);
        forall i: nat | i < |levels| && Open(levels, key, i) ensures !Offers(levels, key, sub, i) {
          if i > 0 {
            OpenShift(levels, key, i - 1);
            assert !Offers(levels[1..], key, sub, i - 1);
          }
        }
      } else {
        assert forall i: nat :: i < |levels| && Open(levels, key, i) ==> i == 0;
      }
    }
  }
}
