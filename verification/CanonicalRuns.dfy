/**
 The rewrite of core/conf/config.go:313-351 with the order in which keys come as a parameter: its results are
 the canonical forms, all of them.
 */
module CanonicalRuns {
  import opened Wrappers
  import opened Values
  import opened FieldInfos
  import opened Canonical
  import opened CanonicalOrder

  /** The loop of `toLowerCaseKeyMap` over keys in this order, where `values` are the values as rewritten. */
  function Loop(keys: seq<string>, values: map<string, Value>, info: Info): map<string, Value>
  {
    if keys == [] then map[]
    else
      var n := |keys| - 1;
      var res := Loop(keys[..n], values, info);
      if keys[n] in values then res[Stored(keys[n], info) := values[keys[n]]] else res
  }

  /** `toLowerCaseInterface` makes `r` of `v`, each map being gone through in some order. */
  ghost predicate Produces(v: Value, info: Info, r: Value)
    decreases v, 1
  {
    match v
    case Object(entries) =>
      r.Object? &&
      exists keys: seq<string>, values: map<string, Value> ::
        r.entries == Loop(keys, values, info) && Lists(keys, entries.Keys) && values.Keys == entries.Keys &&
        forall k :: k in entries ==> ProducesAt(v, info, k, values[k])
    case List(items) =>
      r.List? && |r.items| == |items| && forall i :: 0 <= i < |items| ==> Produces(items[i], info, r.items[i])
    case _ => r == v
  }

  ghost predicate ProducesAt(v: Value, info: Info, k: string, r: Value)
    requires v.Object? && k in v.entries
    decreases v, 0
  {
    var below := Below(k, info, v.entries[k]);
    if below.Some? then Produces(v.entries[k], below.value, r) else r == v.entries[k]
  }

  // ---------- What the loop leaves ----------

  /** Each key of the result has the value of the last key that is stored under it. */
  ghost predicate LastFor(keys: seq<string>, info: Info, d: string, i: nat)
  {
    i < |keys| && Stored(keys[i], info) == d && forall j :: i < j < |keys| ==> Stored(keys[j], info) != d
  }

  lemma {:induction false} LoopAt(keys: seq<string>, values: map<string, Value>, info: Info, d: string, i: nat)
    requires (forall k :: k in keys ==> k in values) && LastFor(keys, info, d, i)
    ensures d in Loop(keys, values, info) && Loop(keys, values, info)[d] == values[keys[i]]
  {
    var n := |keys| - 1;
    if i < n {
      assert Stored(keys[n], info) != d;
      LoopAt(keys[..n], values, info, d, i);
    }
  }

  lemma {:induction false} LoopFrom(keys: seq<string>, values: map<string, Value>, info: Info, d: string)
    returns (i: nat)
    requires (forall k :: k in keys ==> k in values) && d in Loop(keys, values, info)
    ensures LastFor(keys, info, d, i) && Loop(keys, values, info)[d] == values[keys[i]]
  {
    var n := |keys| - 1;
    if Stored(keys[n], info) == d {
      i := n;
    } else {
      i := LoopFrom(keys[..n], values, info, d);
      assert forall j :: i < j < n ==> keys[..n][j] == keys[j];
    }
  }

  /** Some key is the last to be stored where another is. */
  lemma {:induction false} SomeLast(keys: seq<string>, info: Info, k: string) returns (i: nat)
    requires k in keys
    ensures LastFor(keys, info, Stored(k, info), i)
  {
    var n := |keys| - 1;
    if Stored(keys[n], info) == Stored(k, info) {
      i := n;
    } else {
      assert keys == keys[..n] + [keys[n]];
      i := SomeLast(keys[..n], info, k);
      assert forall j :: i < j < n ==> keys[..n][j] == keys[j];
    }
  }

  lemma LoopKeys(keys: seq<string>, values: map<string, Value>, info: Info, entries: map<string, Value>)
    requires Lists(keys, entries.Keys) && values.Keys == entries.Keys
    ensures Loop(keys, values, info).Keys == StoredKeys(entries, info)
  {
    forall d ensures d in Loop(keys, values, info) <==> d in StoredKeys(entries, info) {
      if d in Loop(keys, values, info) { var i := LoopFrom(keys, values, info, d); }
      if d in StoredKeys(entries, info) {
        var k :| k in entries && Stored(k, info) == d;
        var i := SomeLast(keys, info, k);
        LoopAt(keys, values, info, d, i);
      }
    }
  }

  // ---------- Every result is canonical ----------

  lemma {:induction false} ResultsAreCanonical(v: Value, info: Info, r: Value)
    requires Produces(v, info, r)
    ensures IsCanonical(v, info, r)
    decreases v
  {
    match v
    case Object(entries) =>
      var keys: seq<string>, values: map<string, Value> :|
        r.entries == Loop(keys, values, info) && Lists(keys, entries.Keys) && values.Keys == entries.Keys &&
        forall k :: k in entries ==> ProducesAt(v, info, k, values[k]);
      LoopKeys(keys, values, info, entries);
      forall d | d in r.entries
        ensures exists k :: k in entries && Comes(entries, info, k, d) && CanonicalAt(v, info, k, r.entries[d])
      {
        var i := LoopFrom(keys, values, info, d);
        ResultAt(v, info, keys[i], values[keys[i]]);
        assert Comes(entries, info, keys[i], d);
      }
    case List(items) =>
      forall i | 0 <= i < |items| ensures IsCanonical(items[i], info, r.items[i]) {
        ResultsAreCanonical(items[i], info, r.items[i]);
      }
    case _ =>
  }

  lemma {:induction false} ResultAt(v: Value, info: Info, k: string, r: Value)
    requires v.Object? && k in v.entries && ProducesAt(v, info, k, r)
    ensures CanonicalAt(v, info, k, r)
    decreases v, 0
  {
    var below := Below(k, info, v.entries[k]);
    if below.Some? { ResultsAreCanonical(v.entries[k], below.value, r); }
  }

  // ---------- Every canonical form is a result ----------

  lemma {:induction false} Listing(all: set<string>) returns (keys: seq<string>)
    ensures Lists(keys, all)
    decreases |all|
  {
    if all == {} {
      keys := [];
    } else {
      var k :| k in all;
      var rest := Listing(all - {k});
      keys := rest + [k];
    }
  }

  /** The key stored under `d` that comes last has this value. */
  ghost predicate LastHas(keys: seq<string>, values: map<string, Value>, info: Info, d: string, x: Value)
  {
    exists i: nat :: LastFor(keys, info, d, i) && keys[i] in values && values[keys[i]] == x
  }

  lemma LoopIs(keys: seq<string>, values: map<string, Value>, info: Info, entries: map<string, Value>,
               res: map<string, Value>)
    requires Lists(keys, entries.Keys) && values.Keys == entries.Keys && res.Keys == StoredKeys(entries, info)
    requires forall d :: d in res ==> LastHas(keys, values, info, d, res[d])
    ensures Loop(keys, values, info) == res
  {
    LoopKeys(keys, values, info, entries);
    forall d | d in res ensures Loop(keys, values, info)[d] == res[d] {
      var i: nat :| LastFor(keys, info, d, i) && keys[i] in values && values[keys[i]] == res[d];
      LoopAt(keys, values, info, d, i);
    }
  }

  lemma ListsBoth(losing: seq<string>, winning: seq<string>, winners: set<string>, all: set<string>)
    requires Lists(losing, all - winners) && Lists(winning, winners) && winners <= all
    ensures Lists(losing + winning, all)
  {
    var keys := losing + winning;
    forall i, j | 0 <= i < j < |keys| ensures keys[i] != keys[j] {
      if i < |losing| <= j { assert keys[i] in losing && keys[j] in winning; }
    }
  }

  /** An order in which the given keys, one for each key of the result, come last. */
  lemma WinnersLast(entries: map<string, Value>, info: Info, winner: map<string, string>) returns (keys: seq<string>)
    requires forall d :: d in winner ==> winner[d] in entries && Stored(winner[d], info) == d
    ensures Lists(keys, entries.Keys)
    ensures forall d :: d in winner ==> exists i: nat :: LastFor(keys, info, d, i) && keys[i] == winner[d]
  {
    var winners := set d | d in winner :: winner[d];
    var losing := Listing(entries.Keys - winners);
    var winning := Listing(winners);
    keys := losing + winning;
    ListsBoth(losing, winning, winners, entries.Keys);
    forall d | d in winner ensures exists i: nat :: LastFor(keys, info, d, i) && keys[i] == winner[d] {
      assert winner[d] in winners;
      var i :| 0 <= i < |winning| && winning[i] == winner[d];
      forall j | |losing| + i < j < |keys| ensures Stored(keys[j], info) != d {
        assert keys[j] == winning[j - |losing|] && keys[j] in winners;
      }
      assert LastFor(keys, info, d, |losing| + i) && keys[|losing| + i] == winner[d];
    }
  }

  /** For each key of a canonical form, a key of the input whose value it has. */
  lemma Origins(v: Value, info: Info, r: Value) returns (winner: map<string, string>)
    requires v.Object? && IsCanonical(v, info, r)
    ensures winner.Keys == r.entries.Keys == StoredKeys(v.entries, info)
    ensures forall d :: d in winner ==>
              winner[d] in v.entries && Stored(winner[d], info) == d && CanonicalAt(v, info, winner[d], r.entries[d])
  {
    winner := map d | d in r.entries ::
      (var k :| k in v.entries && Comes(v.entries, info, k, d) && CanonicalAt(v, info, k, r.entries[d]); k);
  }

  /** Some canonical value for each key of a map. */
  lemma Forms(v: Value, info: Info) returns (forms: map<string, Value>)
    requires v.Object?
    ensures forms.Keys == v.entries.Keys && forall k :: k in v.entries ==> CanonicalAt(v, info, k, forms[k])
  {
    forms := map k | k in v.entries :: CanonAt(v, info, k);
    forall k | k in v.entries ensures CanonicalAt(v, info, k, forms[k]) {
      CanonAtIsCanonical(v, info, k);
    }
  }

  /** The values of the result for the winners, and any others for the keys whose values are overwritten. */
  function Rewritten(forms: map<string, Value>, info: Info, winner: map<string, string>,
                     res: map<string, Value>): map<string, Value>
    requires winner.Keys == res.Keys
  {
    map k | k in forms ::
      var d := Stored(k, info); if d in winner && winner[d] == k then res[d] else forms[k]
  }

  lemma WinnersHave(keys: seq<string>, forms: map<string, Value>, info: Info, winner: map<string, string>,
                    res: map<string, Value>)
    requires winner.Keys == res.Keys && Lists(keys, forms.Keys)
    requires forall d :: d in winner ==> exists i: nat :: LastFor(keys, info, d, i) && keys[i] == winner[d]
    ensures forall d :: d in res ==> LastHas(keys, Rewritten(forms, info, winner, res), info, d, res[d])
  {
    forall d | d in res ensures LastHas(keys, Rewritten(forms, info, winner, res), info, d, res[d]) {
      var i: nat :| LastFor(keys, info, d, i) && keys[i] == winner[d];
      assert keys[i] in keys && keys[i] in forms;
    }
  }

  /** An order and rewritten values with which the loop makes a canonical form. */
  lemma OrderFor(v: Value, info: Info, r: Value) returns (keys: seq<string>, values: map<string, Value>)
    requires v.Object? && IsCanonical(v, info, r)
    ensures r.Object? && Lists(keys, v.entries.Keys) && values.Keys == v.entries.Keys
    ensures Loop(keys, values, info) == r.entries
    ensures forall k :: k in v.entries ==> CanonicalAt(v, info, k, values[k])
  {
    var winner := Origins(v, info, r);
    var forms := Forms(v, info);
    keys := WinnersLast(v.entries, info, winner);
    values := Rewritten(forms, info, winner, r.entries);
    WinnersHave(keys, forms, info, winner, r.entries);
    LoopIs(keys, values, info, v.entries, r.entries);
  }

  lemma {:induction false} CanonicalIsResult(v: Value, info: Info, r: Value)
    requires IsCanonical(v, info, r)
    ensures Produces(v, info, r)
    decreases v, 1
  {
    match v
    case Object(entries) =>
      var keys, values := OrderFor(v, info, r);
      forall k | k in entries ensures ProducesAt(v, info, k, values[k]) {
        CanonicalAtIsResult(v, info, k, values[k]);
      }
    case List(items) =>
      forall i | 0 <= i < |items| ensures Produces(items[i], info, r.items[i]) {
        CanonicalIsResult(items[i], info, r.items[i]);
      }
    case _ =>
  }

  lemma {:induction false} CanonicalAtIsResult(v: Value, info: Info, k: string, r: Value)
    requires v.Object? && k in v.entries && CanonicalAt(v, info, k, r)
    ensures ProducesAt(v, info, k, r)
    decreases v, 0
  {
    var below := Below(k, info, v.entries[k]);
    if below.Some? { CanonicalIsResult(v.entries[k], below.value, r); }
  }

  /** The canonical forms are exactly what the rewrite yields in some order. */
  lemma ResultsExactly(v: Value, info: Info, r: Value)
    ensures Produces(v, info, r) <==> IsCanonical(v, info, r)
  {
    if Produces(v, info, r) { ResultsAreCanonical(v, info, r); }
    if IsCanonical(v, info, r) { CanonicalIsResult(v, info, r); }
  }

  /** Whatever order the keys come in, the rewrite yields the same. */
  ghost predicate OrderIsIrrelevant(v: Value, info: Info)
  {
    forall r, s :: Produces(v, info, r) && Produces(v, info, s) ==> r == s
  }

  /** For every input: the order is irrelevant if and only if colliding keys have the same canonical values. */
  lemma OrderMattersExactly(v: Value, info: Info)
    ensures OrderIsIrrelevant(v, info) <==> Harmless(v, info)
  {
    forall r ensures Produces(v, info, r) <==> IsCanonical(v, info, r) {
      ResultsExactly(v, info, r);
    }
    OneFormExactly(v, info);
  }
}
