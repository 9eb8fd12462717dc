/**
 When the iteration order of Go maps shows in the rewrite of core/conf/config.go:313-351: exactly if two
 keys that are stored under the same key have different canonical values.
 */
module CanonicalOrder {
  import opened Values
  import opened FieldInfos
  import opened Canonical

  /** One of the keys that are stored under `d`. */
  ghost function Chosen(entries: map<string, Value>, info: Info, d: string): (k: string)
    requires d in StoredKeys(entries, info)
    ensures Comes(entries, info, k, d)
  {
    var k :| k in entries && Stored(k, info) == d;
    k
  }

  /** The canonical form in which the chosen keys come last. */
  ghost function Canon(v: Value, info: Info): Value
    decreases v, 1
  {
    match v
    case Object(entries) =>
      Object(map d | d in StoredKeys(entries, info) :: CanonAt(v, info, Chosen(entries, info, d)))
    case List(items) => List(seq(|items|, i requires 0 <= i < |items| => Canon(items[i], info)))
    case _ => v
  }

  ghost function CanonAt(v: Value, info: Info, k: string): Value
    requires v.Object? && k in v.entries
    decreases v, 0
  {
    var below := Below(k, info, v.entries[k]);
    if below.Some? then Canon(v.entries[k], below.value) else v.entries[k]
  }

  /** In every map of the input, keys that are stored under the same key have the same canonical value. */
  ghost predicate Harmless(v: Value, info: Info)
    decreases v, 1
  {
    match v
    case Object(entries) =>
      (forall k :: k in entries ==> HarmlessAt(v, info, k)) &&
      (forall k, l :: k in entries && l in entries && Stored(k, info) == Stored(l, info) ==>
         CanonAt(v, info, k) == CanonAt(v, info, l))
    case List(items) => forall i :: 0 <= i < |items| ==> Harmless(items[i], info)
    case _ => true
  }

  ghost predicate HarmlessAt(v: Value, info: Info, k: string)
    requires v.Object? && k in v.entries
    decreases v, 0
  {
    var below := Below(k, info, v.entries[k]);
    below.Some? ==> Harmless(v.entries[k], below.value)
  }

  lemma {:induction false} CanonIsCanonical(v: Value, info: Info)
    ensures IsCanonical(v, info, Canon(v, info))
    decreases v, 1
  {
    if v.Object? {
      var entries := Canon(v, info).entries;
      forall d | d in entries
        ensures Comes(v.entries, info, Chosen(v.entries, info, d), d) &&
                CanonicalAt(v, info, Chosen(v.entries, info, d), entries[d])
      {
        CanonAtIsCanonical(v, info, Chosen(v.entries, info, d));
      }
    } else if v.List? {
      forall i | 0 <= i < |v.items| ensures IsCanonical(v.items[i], info, Canon(v.items[i], info)) {
        CanonIsCanonical(v.items[i], info);
      }
    }
  }

  lemma {:induction false} CanonAtIsCanonical(v: Value, info: Info, k: string)
    requires v.Object? && k in v.entries
    ensures CanonicalAt(v, info, k, CanonAt(v, info, k))
    decreases v, 0
  {
    var below := Below(k, info, v.entries[k]);
    if below.Some? { CanonIsCanonical(v.entries[k], below.value); }
  }

  /** Where it is harmless, every order leads to the same form. */
  lemma {:induction false} OneForm(v: Value, info: Info, r: Value)
    requires Harmless(v, info) && IsCanonical(v, info, r)
    ensures r == Canon(v, info)
    decreases v, 1
  {
    if v.Object? {
      var entries := Canon(v, info).entries;
      KeysAreStored(v, info, r);
      forall d | d in r.entries ensures r.entries[d] == entries[d] {
        var k := Origin(v, info, r, d);
        OneFormAt(v, info, k, r.entries[d]);
        assert CanonAt(v, info, k) == CanonAt(v, info, Chosen(v.entries, info, d));
      }
      SameMaps(r.entries, entries);
    } else if v.List? {
      forall i | 0 <= i < |v.items| ensures r.items[i] == Canon(v.items[i], info) {
        OneForm(v.items[i], info, r.items[i]);
      }
      assert r.items == Canon(v, info).items;
    }
  }

  lemma {:induction false} OneFormAt(v: Value, info: Info, k: string, x: Value)
    requires v.Object? && k in v.entries && HarmlessAt(v, info, k) && CanonicalAt(v, info, k, x)
    ensures x == CanonAt(v, info, k)
    decreases v, 0
  {
    var below := Below(k, info, v.entries[k]);
    if below.Some? { OneForm(v.entries[k], below.value, x); }
  }

  /** Any key of a map can come last. */
  lemma LastKey(v: Value, info: Info, k: string, x: Value)
    requires v.Object? && k in v.entries && CanonicalAt(v, info, k, x)
    ensures IsCanonical(v, info, Object(Canon(v, info).entries[Stored(k, info) := x]))
  {
    CanonIsCanonical(v, info);
    var entries := Canon(v, info).entries;
    var changed := entries[Stored(k, info) := x];
    assert Comes(v.entries, info, k, Stored(k, info));
    forall d | d in changed
      ensures exists l :: l in v.entries && Comes(v.entries, info, l, d) && CanonicalAt(v, info, l, changed[d])
    {
      if d != Stored(k, info) { assert changed[d] == entries[d]; }
    }
  }

  /** Two different values for one key of the result make two different results. */
  lemma OtherValue(v: Value, info: Info, k: string, x: Value, l: string, y: Value) returns (r: Value)
    requires v.Object? && k in v.entries && l in v.entries && Stored(k, info) == Stored(l, info)
    requires CanonicalAt(v, info, k, x) && CanonicalAt(v, info, l, y) && x != y
    ensures IsCanonical(v, info, r) && r != Canon(v, info)
  {
    var d, was := Stored(k, info), Canon(v, info).entries;
    if was[d] != x {
      LastKey(v, info, k, x);
      r := Object(was[d := x]);
      assert r.entries[d] == x;
    } else {
      LastKey(v, info, l, y);
      r := Object(was[d := y]);
      assert r.entries[d] == y;
    }
  }

  /** Where it is not, there is a second form. */
  lemma {:induction false} SecondForm(v: Value, info: Info) returns (r: Value)
    requires !Harmless(v, info)
    ensures IsCanonical(v, info, r) && r != Canon(v, info)
    decreases v
  {
    if v.Object? {
      if k :| k in v.entries && !HarmlessAt(v, info, k) {
        var x := SecondForm(v.entries[k], Below(k, info, v.entries[k]).value);
        CanonAtIsCanonical(v, info, k);
        r := OtherValue(v, info, k, x, k, CanonAt(v, info, k));
      } else {
        var k, l :| k in v.entries && l in v.entries && Stored(k, info) == Stored(l, info) &&
                    CanonAt(v, info, k) != CanonAt(v, info, l);
        CanonAtIsCanonical(v, info, k);
        CanonAtIsCanonical(v, info, l);
        r := OtherValue(v, info, k, CanonAt(v, info, k), l, CanonAt(v, info, l));
      }
    } else {
      CanonIsCanonical(v, info);
      var i :| 0 <= i < |v.items| && !Harmless(v.items[i], info);
      var x := SecondForm(v.items[i], info);
      r := List(Canon(v, info).items[i := x]);
      assert r.items[i] == x;
    }
  }

  /** There is only one canonical form. */
  ghost predicate OnlyOneForm(v: Value, info: Info)
  {
    forall r, s :: IsCanonical(v, info, r) && IsCanonical(v, info, s) ==> r == s
  }

  lemma HarmlessSuffices(v: Value, info: Info)
    requires Harmless(v, info)
    ensures OnlyOneForm(v, info)
  {
    forall r, s | IsCanonical(v, info, r) && IsCanonical(v, info, s) ensures r == s {
      OneForm(v, info, r);
      OneForm(v, info, s);
    }
  }

  lemma HarmlessIsNeeded(v: Value, info: Info)
    requires OnlyOneForm(v, info)
    ensures Harmless(v, info)
  {
    if !Harmless(v, info) {
      var r := SecondForm(v, info);
      CanonIsCanonical(v, info);
    }
  }

  /** For every input: there is one form if and only if colliding keys have the same canonical values. */
  lemma OneFormExactly(v: Value, info: Info)
    ensures OnlyOneForm(v, info) <==> Harmless(v, info)
  {
    if Harmless(v, info) {
      HarmlessSuffices(v, info);
    } else if OnlyOneForm(v, info) {
      HarmlessIsNeeded(v, info);
    }
  }
}
