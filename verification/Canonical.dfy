/**
 Canonical keys (core/conf/config.go:309-351): the field-info tree drives a rewrite of the input that
 puts the keys naming fields into lower case and leaves all others alone.
 */
module Canonical {
  import opened Wrappers
  import opened Strings
  import opened Values
  import opened FieldInfos

  /** The key that the value of `k` is stored under: that of the child it names, if it names one. */
  function Stored(k: string, info: Info): string
  {
    if k in info.children then k
    else if ToLower(k) in info.children then ToLower(k)
    else k
  }

  /** The tree that the value of `k` is rewritten with, if it is rewritten at all. */
  function Below(k: string, info: Info, v: Value): Option<Info>
  {
    if Stored(k, info) in info.children then Some(info.children[Stored(k, info)])
    else if info.mapField.Some? then info.mapField
    else if v.Object? then Some(info)
    else None
  }

  /** `r` is what `toLowerCaseInterface` can make of `v`, for some order of the keys of each map. */
  ghost predicate IsCanonical(v: Value, info: Info, r: Value)
    decreases v
  {
    match v
    case Object(entries) =>
      r.Object? && r.entries.Keys == StoredKeys(entries, info) &&
      forall d :: d in r.entries ==>
        exists k :: k in entries && Comes(entries, info, k, d) && CanonicalAt(v, info, k, r.entries[d])
    case List(items) =>
      r.List? && |r.items| == |items| && forall i :: 0 <= i < |items| ==> IsCanonical(items[i], info, r.items[i])
    case _ => r == v
  }

  ghost predicate CanonicalAt(v: Value, info: Info, k: string, r: Value)
    requires v.Object? && k in v.entries
    decreases v, 0
  {
    var below := Below(k, info, v.entries[k]);
    if below.Some? then IsCanonical(v.entries[k], below.value, r) else r == v.entries[k]
  }

  function StoredKeys(entries: map<string, Value>, info: Info): set<string>
  {
    set k | k in entries :: Stored(k, info)
  }

  predicate Comes(entries: map<string, Value>, info: Info, k: string, d: string)
  {
    k in entries && Stored(k, info) == d
  }

  // ---------- The loops ----------

  /** `toLowerCaseInterface`. */
  method ToLowerCaseInterface(v: Value, info: Info) returns (r: Value)
    ensures IsCanonical(v, info, r)
    decreases v, 1
  {
    if v.Object? {
      r := ToLowerCaseKeyMap(v, info);
    } else if v.List? {
      var arr := [];
      for i := 0 to |v.items|
        invariant |arr| == i
        invariant forall j :: 0 <= j < i ==> IsCanonical(v.items[j], info, arr[j])
      {
        var x := ToLowerCaseInterface(v.items[i], info);
        arr := arr + [x];
      }
      r := List(arr);
    } else {
      r := v;
    }
  }

  function StoredApartFrom(entries: map<string, Value>, info: Info, rest: set<string>): set<string>
  {
    set k | k in entries && k !in rest :: Stored(k, info)
  }

  lemma OneMoreKey(entries: map<string, Value>, info: Info, rest: set<string>, k: string)
    requires k in entries && k in rest
    ensures StoredApartFrom(entries, info, rest - {k}) == StoredApartFrom(entries, info, rest) + {Stored(k, info)}
    ensures StoredApartFrom(entries, info, {}) == StoredKeys(entries, info)
  {
  }

  /** `toLowerCaseKeyMap`; the keys of the map come in an arbitrary order. */
  method ToLowerCaseKeyMap(m: Value, info: Info) returns (r: Value)
    requires m.Object?
    ensures IsCanonical(m, info, r)
    decreases m, 0
  {
    var res: map<string, Value> := map[];
    var rest := m.entries.Keys;
    while rest != {}
      invariant rest <= m.entries.Keys
      invariant res.Keys == StoredApartFrom(m.entries, info, rest)
      invariant forall d :: d in res ==>
                  exists k :: k in m.entries && Comes(m.entries, info, k, d) && CanonicalAt(m, info, k, res[d])
      decreases rest
    {
      var k :| k in rest;
      var v := m.entries[k];
      var lk := ToLower(k);
      var d, x := k, v;
      if k in info.children {
        x := ToLowerCaseInterface(v, info.children[k]);
      } else if lk in info.children {
        d := lk;
        x := ToLowerCaseInterface(v, info.children[lk]);
      } else if info.mapField.Some? {
        x := ToLowerCaseInterface(v, info.mapField.value);
      } else if v.Object? {
        x := ToLowerCaseKeyMap(v, info);
      }
      assert Comes(m.entries, info, k, d) && CanonicalAt(m, info, k, x);
      OneMoreKey(m.entries, info, rest, k);
      res := res[d := x];
      rest := rest - {k};
    }
    r := Object(res);
  }

  // ---------- Order and repetition ----------

  /** In no map of the input do two keys name the same child. */
  ghost predicate Unambiguous(v: Value, info: Info)
  {
    match v
    case Object(entries) =>
      (forall k, l {:trigger Stored(k, info), Stored(l, info)} ::
        k in entries && l in entries && Stored(k, info) == Stored(l, info) ==> k == l) &&
      (forall k :: k in entries ==>
        var below := Below(k, info, entries[k]); below.Some? ==> Unambiguous(entries[k], below.value))
    case List(items) => forall i :: 0 <= i < |items| ==> Unambiguous(items[i], info)
    case _ => true
  }

  /** For an unambiguous input the order in which maps are traversed makes no difference. */
  lemma {:induction false} OrderDoesNotMatter(v: Value, info: Info, r: Value, s: Value)
    requires Unambiguous(v, info) && IsCanonical(v, info, r) && IsCanonical(v, info, s)
    ensures r == s
    decreases v
  {
    match v
    case Object(entries) =>
      forall d | d in r.entries ensures r.entries[d] == s.entries[d] {
        var k :| k in entries && Comes(entries, info, k, d) && CanonicalAt(v, info, k, r.entries[d]);
        var l :| l in entries && Comes(entries, info, l, d) && CanonicalAt(v, info, l, s.entries[d]);
        assert k == l;
        var below := Below(k, info, entries[k]);
        if below.Some? {
          OrderDoesNotMatter(entries[k], below.value, r.entries[d], s.entries[d]);
        }
      }
      assert r.entries == s.entries;
    case List(items) =>
      forall i | 0 <= i < |items| ensures r.items[i] == s.items[i] {
        OrderDoesNotMatter(items[i], info, r.items[i], s.items[i]);
      }
      assert r.items == s.items;
    case _ =>
  }

  /** Two keys for the same child: which value survives depends on the order. */
  lemma OrderMatters()
    ensures var info := Info(map["port" := LEAF], None);
            var v := Object(map["PORT" := Number("1"), "Port" := Number("2")]);
            IsCanonical(v, info, Object(map["port" := Number("1")])) &&
            IsCanonical(v, info, Object(map["port" := Number("2")]))
  {
    var info := Info(map["port" := LEAF], None);
    var entries := map["PORT" := Number("1"), "Port" := Number("2")];
    var v := Object(entries);
    assert ToLower("PORT") == "port" && ToLower("Port") == "port";
    assert StoredKeys(entries, info) == {"port"};
    assert Comes(entries, info, "PORT", "port") && CanonicalAt(v, info, "PORT", Number("1"));
    assert Comes(entries, info, "Port", "port") && CanonicalAt(v, info, "Port", Number("2"));
  }

  lemma StoredIsStored(k: string, info: Info)
    ensures Stored(Stored(k, info), info) == Stored(k, info)
  {
  }

  /** A key of a canonical form: where it comes from, and that it stays where it is. */
  lemma Origin(v: Value, info: Info, r: Value, d: string) returns (k: string)
    requires v.Object? && IsCanonical(v, info, r) && d in r.entries
    ensures k in v.entries && Stored(k, info) == d && CanonicalAt(v, info, k, r.entries[d]) && Stored(d, info) == d
  {
    k :| k in v.entries && Comes(v.entries, info, k, d) && CanonicalAt(v, info, k, r.entries[d]);
    StoredIsStored(k, info);
  }

  lemma KeysAreStored(v: Value, info: Info, r: Value)
    requires v.Object? && IsCanonical(v, info, r)
    ensures r.Object? && r.entries.Keys == StoredKeys(v.entries, info)
  {
  }

  lemma StoredTwice(entries: map<string, Value>, stored: map<string, Value>, info: Info)
    requires stored.Keys == StoredKeys(entries, info)
    ensures StoredKeys(stored, info) == stored.Keys
  {
  }

  /** A rewritten input is left as it is by another rewrite. */
  lemma {:induction false} Idempotent(v: Value, info: Info, r: Value, s: Value)
    requires IsCanonical(v, info, r) && IsCanonical(r, info, s)
    ensures s == r
    decreases v, 3
  {
    if v.Object? {
      IdempotentMap(v, info, r, s);
    } else if v.List? {
      forall i | 0 <= i < |v.items| ensures s.items[i] == r.items[i] {
        Idempotent(v.items[i], info, r.items[i], s.items[i]);
      }
      assert s.items == r.items;
    }
  }

  lemma IdempotentKeys(v: Value, info: Info, r: Value, s: Value)
    requires v.Object? && IsCanonical(v, info, r) && IsCanonical(r, info, s)
    ensures r.Object? && s.Object? && s.entries.Keys == r.entries.Keys
  {
    KeysAreStored(v, info, r);
    KeysAreStored(r, info, s);
    StoredTwice(v.entries, r.entries, info);
  }

  lemma {:induction false} IdempotentMap(v: Value, info: Info, r: Value, s: Value)
    requires v.Object? && IsCanonical(v, info, r) && IsCanonical(r, info, s)
    ensures s == r
    decreases v, 2
  {
    IdempotentKeys(v, info, r, s);
    IdempotentValues(v, info, r, s);
    SameMaps(s.entries, r.entries);
  }

  lemma {:induction false} IdempotentValues(v: Value, info: Info, r: Value, s: Value)
    requires v.Object? && r.Object? && s.Object? && IsCanonical(v, info, r) && IsCanonical(r, info, s)
    ensures forall d :: d in s.entries && d in r.entries ==> s.entries[d] == r.entries[d]
    decreases v, 1, 1
  {
    forall d | d in s.entries && d in r.entries ensures s.entries[d] == r.entries[d] {
      IdempotentAt(v, info, r, s, d);
    }
  }

  lemma SameMaps(a: map<string, Value>, b: map<string, Value>)
    requires a.Keys == b.Keys && forall d :: d in a ==> a[d] == b[d]
    ensures a == b
  {
  }

  lemma {:induction false} IdempotentAt(v: Value, info: Info, r: Value, s: Value, d: string)
    requires v.Object? && IsCanonical(v, info, r) && IsCanonical(r, info, s) && d in s.entries && d in r.entries
    ensures s.entries[d] == r.entries[d]
    decreases v, 1, 0
  {
    var e := Origin(r, info, s, d);
    var k := Origin(v, info, r, e);
    assert e == d;
    SameBelow(v, info, k, r.entries[d]);
    IdempotentEntry(v, info, k, r.entries[d], s.entries[d]);
  }

  /** A rewritten value is rewritten with the same tree again. */
  lemma SameBelow(v: Value, info: Info, k: string, x: Value)
    requires v.Object? && k in v.entries && CanonicalAt(v, info, k, x)
    ensures Below(Stored(k, info), info, x) == Below(k, info, v.entries[k])
  {
    StoredIsStored(k, info);
  }

  lemma {:induction false} IdempotentEntry(v: Value, info: Info, k: string, x: Value, y: Value)
    requires v.Object? && k in v.entries && CanonicalAt(v, info, k, x)
    requires var below := Below(k, info, v.entries[k]); if below.Some? then IsCanonical(x, below.value, y) else y == x
    ensures y == x
    decreases v, 0
  {
    var below := Below(k, info, v.entries[k]);
    if below.Some? {
      Idempotent(v.entries[k], below.value, x, y);
    }
  }

  /** Directly inside a map field every key is kept as it is. */
  lemma MapKeysKept(v: Value, info: Info, r: Value)
    requires v.Object? && WellFormed(info) && info.mapField.Some? && IsCanonical(v, info, r)
    ensures r.entries.Keys == v.entries.Keys
  {
    assert StoredKeys(v.entries, info) == v.entries.Keys;
  }

  // ---------- Letter case ----------

  /** The keys are the same, or name the same field in different letter case. */
  predicate SameKey(k: string, l: string, info: Info)
  {
    Folded(k, info) == Folded(l, info)
  }

  /** A key that names a field, with its letter case forgotten; any other key as it is. */
  function Folded(k: string, info: Info): string
  {
    if ToLower(k) in info.children then ToLower(k) else k
  }

  function FoldedKeys(entries: map<string, Value>, info: Info): set<string>
  {
    set k | k in entries :: Folded(k, info)
  }

  /** The inputs differ at most in the letter case of keys that name fields. */
  ghost predicate CaseVariant(v: Value, w: Value, info: Info)
    decreases v
  {
    match v
    case Object(entries) =>
      w.Object? && FoldedKeys(entries, info) == FoldedKeys(w.entries, info) &&
      forall k, l {:trigger SameKey(k, l, info)} ::
        k in entries && l in w.entries && SameKey(k, l, info) ==> VariantAt(v, w, info, k, l)
    case List(items) =>
      w.List? && |items| == |w.items| && forall i :: 0 <= i < |items| ==> CaseVariant(items[i], w.items[i], info)
    case _ => v == w
  }

  ghost predicate VariantAt(v: Value, w: Value, info: Info, k: string, l: string)
    requires v.Object? && k in v.entries && w.Object? && l in w.entries
    decreases v, 0
  {
    var below := Below(k, info, v.entries[k]);
    if below.Some? then CaseVariant(v.entries[k], w.entries[l], below.value) else v.entries[k] == w.entries[l]
  }

  lemma SameKeySameStored(k: string, l: string, info: Info)
    requires WellFormed(info)
    ensures SameKey(k, l, info) <==> Stored(k, info) == Stored(l, info)
    ensures Folded(k, info) == Stored(k, info)
  {
    ToLowerTwice(k);
    ToLowerTwice(l);
  }

  lemma FoldedAreStored(entries: map<string, Value>, info: Info)
    requires WellFormed(info)
    ensures FoldedKeys(entries, info) == StoredKeys(entries, info)
  {
  }

  /**
   Canonical forms are equal exactly for inputs that differ at most in the letter case of keys that name
   fields.
   */
  lemma {:induction false} CaseDoesNotMatter(v: Value, w: Value, info: Info, r: Value, s: Value)
    requires WellFormed(info)
    requires Unambiguous(v, info) && IsCanonical(v, info, r)
    requires Unambiguous(w, info) && IsCanonical(w, info, s)
    ensures CaseVariant(v, w, info) <==> r == s
    decreases v, 3
  {
    match v
    case Object(entries) =>
      if CaseVariant(v, w, info) {
        VariantsAgree(v, w, info, r, s);
      }
      if r == s {
        AgreeingAreVariants(v, w, info, r, s);
      }
    case List(items) =>
      if w.List? && |items| == |w.items| {
        forall i | 0 <= i < |items| ensures CaseVariant(items[i], w.items[i], info) <==> r.items[i] == s.items[i] {
          CaseDoesNotMatter(items[i], w.items[i], info, r.items[i], s.items[i]);
        }
        if CaseVariant(v, w, info) { assert r.items == s.items; }
      }
    case _ =>
  }

  lemma BelowWellFormed(k: string, info: Info, v: Value)
    requires WellFormed(info) && Below(k, info, v).Some?
    ensures WellFormed(Below(k, info, v).value)
  {
  }

  lemma {:induction false} EntriesAgree(v: Value, w: Value, info: Info, k: string, l: string, x: Value, y: Value)
    requires v.Object? && w.Object? && k in v.entries && l in w.entries && SameKey(k, l, info)
    requires WellFormed(info) && Unambiguous(v, info) && Unambiguous(w, info)
    requires CanonicalAt(v, info, k, x) && CanonicalAt(w, info, l, y)
    ensures VariantAt(v, w, info, k, l) <==> x == y
    decreases v, 0
  {
    SameKeySameStored(k, l, info);
    var a, b := v.entries[k], w.entries[l];
    var below, other := Below(k, info, a), Below(l, info, b);
    if below.Some? && other.Some? {
      BelowWellFormed(k, info, a);
      CaseDoesNotMatter(a, b, below.value, x, y);
    }
  }

  lemma {:induction false} VariantsAgree(v: Value, w: Value, info: Info, r: Value, s: Value)
    requires v.Object? && CaseVariant(v, w, info) && WellFormed(info)
    requires Unambiguous(v, info) && IsCanonical(v, info, r)
    requires Unambiguous(w, info) && IsCanonical(w, info, s)
    ensures r == s
    decreases v, 2
  {
    FoldedAreStored(v.entries, info);
    FoldedAreStored(w.entries, info);
    assert r.entries.Keys == s.entries.Keys;
    forall d | d in r.entries ensures r.entries[d] == s.entries[d] {
      var k := Origin(v, info, r, d);
      var l := Origin(w, info, s, d);
      SameKeySameStored(k, l, info);
      EntriesAgree(v, w, info, k, l, r.entries[d], s.entries[d]);
    }
    assert r.entries == s.entries;
  }

  lemma {:induction false} AgreeingAreVariants(v: Value, w: Value, info: Info, r: Value, s: Value)
    requires v.Object? && r == s && WellFormed(info)
    requires Unambiguous(v, info) && IsCanonical(v, info, r)
    requires Unambiguous(w, info) && IsCanonical(w, info, s)
    ensures CaseVariant(v, w, info)
    decreases v, 1
  {
    assert w.Object?;
    FoldedAreStored(v.entries, info);
    FoldedAreStored(w.entries, info);
    forall k, l | k in v.entries && l in w.entries && SameKey(k, l, info)
      ensures VariantAt(v, w, info, k, l)
    {
      SameKeySameStored(k, l, info);
      var d := Stored(k, info);
      assert d in r.entries;
      var k' := Origin(v, info, r, d);
      var l' := Origin(w, info, s, d);
      assert k' == k && l' == l;
      EntriesAgree(v, w, info, k, l, r.entries[d], s.entries[d]);
    }
  }
}
