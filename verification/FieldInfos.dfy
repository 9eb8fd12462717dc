/**
 Field-info trees of core/conf/config.go:30-35 and 138-307, as values: which keys a configuration type
 knows, level by level. Building one flattens embedded structs and merges fields that share a name.
 */
module FieldInfos {
  import opened Wrappers
  import opened Strings
  import opened Types

  datatype Info = Info(children: Children, mapField: Option<Info>)

  type Children = map<string, Info>

  const LEAF := Info(map[], None)

  // ---------- Names ----------

  /** `getTagName`: the tag up to its first comma, or the field's own name. */
  function TagName(f: Field): string
  {
    var tag := if f.tag.Tagged? then TrimSpace(Split(f.tag.text, ',')[0]) else "";
    if tag != "" then tag else f.name
  }

  function KeyOf(f: Field): string
  {
    ToLower(TagName(f))
  }

  // ---------- Merging ----------

  /** Two nodes may share a key when both are branches, with no child key in common. */
  predicate Mergeable(prev: Info, child: Info)
  {
    child.mapField.None? && prev.children != map[] && child.children != map[] &&
      prev.children.Keys !! child.children.Keys
  }

  /** `addOrMergeFields` and, for a key already present, `mergeFields`. */
  function AddOrMerge(children: Children, key: string, child: Info): Option<Children>
  {
    if key !in children then Some(children[key := child])
    else if Mergeable(children[key], child) then
      Some(children[key := Info(children[key].children + child.children, children[key].mapField)])
    else None
  }

  /** Adding all of `b` to `a`. */
  function Combine(a: Children, b: Children): Option<Children>
  {
    if forall k :: k in a && k in b ==> Mergeable(a[k], b[k]) then
      Some(map k | k in a.Keys + b.Keys :: Joined(a, b, k))
    else None
  }

  function Joined(a: Children, b: Children, k: string): Info
    requires k in a || k in b
  {
    if k !in b then a[k] else if k !in a then b[k] else Info(a[k].children + b[k].children, a[k].mapField)
  }

  function CombineOption(a: Option<Children>, b: Option<Children>): Option<Children>
  {
    if a.None? || b.None? then None else Combine(a.value, b.value)
  }

  // ---------- Building ----------

  /** `buildFieldsInfo`; None stands for any error. */
  function Build(tp: Type): Option<Info>
  {
    match tp
    case PtrTo(elem) => Build(elem)
    case Struct(fields) =>
      var children := BuildFields(fields);
      if children.None? then None else Some(Info(children.value, None))
    case SliceOf(elem) => Build(elem)
    case ArrayOf(elem) => Build(elem)
    case MapOf(elem) => Build(elem)
    case Channel => None
    case Scalar(_) => Some(LEAF)
  }

  /** What the loop of `buildStructFieldsInfo` has collected after the given fields. */
  function BuildFields(fields: seq<Field>): Option<Children>
  {
    if fields == [] then Some(map[])
    else CombineOption(BuildFields(fields[..|fields| - 1]), Contribution(fields[|fields| - 1]))
  }

  /** The keys one field brings in. An embedded struct brings its children, any other field brings itself. */
  function Contribution(f: Field): Option<Children>
  {
    var ft := Deref(f.tp);
    if !f.exported then Some(map[])
    else if f.embedded && ft.Struct? then
      var info := Build(ft);
      if info.None? then None else Some(info.value.children)
    else if ft.MapOf? then
      var info := Build(ft.elem);
      if info.None? then None else Some(map[KeyOf(f) := Info(map[], Some(info.value))])
    else if f.embedded then Some(map[KeyOf(f) := LEAF])
    else
      var info := Build(ft);
      if info.None? then None else Some(map[KeyOf(f) := info.value])
  }

  // ---------- The structure kept ----------

  /** The invariant stated above `fieldInfo`, at every node, and lower-case keys throughout. */
  ghost predicate WellFormed(info: Info)
  {
    (info.mapField.Some? ==> info.children == map[] && WellFormed(info.mapField.value)) &&
    forall k :: k in info.children ==> ToLower(k) == k && WellFormed(info.children[k])
  }

  ghost predicate AllWellFormed(children: Children)
  {
    forall k :: k in children ==> ToLower(k) == k && WellFormed(children[k])
  }

  /** The part of the invariant that merging at this level depends on. */
  predicate Exclusive(children: Children)
  {
    forall k :: k in children ==> (children[k].mapField.Some? ==> children[k].children == map[])
  }

  lemma WellFormedExclusive(children: Children)
    requires AllWellFormed(children)
    ensures Exclusive(children)
  {
  }

  lemma CombineWellFormed(a: Children, b: Children)
    requires AllWellFormed(a) && AllWellFormed(b) && Combine(a, b).Some?
    ensures AllWellFormed(Combine(a, b).value)
  {
  }

  /** Every tree that is built keeps map fields and children apart and has lower-case keys. */
  lemma {:induction false} BuildWellFormed(tp: Type)
    requires Build(tp).Some?
    ensures WellFormed(Build(tp).value)
    decreases tp, 1
  {
    match tp
    case PtrTo(elem) => BuildWellFormed(elem);
    case Struct(fields) => BuildFieldsWellFormed(fields);
    case SliceOf(elem) => BuildWellFormed(elem);
    case ArrayOf(elem) => BuildWellFormed(elem);
    case MapOf(elem) => BuildWellFormed(elem);
    case Scalar(_) =>
  }

  lemma {:induction false} BuildFieldsWellFormed(fields: seq<Field>)
    requires BuildFields(fields).Some?
    ensures AllWellFormed(BuildFields(fields).value)
    decreases fields
  {
    if fields != [] {
      BuildFieldsWellFormed(fields[..|fields| - 1]);
      ContributionWellFormed(fields[|fields| - 1]);
      CombineWellFormed(BuildFields(fields[..|fields| - 1]).value, Contribution(fields[|fields| - 1]).value);
    }
  }

  lemma {:induction false} ContributionWellFormed(f: Field)
    requires Contribution(f).Some?
    ensures AllWellFormed(Contribution(f).value)
    decreases f
  {
    ToLowerTwice(TagName(f));
    var ft := Deref(f.tp);
    if f.exported {
      if ft.MapOf? {
        BuildWellFormed(ft.elem);
      } else if !f.embedded || ft.Struct? {
        BuildWellFormed(ft);
      }
    }
  }

  // ---------- Merging is commutative and associative ----------

  lemma CombineCommutes(a: Children, b: Children)
    requires Exclusive(a) && Exclusive(b)
    ensures Combine(a, b) == Combine(b, a)
  {
    assert forall k :: k in a && k in b ==> (Mergeable(a[k], b[k]) <==> Mergeable(b[k], a[k]));
    if Combine(a, b).Some? {
      forall k | k in a.Keys + b.Keys ensures Joined(a, b, k) == Joined(b, a, k) {
        if k in a && k in b {
          assert Mergeable(a[k], b[k]);
          assert a[k].children + b[k].children == b[k].children + a[k].children;
        }
      }
      assert Combine(a, b).value == Combine(b, a).value;
    }
  }

  /** Whether three families can be combined does not depend on the grouping, and neither does the outcome. */
  lemma CombineAssociates(a: Children, b: Children, c: Children)
    requires Exclusive(a) && Exclusive(b) && Exclusive(c)
    ensures CombineOption(Combine(a, b), Some(c)) == CombineOption(Some(a), Combine(b, c))
  {
    if forall x, y :: (x, y) in [(a, b), (b, c), (a, c)] ==> Combine(x, y).Some? {
      PairwiseSuffices(a, b, c);
    } else {
      PairwiseNeeded(a, b, c);
    }
  }

  lemma JoinedAssociates(a: Children, b: Children, c: Children, k: string)
    requires Combine(a, b).Some? && Combine(b, c).Some? && Combine(a, c).Some?
    requires k in a || k in b || k in c
    ensures var ab, bc := Combine(a, b).value, Combine(b, c).value;
            Joined(ab, c, k) == Joined(a, bc, k) &&
            (k in ab && k in c ==> Mergeable(ab[k], c[k])) && (k in a && k in bc ==> Mergeable(a[k], bc[k]))
  {
  }

  lemma SameJoins(a: Children, b: Children, a': Children, b': Children)
    requires a.Keys + b.Keys == a'.Keys + b'.Keys
    requires forall k :: k in a && k in b ==> Mergeable(a[k], b[k])
    requires forall k :: k in a' && k in b' ==> Mergeable(a'[k], b'[k])
    requires forall k :: k in a || k in b ==> Joined(a, b, k) == Joined(a', b', k)
    ensures Combine(a, b).Some? && Combine(a, b) == Combine(a', b')
  {
    var l, r := Combine(a, b).value, Combine(a', b').value;
    assert l.Keys == r.Keys;
    assert l == r;
  }

  lemma PairwiseSuffices(a: Children, b: Children, c: Children)
    requires Combine(a, b).Some? && Combine(b, c).Some? && Combine(a, c).Some?
    ensures Combine(Combine(a, b).value, c).Some? && Combine(a, Combine(b, c).value).Some?
    ensures Combine(Combine(a, b).value, c) == Combine(a, Combine(b, c).value)
  {
    var ab, bc := Combine(a, b).value, Combine(b, c).value;
    forall k | k in a || k in b || k in c
      ensures Joined(ab, c, k) == Joined(a, bc, k)
      ensures (k in ab && k in c ==> Mergeable(ab[k], c[k])) && (k in a && k in bc ==> Mergeable(a[k], bc[k]))
    {
      JoinedAssociates(a, b, c, k);
    }
    SameJoins(ab, c, a, bc);
  }

  lemma PairwiseNeeded(a: Children, b: Children, c: Children)
    requires Exclusive(a) && Exclusive(b) && Exclusive(c)
    requires Combine(a, b).None? || Combine(b, c).None? || Combine(a, c).None?
    ensures CombineOption(Combine(a, b), Some(c)).None? && CombineOption(Some(a), Combine(b, c)).None?
  {
  }

  // ---------- The order of fields does not matter ----------

  lemma BuiltExclusive(fields: seq<Field>)
    requires BuildFields(fields).Some?
    ensures Exclusive(BuildFields(fields).value)
  {
    BuildFieldsWellFormed(fields);
    WellFormedExclusive(BuildFields(fields).value);
  }

  lemma ContributedExclusive(f: Field)
    requires Contribution(f).Some?
    ensures Exclusive(Contribution(f).value)
  {
    ContributionWellFormed(f);
    WellFormedExclusive(Contribution(f).value);
  }

  ghost predicate ExclusiveOption(c: Option<Children>)
  {
    c.Some? ==> Exclusive(c.value)
  }

  lemma SwapLast(x: Option<Children>, y: Option<Children>, z: Option<Children>)
    requires ExclusiveOption(x) && ExclusiveOption(y) && ExclusiveOption(z)
    ensures CombineOption(CombineOption(x, y), z) == CombineOption(CombineOption(x, z), y)
  {
    if x.Some? && y.Some? && z.Some? {
      CombineAssociates(x.value, y.value, z.value);
      CombineCommutes(y.value, z.value);
      CombineAssociates(x.value, z.value, y.value);
    }
  }

  lemma BuildSnoc(fields: seq<Field>, last: Field)
    ensures BuildFields(fields + [last]) == CombineOption(BuildFields(fields), Contribution(last))
  {
    assert (fields + [last])[..|fields|] == fields;
  }

  lemma SwapFields(others: seq<Field>, f: Field, g: Field)
    ensures CombineOption(CombineOption(BuildFields(others), Contribution(f)), Contribution(g)) ==
            CombineOption(CombineOption(BuildFields(others), Contribution(g)), Contribution(f))
  {
    if BuildFields(others).Some? { BuiltExclusive(others); }
    if Contribution(f).Some? { ContributedExclusive(f); }
    if Contribution(g).Some? { ContributedExclusive(g); }
    SwapLast(BuildFields(others), Contribution(f), Contribution(g));
  }

  /** Any field can be processed last. */
  lemma {:induction false} ProcessLast(fields: seq<Field>, i: nat)
    requires i < |fields|
    ensures BuildFields(fields) == CombineOption(BuildFields(Without(fields, i)), Contribution(fields[i]))
    decreases |fields|
  {
    var n := |fields| - 1;
    var initial, last := fields[..n], fields[n];
    assert fields == initial + [last];
    if i == n {
      assert Without(fields, i) == initial;
    } else {
      ProcessLast(initial, i);
      var others := Without(initial, i);
      assert Without(fields, i) == others + [last];
      BuildSnoc(others, last);
      SwapFields(others, fields[i], last);
    }
  }

  /** The same type, up to the order in which structs at any depth list their fields. */
  ghost predicate Reordered(s: Type, t: Type)
  {
    match s
    case Scalar(_) => s == t
    case Channel => s == t
    case PtrTo(elem) => t.PtrTo? && Reordered(elem, t.elem)
    case SliceOf(elem) => t.SliceOf? && Reordered(elem, t.elem)
    case ArrayOf(elem) => t.ArrayOf? && Reordered(elem, t.elem)
    case MapOf(elem) => t.MapOf? && Reordered(elem, t.elem)
    case Struct(fields) => t.Struct? && ReorderedFields(fields, t.fields)
  }

  ghost predicate ReorderedFields(fs: seq<Field>, gs: seq<Field>)
  {
    |fs| == |gs| &&
    (fs != [] ==>
       exists i :: 0 <= i < |gs| && SameField(fs[|fs| - 1], gs[i]) && ReorderedFields(fs[..|fs| - 1], Without(gs, i)))
  }

  ghost predicate SameField(f: Field, g: Field)
  {
    f.name == g.name && f.exported == g.exported && f.embedded == g.embedded && f.tag == g.tag && Reordered(f.tp, g.tp)
  }

  lemma {:induction false} DerefReordered(s: Type, t: Type)
    requires Reordered(s, t)
    ensures Reordered(Deref(s), Deref(t))
  {
    if s.PtrTo? {
      DerefReordered(s.elem, t.elem);
    }
  }

  /** Whether a tree can be built, and the tree, do not depend on the order of fields, at any depth. */
  lemma {:induction false} BuildReordered(s: Type, t: Type)
    requires Reordered(s, t)
    ensures Build(s) == Build(t)
    decreases s, 1
  {
    match s
    case PtrTo(elem) => BuildReordered(elem, t.elem);
    case Struct(fields) => BuildFieldsReordered(fields, t.fields);
    case SliceOf(elem) => BuildReordered(elem, t.elem);
    case ArrayOf(elem) => BuildReordered(elem, t.elem);
    case MapOf(elem) => BuildReordered(elem, t.elem);
    case Channel =>
    case Scalar(_) =>
  }

  lemma {:induction false} BuildFieldsReordered(fs: seq<Field>, gs: seq<Field>)
    requires ReorderedFields(fs, gs)
    ensures BuildFields(fs) == BuildFields(gs)
    decreases fs
  {
    if fs != [] {
      var last := fs[|fs| - 1];
      var i :| 0 <= i < |gs| && SameField(last, gs[i]) && ReorderedFields(fs[..|fs| - 1], Without(gs, i));
      BuildFieldsReordered(fs[..|fs| - 1], Without(gs, i));
      SameContribution(last, gs[i]);
      ProcessLast(gs, i);
    }
  }

  lemma {:induction false} SameContribution(f: Field, g: Field)
    requires SameField(f, g)
    ensures Contribution(f) == Contribution(g)
    decreases f
  {
    DerefReordered(f.tp, g.tp);
    var ft, gt := Deref(f.tp), Deref(g.tp);
    if ft.MapOf? {
      BuildReordered(ft.elem, gt.elem);
    } else {
      BuildReordered(ft, gt);
    }
  }

  // ---------- No leaf is lost or claimed twice ----------

  /** A step of a path: a named child, or any key of a map field. */
  datatype Key = Named(name: string) | Any

  /** The paths from a node to the leaves below it. */
  ghost function LeafPaths(info: Info): set<seq<Key>>
  {
    if info.mapField.Some? then set p | p in LeafPaths(info.mapField.value) :: [Any] + p
    else if info.children == map[] then {[]}
    else set k, p | k in info.children && p in LeafPaths(info.children[k]) :: [Named(k)] + p
  }

  /** The leaf paths of a whole family of children; a family of none contributes none. */
  ghost function PathsFrom(children: Children): set<seq<Key>>
  {
    if children == map[] then {} else LeafPaths(Info(children, None))
  }

  lemma PathFrom(children: Children, path: seq<Key>)
    ensures path in PathsFrom(children) <==>
            |path| > 0 && path[0].Named? && path[0].name in children && path[1..] in LeafPaths(children[path[0].name])
  {
    if path in PathsFrom(children) {
      var k, p :| k in children && p in LeafPaths(children[k]) && path == [Named(k)] + p;
      assert path[1..] == p;
    }
    if |path| > 0 && path[0].Named? && path[0].name in children && path[1..] in LeafPaths(children[path[0].name]) {
      assert path == [Named(path[0].name)] + path[1..];
    }
  }

  /** Combining two families puts their leaf paths together, and succeeds only if they share none. */
  lemma CombinePaths(a: Children, b: Children)
    requires Exclusive(a) && Exclusive(b) && Combine(a, b).Some?
    ensures PathsFrom(Combine(a, b).value) == PathsFrom(a) + PathsFrom(b)
    ensures PathsFrom(a) !! PathsFrom(b)
  {
    var c := Combine(a, b).value;
    forall path: seq<Key>
      ensures path in PathsFrom(c) <==> path in PathsFrom(a) || path in PathsFrom(b)
      ensures !(path in PathsFrom(a) && path in PathsFrom(b))
    {
      PathFrom(a, path);
      PathFrom(b, path);
      PathFrom(c, path);
      if |path| > 0 && path[0].Named? && path[0].name in a && path[0].name in b {
        var k := path[0].name;
        assert Mergeable(a[k], b[k]) && a[k].mapField.None?;
        assert c[k] == Info(a[k].children + b[k].children, None);
        PathFrom(a[k].children, path[1..]);
        PathFrom(b[k].children, path[1..]);
        PathFrom(c[k].children, path[1..]);
      }
    }
  }

  /** The leaf paths that a field contributes, if it contributes at all. */
  ghost function Contributed(f: Field): set<seq<Key>>
  {
    if Contribution(f).Some? then PathsFrom(Contribution(f).value) else {}
  }

  ghost predicate ClaimedBySome(fields: seq<Field>, path: seq<Key>)
  {
    exists i :: 0 <= i < |fields| && path in Contributed(fields[i])
  }

  ghost predicate ClaimedApart(fields: seq<Field>)
  {
    forall i, j :: 0 <= i < j < |fields| ==> Contributed(fields[i]) !! Contributed(fields[j])
  }

  lemma ClaimedSnoc(fields: seq<Field>, last: Field, path: seq<Key>)
    ensures ClaimedBySome(fields + [last], path) <==> ClaimedBySome(fields, path) || path in Contributed(last)
  {
    var all := fields + [last];
    if ClaimedBySome(fields, path) {
      var i :| 0 <= i < |fields| && path in Contributed(fields[i]);
      assert all[i] == fields[i];
    }
    if path in Contributed(last) { assert all[|fields|] == last; }
  }

  lemma ApartSnoc(fields: seq<Field>, last: Field)
    requires ClaimedApart(fields) && forall path :: path in Contributed(last) ==> !ClaimedBySome(fields, path)
    ensures ClaimedApart(fields + [last])
  {
    var all := fields + [last];
    forall i, j | 0 <= i < j < |all| ensures Contributed(all[i]) !! Contributed(all[j]) {
      assert all[i] == fields[i];
      if j < |fields| { assert all[j] == fields[j]; }
    }
  }

  /**
   When a tree is built, its leaf paths are those contributed by the fields: none is lost, and no two
   fields contribute the same one.
   */
  lemma {:induction false} LeavesPartitioned(fields: seq<Field>)
    requires BuildFields(fields).Some?
    ensures forall path: seq<Key> :: path in PathsFrom(BuildFields(fields).value) <==> ClaimedBySome(fields, path)
    ensures ClaimedApart(fields)
    decreases |fields|
  {
    if fields != [] {
      var n := |fields| - 1;
      var initial, last := fields[..n], fields[n];
      assert fields == initial + [last];
      LeavesPartitioned(initial);
      BuiltExclusive(initial);
      ContributedExclusive(last);
      CombinePaths(BuildFields(initial).value, Contribution(last).value);
      forall path: seq<Key>
        ensures ClaimedBySome(fields, path) <==> ClaimedBySome(initial, path) || path in Contributed(last)
      {
        ClaimedSnoc(initial, last, path);
      }
      ApartSnoc(initial, last);
    }
  }
}
