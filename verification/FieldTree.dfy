/**
 The same trees as core/conf/config.go builds them: nodes on the heap, whose children are changed in
 place by insertion, flattening and merging. Every method is proved against module FieldInfos.
 */
module FieldTree {
  import opened Wrappers
  import opened Types
  import opened FieldInfos

  class FieldInfo {
    var children: map<string, FieldInfo>
    var mapField: FieldInfo?

    ghost var Repr: set<object>
    ghost var tree: Info  // the tree that hangs from this node

    /** The nodes below this one form a tree: no node is reached in two ways. */
    ghost predicate Valid()
      reads this, Repr
      decreases Repr
    {
      this in Repr &&
      (forall k :: k in children ==>
        children[k] in Repr && children[k].Repr <= Repr && this !in children[k].Repr && children[k].Valid()) &&
      (forall j, k :: j in children && k in children && j != k ==> children[j].Repr !! children[k].Repr) &&
      (mapField != null ==>
        mapField in Repr && mapField.Repr <= Repr && this !in mapField.Repr && mapField.Valid() &&
        forall k :: k in children ==> children[k].Repr !! mapField.Repr) &&
      tree.children.Keys == children.Keys &&
      (forall k :: k in children ==> tree.children[k] == children[k].tree) &&
      tree.mapField == if mapField == null then None else Some(mapField.tree)
    }

    constructor Leaf()
      ensures Valid() && fresh(Repr) && tree == LEAF
    {
      children, mapField := map[], null;
      Repr, tree := {this}, LEAF;
    }

    constructor ForMap(elem: FieldInfo)
      requires elem.Valid()
      ensures Valid() && fresh(Repr - elem.Repr) && tree == Info(map[], Some(elem.tree))
    {
      children, mapField := map[], elem;
      Repr, tree := {this} + elem.Repr, Info(map[], Some(elem.tree));
    }

    /** Hangs `child` below `key`, which must be free. */
    method Attach(key: string, child: FieldInfo)
      requires Valid() && child.Valid() && Repr !! child.Repr && key !in children
      modifies this
      ensures Valid() && Repr == old(Repr) + child.Repr
      ensures children == old(children)[key := child]
      ensures tree == Info(old(tree).children[key := child.tree], old(tree).mapField)
    {
      children := children[key := child];
      Repr := Repr + child.Repr;
      tree := Info(tree.children[key := child.tree], tree.mapField);
    }

    /** The state of the merge loop: the children of `other` that are not in `rest` have been moved here. */
    ghost predicate Merging(other: FieldInfo, was: Info, bound: set<object>, rest: set<string>)
      reads this, Repr, other, other.Repr
    {
      Valid() && other.Valid() && this !in other.Repr && Repr <= bound && other.Repr <= bound &&
      rest <= other.children.Keys &&
      (forall k :: k in rest ==> other.children[k].Repr !! Repr) &&
      tree == Info(was.children + Moved(other.tree.children, rest), was.mapField) &&
      was.children.Keys !! other.children.Keys - rest
    }

    /** A node that is passed along as a whole, without looking into it. */
    ghost predicate Sound()
      reads this, Repr
    {
      Valid()
    }

    lemma NoChildren()
      requires Sound()
      ensures |children| == 0 <==> tree.children == map[]
    {
      assert tree.children.Keys == children.Keys;
    }

    /** `mergeFields`: moves the children of `other` below this node, in whatever order they come. */
    method MergeFields(other: FieldInfo) returns (ok: bool)
      requires Sound() && other.Sound() && Repr !! other.Repr && other.mapField == null
      modifies this
      ensures ok <==> Mergeable(old(tree), other.tree)
      ensures ok ==> Sound() && Repr <= old(Repr) + other.Repr
      ensures ok ==> tree == Info(old(tree).children + other.tree.children, old(tree).mapField)
    {
      NoChildren();
      other.NoChildren();
      if |children| == 0 || |other.children| == 0 {
        return false;
      }
      ok := MoveAll(other);
    }

    /** The loop of `mergeFields`. */
    method MoveAll(other: FieldInfo) returns (ok: bool)
      requires Sound() && other.Sound() && Repr !! other.Repr
      modifies this
      ensures ok <==> old(tree).children.Keys !! other.tree.children.Keys
      ensures ok ==> Sound() && Repr <= old(Repr) + other.Repr
      ensures ok ==> tree == Info(old(tree).children + other.tree.children, old(tree).mapField)
    {
      ghost var bound := Repr + other.Repr;
      var rest := other.children.Keys;
      MergingStarts(other);
      while rest != {}
        invariant Merging(other, old(tree), bound, rest)
        decreases rest
      {
        var k :| k in rest;
        if k in children {
          MergingConflicts(other, old(tree), bound, rest, k);
          return false;
        }
        MoveChild(other, k, old(tree), bound, rest);
        rest := rest - {k};
      }
      MergingEnds(other, old(tree), bound);
      return true;
    }

    /** One round of the loop. */
    method MoveChild(other: FieldInfo, k: string, ghost was: Info, ghost bound: set<object>, ghost rest: set<string>)
      requires Merging(other, was, bound, rest) && k in rest && k !in children
      modifies this
      ensures Merging(other, was, bound, rest - {k})
    {
      MovedStep(was.children, other.tree.children, rest, k);
      assert k !in was.children;
      Attach(k, other.children[k]);
    }

    lemma MergingStarts(other: FieldInfo)
      requires Sound() && other.Sound() && Repr !! other.Repr
      ensures Merging(other, tree, Repr + other.Repr, other.children.Keys)
    {
      assert tree.children + Moved(other.tree.children, other.children.Keys) == tree.children;
    }

    lemma MergingEnds(other: FieldInfo, was: Info, bound: set<object>)
      requires Merging(other, was, bound, {})
      ensures Sound() && Repr <= bound
      ensures tree == Info(was.children + other.tree.children, was.mapField)
      ensures was.children.Keys !! other.tree.children.Keys
    {
      assert Moved(other.tree.children, {}) == other.tree.children;
    }

    lemma MergingConflicts(other: FieldInfo, was: Info, bound: set<object>, rest: set<string>, k: string)
      requires Merging(other, was, bound, rest) && k in rest && k in children
      ensures k in was.children && k in other.tree.children
    {
    }

    /** What `Valid` says of the children other than the one at `key`, given the nodes below that one. */
    ghost predicate OthersValid(key: string, own: set<object>, repr: set<object>, t: Info)
      reads this`children, repr - own - {this}
    {
      (forall k :: k in children && k != key ==>
        children[k] in repr - own - {this} && children[k].Repr <= repr - own - {this} && children[k].Valid() &&
        k in t.children && t.children[k] == children[k].tree) &&
      (forall j, k :: j in children && k in children && j != k && j != key && k != key ==>
        children[j].Repr !! children[k].Repr)
    }

    /** What it says of the map field. */
    ghost predicate MapFieldValid(key: string, own: set<object>, repr: set<object>, t: Info)
      requires OthersValid(key, own, repr, t)
      reads this`children, this`mapField, repr - own - {this}
    {
      if mapField == null then t.mapField == None
      else
        mapField in repr - own - {this} && mapField.Repr <= repr - own - {this} && mapField.Valid() &&
        t.mapField == Some(mapField.tree) &&
        forall k :: k in children && k != key ==> children[k].Repr !! mapField.Repr
    }

    /** Everything that `Valid` says of the nodes outside `own`, the nodes below `key`. */
    ghost predicate ValidOutside(key: string, own: set<object>)
      reads this, Repr - own
    {
      this in Repr && this !in own && own <= Repr && key in children && children[key] in Repr &&
      tree.children.Keys == children.Keys && OthersValid(key, own, Repr, tree) && MapFieldValid(key, own, Repr, tree)
    }

    /** The same, to be passed along as a whole. */
    ghost predicate Intact(key: string, own: set<object>)
      reads this, Repr - own
    {
      ValidOutside(key, own)
    }

    lemma Outside(key: string)
      requires Sound() && key in children
      ensures Intact(key, children[key].Repr)
      ensures children[key].Sound() && children[key].tree == tree.children[key] && children[key].Repr <= Repr
    {
      assert Valid();
    }

    lemma Whole(key: string, own: set<object>)
      requires Intact(key, own)
      requires children[key].Sound() && children[key].Repr <= own && tree.children[key] == children[key].tree
      ensures Sound()
    {
    }

    /** Nothing outside of it is affected when the node at `key` grows by `extra`. */
    lemma OthersStay(key: string, own: set<object>, repr: set<object>, extra: set<object>, t: Info, t': Info)
      requires OthersValid(key, own, repr, t) && MapFieldValid(key, own, repr, t) && repr !! extra
      requires t'.mapField == t.mapField
      requires forall k :: k in t.children && k != key ==> k in t'.children && t'.children[k] == t.children[k]
      ensures OthersValid(key, own + extra, repr + extra, t') && MapFieldValid(key, own + extra, repr + extra, t')
    {
      assert repr + extra - (own + extra) - {this} == repr - own - {this};
    }

    /** The bookkeeping after the node at `key` has grown by `extra`. */
    ghost method Regrow(key: string, own: set<object>, extra: set<object>)
      requires Intact(key, own) && Repr !! extra
      requires children[key].Sound() && children[key].Repr <= own + extra
      modifies this`Repr, this`tree
      ensures Sound() && Repr == old(Repr) + extra
      ensures tree == Info(old(tree).children[key := children[key].tree], old(tree).mapField)
    {
      RegrowOutside(key, own, extra);
      Whole(key, own + extra);
    }

    ghost method RegrowOutside(key: string, own: set<object>, extra: set<object>)
      requires Intact(key, own) && Repr !! extra
      requires children[key].Sound() && children[key].Repr <= own + extra
      modifies this`Repr, this`tree
      ensures Intact(key, own + extra) && Repr == old(Repr) + extra && children[key].Sound()
      ensures tree == Info(old(tree).children[key := children[key].tree], old(tree).mapField)
    {
      ghost var grown := Info(tree.children[key := children[key].tree], tree.mapField);
      OthersStay(key, own, Repr, extra, tree, grown);
      Repr := Repr + extra;
      tree := grown;
    }

    /** `addOrMergeFields`: a free key takes the child as it is, a taken one has the child's children merged in. */
    method AddOrMergeFields(key: string, child: FieldInfo) returns (ok: bool)
      requires Sound() && child.Sound() && Repr !! child.Repr
      modifies Repr
      ensures ok <==> AddOrMerge(old(tree).children, key, old(child.tree)).Some?
      ensures ok ==> Sound() && Repr <= old(Repr) + old(child.Repr)
      ensures ok ==> tree == Info(AddOrMerge(old(tree).children, key, old(child.tree)).value, old(tree).mapField)
    {
      if key in children {
        if child.mapField != null {
          return false;
        }
        Outside(key);
        ok := MergeInto(key, child);
      } else {
        Attach(key, child);
        ok := true;
      }
    }

    method MergeInto(key: string, child: FieldInfo) returns (ok: bool)
      requires key in children && Intact(key, children[key].Repr)
      requires children[key].Sound() && children[key].tree == tree.children[key] && children[key].Repr <= Repr
      requires child.Sound() && Repr !! child.Repr && child.mapField == null
      modifies children[key], this`Repr, this`tree
      ensures ok <==> Mergeable(old(tree).children[key], child.tree)
      ensures ok ==> Sound() && Repr <= old(Repr) + old(child.Repr)
      ensures ok ==> var prev := old(tree).children[key];
                     tree == Info(old(tree).children[key := Info(prev.children + child.tree.children, prev.mapField)],
                                  old(tree).mapField)
    {
      ghost var own := children[key].Repr;
      ok := MergeBelow(key, own, child);
      if ok {
        Regrow(key, own, child.Repr);
      }
    }

    /** Merging into the node at `key` leaves the nodes outside of it alone. */
    method MergeBelow(key: string, ghost own: set<object>, child: FieldInfo) returns (ok: bool)
      requires Intact(key, own) && key in children && children[key] in own
      requires children[key].Sound() && children[key].Repr == own && child.Sound() && own !! child.Repr &&
               child.mapField == null
      modifies children[key]
      ensures Intact(key, own) && key in children && children[key] == old(children[key])
      ensures ok <==> Mergeable(old(children[key].tree), child.tree)
      ensures ok ==> children[key].Sound() && children[key].Repr <= own + child.Repr
      ensures ok ==> var prev := old(children[key].tree);
                     children[key].tree == Info(prev.children + child.tree.children, prev.mapField)
    {
      ok := children[key].MergeFields(child);
    }
  }

  ghost function Moved(all: Children, rest: set<string>): Children
  {
    map k | k in all && k !in rest :: all[k]
  }

  lemma MovedStep(was: Children, all: Children, rest: set<string>, k: string)
    requires k in all && k in rest
    ensures was + Moved(all, rest - {k}) == (was + Moved(all, rest))[k := all[k]]
  {
  }

  /** `buildFieldsInfo`; null stands for any error. */
  method BuildFieldsInfo(tp: Type) returns (r: FieldInfo?)
    ensures r == null <==> Build(tp).None?
    ensures r != null ==> r.Sound() && fresh(r.Repr) && r.tree == Build(tp).value
    decreases tp, 2
  {
    if tp.Channel? {
      r := null;
    } else if tp.Scalar? {
      r := new FieldInfo.Leaf();
    } else if tp.Struct? {
      r := BuildStructFieldsInfo(tp.fields);
    } else {
      r := BuildFieldsInfo(tp.elem);
    }
  }

  /** `buildStructFieldsInfo`: the loop over the fields. */
  method BuildStructFieldsInfo(fields: seq<Field>) returns (r: FieldInfo?)
    ensures r == null <==> BuildFields(fields).None?
    ensures r != null ==> r.Sound() && fresh(r.Repr) && r.tree == Info(BuildFields(fields).value, None)
    decreases fields
  {
    var info := new FieldInfo.Leaf();
    var i := 0;
    while i < |fields|
      invariant 0 <= i <= |fields|
      invariant BuildFields(fields[..i]).Some?
      invariant info.Sound() && fresh(info.Repr) && info.tree == Info(BuildFields(fields[..i]).value, None)
    {
      assert fields[..i + 1][..i] == fields[..i] && fields[..i + 1][i] == fields[i];
      var ok := true;
      if fields[i].exported {
        ok := BuildFieldInfo(info, fields[i]);
      }
      if !ok {
        BuildFails(fields, i + 1);
        return null;
      }
      i := i + 1;
    }
    assert fields[..i] == fields;
    return info;
  }

  lemma {:induction false} BuildFails(fields: seq<Field>, i: nat)
    requires i <= |fields| && BuildFields(fields[..i]).None?
    ensures BuildFields(fields).None?
    decreases |fields| - i
  {
    if i < |fields| {
      assert fields[..i + 1][..i] == fields[..i];
      BuildFails(fields, i + 1);
    } else {
      assert fields[..i] == fields;
    }
  }

  /** `buildAnonymousFieldInfo` and `buildNamedFieldInfo`: one exported field. */
  method BuildFieldInfo(info: FieldInfo, f: Field) returns (ok: bool)
    requires info.Sound() && f.exported
    modifies info.Repr
    ensures ok <==> CombineOption(Some(old(info.tree).children), Contribution(f)).Some?
    ensures ok ==> info.Sound() && fresh(info.Repr - old(info.Repr))
    ensures ok ==> info.tree == Info(CombineOption(Some(old(info.tree).children), Contribution(f)).value,
                                     old(info.tree).mapField)
    decreases f, 1
  {
    var ft := Deref(f.tp);
    if f.embedded && ft.Struct? {
      var fields := BuildFieldsInfo(ft);
      if fields == null {
        return false;
      }
      ok := Flatten(info, fields);
    } else {
      var child := BuildChild(f);
      if child == null {
        return false;
      }
      CombineSingle(info.tree.children, KeyOf(f), child.tree);
      ok := info.AddOrMergeFields(KeyOf(f), child);
    }
  }

  /** The node for a field that is not flattened; null stands for any error. */
  method BuildChild(f: Field) returns (child: FieldInfo?)
    requires f.exported && !(f.embedded && Deref(f.tp).Struct?)
    ensures child == null <==> Contribution(f).None?
    ensures child != null ==> child.Sound() && fresh(child.Repr) && Contribution(f) == Some(map[KeyOf(f) := child.tree])
    decreases f, 0
  {
    var ft := Deref(f.tp);
    if ft.MapOf? {
      var elem := BuildFieldsInfo(ft.elem);
      if elem == null {
        return null;
      }
      child := new FieldInfo.ForMap(elem);
    } else if f.embedded {
      child := new FieldInfo.Leaf();
    } else {
      child := BuildFieldsInfo(ft);
    }
  }

  lemma CombineSingle(a: Children, key: string, child: Info)
    ensures Combine(a, map[key := child]) == AddOrMerge(a, key, child)
  {
    var b := map[key := child];
    if Combine(a, b).Some? {
      assert a.Keys + b.Keys == AddOrMerge(a, key, child).value.Keys;
      assert Combine(a, b).value == AddOrMerge(a, key, child).value;
    }
  }

  /** The state of the flattening loop: the children of `fields` in `rest` still hang from it, untouched. */
  ghost predicate Flattening(info: FieldInfo, fields: FieldInfo, all: map<string, FieldInfo>, was: Info,
                             added: Children,
                             bound: set<object>, rest: set<string>)
    reads info, info.Repr, fields, all.Values, set c, o | c in all.Values && o in c.Repr :: o
  {
    info.Sound() && info.Repr <= bound && fields !in info.Repr && fields.children == all &&
      rest <= all.Keys == added.Keys &&
    (forall k :: k in rest ==>
      all[k].Sound() && all[k].Repr <= bound && fields !in all[k].Repr && all[k].Repr !! info.Repr &&
        all[k].tree == added[k]) &&
    (forall j, k :: j in rest && k in rest && j != k ==> all[j].Repr !! all[k].Repr) &&
    Combine(was.children, Moved(added, rest)) == Some(info.tree.children) && info.tree.mapField == was.mapField
  }

  /** The loop that moves the children of an embedded struct up into the struct around it. */
  method Flatten(info: FieldInfo, fields: FieldInfo) returns (ok: bool)
    requires info.Sound() && fields.Sound() && info.Repr !! fields.Repr
    modifies info.Repr, fields.Repr
    ensures ok <==> Combine(old(info.tree).children, old(fields.tree).children).Some?
    ensures ok ==> info.Sound() && info.Repr <= old(info.Repr) + old(fields.Repr)
    ensures ok ==> info.tree == Info(Combine(old(info.tree).children, old(fields.tree).children).value,
                                     old(info.tree).mapField)
  {
    var all := fields.children;
    ghost var was, added, bound := info.tree, fields.tree.children, info.Repr + fields.Repr;
    var rest := all.Keys;
    FlatteningStarts(info, fields);
    while rest != {}
      invariant Flattening(info, fields, all, was, added, bound, rest)
      invariant info.Repr <= bound
      decreases rest
    {
      var k :| k in rest;
      ok := FlattenOne(info, fields, all, k, was, added, bound, rest);
      if !ok {
        return;
      }
      rest := rest - {k};
    }
    MovedAll(added);
    ok := true;
  }

  method FlattenOne(info: FieldInfo, ghost fields: FieldInfo, all: map<string, FieldInfo>, k: string,
                    ghost was: Info, ghost added: Children, ghost bound: set<object>, ghost rest: set<string>)
                      returns (ok: bool)
    requires Flattening(info, fields, all, was, added, bound, rest) && k in rest
    modifies info.Repr
    ensures ok ==> Flattening(info, fields, all, was, added, bound, rest - {k})
    ensures !ok ==> Combine(was.children, added).None?
  {
    CombineStep(was.children, added, rest, k);
    ok := info.AddOrMergeFields(k, all[k]);
  }

  lemma FlatteningStarts(info: FieldInfo, fields: FieldInfo)
    requires info.Sound() && fields.Sound() && info.Repr !! fields.Repr
    ensures Flattening(info, fields, fields.children, info.tree, fields.tree.children, info.Repr + fields.Repr,
                       fields.children.Keys)
  {
    assert fields.Valid();
    assert Moved(fields.tree.children, fields.children.Keys) == map[];
    assert Combine(info.tree.children, map[]).value == info.tree.children;
  }

  /** Adding one more child, in terms of what has been added before. */
  lemma CombineStep(a: Children, added: Children, rest: set<string>, k: string)
    requires k in rest && k in added && Combine(a, Moved(added, rest)).Some?
    ensures Combine(a, Moved(added, rest - {k})) == AddOrMerge(Combine(a, Moved(added, rest)).value, k, added[k])
    ensures Combine(a, Moved(added, rest - {k})).None? ==> Combine(a, added).None?
  {
    var before, after := Moved(added, rest), Moved(added, rest - {k});
    assert after == before[k := added[k]] && k !in before;
    CombineInsert(a, before, k, added[k]);
  }

  lemma CombineInsert(a: Children, b: Children, k: string, node: Info)
    requires k !in b && Combine(a, b).Some?
    ensures Combine(a, b[k := node]) == AddOrMerge(Combine(a, b).value, k, node)
  {
    var c, after := Combine(a, b).value, b[k := node];
    if Combine(a, after).Some? {
      assert a.Keys + after.Keys == AddOrMerge(c, k, node).value.Keys;
      assert Combine(a, after).value == AddOrMerge(c, k, node).value;
    }
  }

  lemma MovedAll(all: Children)
    ensures Moved(all, {}) == all
  {
  }
}
