/**
 A whole run in which the merge of one field decides about another: whether unmarshalling succeeds depends on
 the order in which a struct lists its fields.
 */
module SharedRun {
  import opened Wrappers
  import opened Strings
  import opened Types
  import opened TagScanner
  import opened Tags
  import opened TagPrinter
  import opened Stores
  import opened Valuers
  import opened SharedLookup
  import opened SharedExamples
  import opened Unmarshal
  import opened Obeys

  const INHERITED := NO_OPTIONS.(context := NO_OPTIONS.context.(inherit := true))

  /** `struct { Port int }`. */
  const PORT_FIELD := Field("Port", true, false, Untagged, Scalar(KInt(0)))
  const SERVER := Struct([PORT_FIELD])

  const PLAIN_FIELD := Field("Server", true, false, Untagged, SERVER)

  /** A field with the tag `Server,inherit`. */
  function InheritField(n: Numerals): Field
  {
    Field("Server", true, false, Tagged(PrintTag(n, "Server", INHERITED)), SERVER)
  }

  function ChildField(n: Numerals): Field
  {
    Field("Child", true, false, Untagged, Struct([InheritField(n)]))
  }

  /** `struct { Mid struct { Child struct { Server }; Server } }`, the two inner fields in either order. */
  function Outer(n: Numerals, childFirst: bool): seq<Field>
  {
    var inner := if childFirst then [ChildField(n), PLAIN_FIELD] else [PLAIN_FIELD, ChildField(n)];
    [Field("Mid", true, false, Untagged, Struct(inner))]
  }

  // ---------- The steps of the run ----------

  predicate Simple(key: string)
  {
    key != "" && key != "-" && forall i :: 0 <= i < |key| ==> key[i] != '.'
  }

  lemma SimpleKey(key: string)
    requires Simple(key)
    ensures ReadKeys(key) == [key]
  {
    SplitNone(key, '.');
    assert [key][1..] == [];
    assert NonEmpty([key]) == [key];
  }

  /** An untagged field is looked up under its name, at its own level. */
  lemma UntaggedField(u: Unmarshaler, f: Field, s: Scope, h: Store)
    requires f.tag == Untagged && f.exported && !f.embedded && Simple(f.name)
    ensures ProcessField(u, f, s, h) ==
            var found := Bound(Get(h, s.level), f.name);
            if found.None? then WithoutValue(u, f.tp, None, h)
            else WithValue(u, f.tp, found.value, CreateValuer(ValuerOf(s), false), None, h)
  {
    SimpleKey(f.name);
    FindPlain(h, ValuerOf(s), f.name);
    FindPlain(h, CreateValuer(ValuerOf(s), false), f.name);
    assert Nearest(CreateValuer(ValuerOf(s), false)) == Nearest(ValuerOf(s)) == Nearest(MapValuer(s.level)) == s.level;
    assert Found(h, s, InForce(f.name, None)) == Sought(Bound(Get(h, s.level), f.name), h);
  }

  lemma InheritKey(u: Unmarshaler)
    ensures ParseKeyAndOptions(u, InheritField(u.lib.numerals)) == Ok(KeyOptions("Server", Some(INHERITED)))
  {
    InheritTag(u.lib.numerals);
    TagRoundTrip(u.lib.numerals, "Server", INHERITED);
  }

  lemma InheritInForce(u: Unmarshaler, level: Entries)
    ensures ParseOptionsWithContext(u, InheritField(u.lib.numerals), level) ==
            Ok(InForce("Server", Some(INHERITED.context)))
  {
    InheritKey(u);
  }

  lemma InheritsField(u: Unmarshaler, s: Scope, h: Store)
    ensures var found := Find(h, CreateValuer(ValuerOf(s), true), "Server");
            ProcessField(u, InheritField(u.lib.numerals), s, h) ==
            if found.value.None? then WithoutValue(u, SERVER, Some(INHERITED.context), found.store)
            else WithValue(u, SERVER, found.value.value, CreateValuer(ValuerOf(s), true), Some(INHERITED.context),
                           found.store)
  {
    var f := InheritField(u.lib.numerals);
    InheritInForce(u, Get(h, s.level));
    SimpleKey("Server");
    NamedCases(u, f, s, h);
    assert ProcessField(u, f, s, h) == ProcessNamed(u, f, s, h);
  }

  lemma InheritTag(n: Numerals)
    ensures Printable(n, INHERITED) && Trimmed("Server")
    ensures var tag := PrintTag(n, "Server", INHERITED); tag != "" && TrimSpace(tag) == tag
  {
    var ps := PrintAll(n, INHERITED);
    assert ps == [Printed("inherit", "inherit")];
    OneWritten(ps[0]);
    ServerIsEscaped();
    TrimmedEnds("Server", Written(ps));
  }

  lemma OneWritten(p: Printed)
    ensures Written([p]) == [SEPARATOR] + p.written
  {
    assert [p][1..] == [];
  }

  lemma ServerIsEscaped()
    ensures Escape("Server") == "Server"
  {
    PlainIsEscaped("Server");
  }

  lemma TrimmedEnds(a: string, b: string)
    requires a != "" && b != "" && !IsSpace(a[0]) && !IsSpace(b[|b| - 1])
    ensures TrimSpace(a + b) == a + b
  {
    TrimSpaceKeeps(a + b);
  }

  // ---------- Structs ----------

  lemma OneField(u: Unmarshaler, f: Field, s: Scope, h: Store)
    ensures ProcessFields(u, [f], s, h) == Appended([], ProcessField(u, f, s, h))
  {
    assert [f][..0] == [];
    assert ProcessFields(u, [], s, h) == Done(Ok([]), h);
  }

  lemma TwoFields(u: Unmarshaler, f: Field, g: Field, s: Scope, h: Store)
    ensures var first := ProcessField(u, f, s, h);
            ProcessFields(u, [f, g], s, h) ==
            if first.result.Err? then Done(Err(first.result.error), first.store)
            else Appended([first.result.value], ProcessField(u, g, s, first.store))
  {
    assert [f, g][..1] == [f];
    OneField(u, f, s, h);
    var first := ProcessField(u, f, s, h);
    if first.result.Ok? { assert [] + [first.result.value] == [first.result.value]; }
  }

  /** An untagged field of struct type is filled from the map under its name. */
  lemma StructField(u: Unmarshaler, f: Field, s: Scope, h: Store, loc: Loc)
    requires f.tag == Untagged && f.exported && !f.embedded && Simple(f.name) && f.tp.Struct?
    requires Bound(Get(h, s.level), f.name) == Some(MapAt(loc))
    ensures ProcessField(u, f, s, h) == Recorded(ProcessFields(u, f.tp.fields, Below(s, loc), h))
  {
    UntaggedField(u, f, s, h);
  }

  function Below(s: Scope, loc: Loc): Scope
  {
    Scope(loc, Some(CreateValuer(ValuerOf(s), false)))
  }

  const FILLED_SERVER := Record([Some(Target.Leaf(Num(80.0)))])

  predicate PortIs80(entries: Entries)
  {
    "Port" in entries ==> entries["Port"] == Number("80")
  }

  lemma PortCell(u: Unmarshaler)
    requires !u.fromString && u.lib.parseInt("80", 0) == Some(80)
    ensures ScalarWithValue(u, Scalar(KInt(0)), Number("80"), None) == Ok(Some(Target.Leaf(Num(80.0))))
  {
  }

  /** A server is filled exactly if the map has a port. */
  lemma ServerFilled(u: Unmarshaler, s: Scope, h: Store)
    requires !u.fromString && u.lib.parseInt("80", 0) == Some(80) && PortIs80(Get(h, s.level))
    ensures Recorded(ProcessFields(u, [PORT_FIELD], s, h)) ==
            Done(if "Port" in Get(h, s.level) then Ok(Some(FILLED_SERVER)) else Err(NotSet), h)
  {
    OneField(u, PORT_FIELD, s, h);
    UntaggedField(u, PORT_FIELD, s, h);
    if "Port" in Get(h, s.level) {
      PortCell(u);
      assert [] + [Some(Target.Leaf(Num(80.0)))] == [Some(Target.Leaf(Num(80.0)))];
    }
  }

  lemma PlainFilled(u: Unmarshaler, s: Scope, h: Store, q: Loc)
    requires !u.fromString && u.lib.parseInt("80", 0) == Some(80)
    requires Bound(Get(h, s.level), "Server") == Some(MapAt(q)) && PortIs80(Get(h, q))
    ensures ProcessField(u, PLAIN_FIELD, s, h) ==
            Done(if "Port" in Get(h, q) then Ok(Some(FILLED_SERVER)) else Err(NotSet), h)
  {
    StructField(u, PLAIN_FIELD, s, h, q);
    ServerFilled(u, Below(s, q), h);
  }

  lemma InheritFilled(u: Unmarshaler, s: Scope, h: Store, q: Loc)
    requires !u.fromString && u.lib.parseInt("80", 0) == Some(80)
    requires var found := Find(h, CreateValuer(ValuerOf(s), true), "Server");
             found.value == Some(MapAt(q)) && "Port" in Get(found.store, q) && PortIs80(Get(found.store, q))
    ensures ProcessField(u, InheritField(u.lib.numerals), s, h) ==
            Done(Ok(Some(FILLED_SERVER)), Find(h, CreateValuer(ValuerOf(s), true), "Server").store)
  {
    InheritsField(u, s, h);
    ServerFilled(u, Scope(q, Some(CreateValuer(ValuerOf(s), true))),
                 Find(h, CreateValuer(ValuerOf(s), true), "Server").store);
  }

  // ---------- The runs ----------

  const AT_ROOT := Scope(0, None)

  lemma ScopesOfRun()
    ensures ValuerOf(Below(AT_ROOT, 2)) == MID && ValuerOf(Below(Below(AT_ROOT, 2), 4)) == CHILD
  {
    var steps := [Nested(false, 2), Nested(false, 4)];
    assert steps[..1] == [Nested(false, 2)] && [Nested(false, 2)][..0] == [];
  }

  lemma ChildFilled(u: Unmarshaler, s: Scope, h: Store, c: Loc, q: Loc)
    requires !u.fromString && u.lib.parseInt("80", 0) == Some(80)
    requires Bound(Get(h, s.level), "Child") == Some(MapAt(c))
    requires var found := Find(h, CreateValuer(ValuerOf(Below(s, c)), true), "Server");
             found.value == Some(MapAt(q)) && "Port" in Get(found.store, q) && PortIs80(Get(found.store, q))
    ensures ProcessField(u, ChildField(u.lib.numerals), s, h) ==
            Done(Ok(Some(Record([Some(FILLED_SERVER)]))),
                 Find(h, CreateValuer(ValuerOf(Below(s, c)), true), "Server").store)
  {
    var f := InheritField(u.lib.numerals);
    StructField(u, ChildField(u.lib.numerals), s, h, c);
    OneField(u, f, Below(s, c), h);
    InheritFilled(u, Below(s, c), h, q);
    assert [] + [Some(FILLED_SERVER)] == [Some(FILLED_SERVER)];
  }

  /** The field next to `Child` is filled from the map as `Child` leaves it. */
  lemma ChildFirst(u: Unmarshaler, s: Scope, h: Store, h': Store, p: Loc, cell: Option<Target>)
    requires !u.fromString && u.lib.parseInt("80", 0) == Some(80)
    requires ProcessField(u, ChildField(u.lib.numerals), s, h) == Done(Ok(cell), h')
    requires Bound(Get(h', s.level), "Server") == Some(MapAt(p)) && "Port" in Get(h', p) && PortIs80(Get(h', p))
    ensures ProcessFields(u, [ChildField(u.lib.numerals), PLAIN_FIELD], s, h) ==
            Done(Ok([cell, Some(FILLED_SERVER)]), h')
  {
    TwoFields(u, ChildField(u.lib.numerals), PLAIN_FIELD, s, h);
    PlainFilled(u, s, h', p);
    assert [cell] + [Some(FILLED_SERVER)] == [cell, Some(FILLED_SERVER)];
  }

  lemma PlainFirst(u: Unmarshaler, s: Scope, h: Store, p: Loc)
    requires !u.fromString && u.lib.parseInt("80", 0) == Some(80)
    requires Bound(Get(h, s.level), "Server") == Some(MapAt(p)) && "Port" !in Get(h, p)
    ensures ProcessFields(u, [PLAIN_FIELD, ChildField(u.lib.numerals)], s, h).result == Err(NotSet)
  {
    PlainFilled(u, s, h, p);
    TwoFields(u, PLAIN_FIELD, ChildField(u.lib.numerals), s, h);
  }

  lemma MidChildFirst(u: Unmarshaler, s: Scope, h: Store)
    requires !u.fromString && u.lib.parseInt("80", 0) == Some(80)
    requires ValuerOf(s) == MID && ValuerOf(Below(s, 4)) == CHILD && h == SIBLINGS
    ensures ProcessFields(u, [ChildField(u.lib.numerals), PLAIN_FIELD], s, h).result ==
            Ok([Some(Record([Some(FILLED_SERVER)])), Some(FILLED_SERVER)])
  {
    var merged := Find(h, CreateValuer(CHILD, true), "Server").store;
    SiblingSeesMerge();
    ScopeOfMid(s);
    FindPlain(merged, MID, "Server");
    ChildFilled(u, s, h, 4, 5);
    ChildFirst(u, s, h, merged, 3, Some(Record([Some(FILLED_SERVER)])));
  }

  lemma ScopeOfMid(s: Scope)
    requires ValuerOf(s) == MID
    ensures s.level == 2 && !Deep(MID) && Nearest(MID) == 2
  {
    SiblingChains();
    assert Nearest(ValuerOf(s)) == Nearest(MapValuer(s.level)) == s.level;
  }

  lemma MidFilled(u: Unmarshaler, s: Scope)
    requires !u.fromString && u.lib.parseInt("80", 0) == Some(80)
    requires ValuerOf(s) == MID && ValuerOf(Below(s, 4)) == CHILD
    ensures ProcessFields(u, [ChildField(u.lib.numerals), PLAIN_FIELD], s, SIBLINGS).result ==
            Ok([Some(Record([Some(FILLED_SERVER)])), Some(FILLED_SERVER)])
    ensures ProcessFields(u, [PLAIN_FIELD, ChildField(u.lib.numerals)], s, SIBLINGS).result == Err(NotSet)
  {
    MidChildFirst(u, s, SIBLINGS);
    SiblingSeesMerge();
    ScopeOfMid(s);
    PlainFirst(u, s, SIBLINGS, 3);
  }

  lemma MidRun(u: Unmarshaler, childFirst: bool, inner: seq<Field>)
    requires Outer(u.lib.numerals, childFirst)[0].tp == Struct(inner)
    ensures var cells := ProcessFields(u, inner, Below(AT_ROOT, 2), SIBLINGS).result;
            UnmarshalStruct(u, Outer(u.lib.numerals, childFirst), 0, SIBLINGS).result ==
            if cells.Err? then Err(cells.error) else Ok(Some(Record([Some(Record(cells.value))])))
  {
    var f := Outer(u.lib.numerals, childFirst)[0];
    OneField(u, f, AT_ROOT, SIBLINGS);
    StructField(u, f, AT_ROOT, SIBLINGS, 2);
    var cells := ProcessFields(u, inner, Below(AT_ROOT, 2), SIBLINGS).result;
    if cells.Ok? { assert [] + [Some(Record(cells.value))] == [Some(Record(cells.value))]; }
  }

  /**
   The same input and the same fields: with `Child` listed first, the field `Server` next to it is filled with
   a port that its own map does not have; with `Server` listed first, its port is missing.
   */
  lemma FieldOrderDecides(u: Unmarshaler)
    requires !u.fromString && u.lib.parseInt("80", 0) == Some(80)
    ensures UnmarshalStruct(u, Outer(u.lib.numerals, true), 0, SIBLINGS).result ==
            Ok(Some(Record([Some(Record([Some(Record([Some(FILLED_SERVER)])), Some(FILLED_SERVER)]))])))
    ensures UnmarshalStruct(u, Outer(u.lib.numerals, false), 0, SIBLINGS).result == Err(NotSet)
  {
    var n := u.lib.numerals;
    ScopesOfRun();
    MidFilled(u, Below(AT_ROOT, 2));
    MidRun(u, true, [ChildField(n), PLAIN_FIELD]);
    MidRun(u, false, [PLAIN_FIELD, ChildField(n)]);
  }
}
