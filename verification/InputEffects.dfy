/**
 What unmarshalling does to its input: maps gain bindings and never lose or change any, and without inherited
 fields and dotted keys they stay as they are.
 */
module InputEffects {
  import opened Wrappers
  import opened Types
  import opened Tags
  import opened Stores
  import opened Valuers
  import opened SharedLookup
  import opened Unmarshal

  /** Decoding a list adds maps to memory and leaves the others alone. */
  ghost predicate Allocates(lib: Library)
  {
    forall h: Store, d: string :: lib.decodeList(h, d).Some? ==> h <= lib.decodeList(h, d).value.1
  }

  lemma PrefixExtends(h: Store, h': Store)
    requires h <= h'
    ensures Extends(h, h')
  {
    forall l: Loc | 0 <= l < |h| ensures Get(h, l) == Get(h', l) {
    }
  }

  // ---------- Types that ask for no inheritance ----------

  /** No field, at any depth, inherits or has a dotted key. */
  predicate Quiet(u: Unmarshaler, fields: seq<Field>)
  {
    forall i :: 0 <= i < |fields| ==> QuietField(u, fields[i])
  }

  predicate QuietField(u: Unmarshaler, f: Field)
  {
    var parsed := ParseKeyAndOptions(u, f);
    (parsed.Ok? ==>
       |ReadKeys(parsed.value.key)| <= 1 &&
       (parsed.value.options.Some? ==> !parsed.value.options.value.context.inherit)) &&
    QuietType(u, f.tp)
  }

  predicate QuietType(u: Unmarshaler, tp: Type)
  {
    match tp
    case Struct(fields) => Quiet(u, fields)
    case SliceOf(elem) => QuietType(u, elem)
    case ArrayOf(elem) => QuietType(u, elem)
    case MapOf(elem) => QuietType(u, elem)
    case PtrTo(elem) => QuietType(u, elem)
    case _ => true
  }

  lemma {:induction false} QuietDeref(u: Unmarshaler, tp: Type)
    requires QuietType(u, tp)
    ensures QuietType(u, Deref(tp))
  {
    if tp.PtrTo? { QuietDeref(u, tp.elem); }
  }

  /** Maps gain bindings, and where nothing is inherited they stay as they are. */
  ghost predicate Grows(quiet: bool, h: Store, h': Store)
  {
    Extends(h, h') && (quiet ==> h <= h')
  }

  lemma GrowsOn(quiet: bool, a: Store, b: Store, c: Store)
    requires Grows(quiet, a, b) && Grows(quiet, b, c)
    ensures Grows(quiet, a, c)
  {
    ExtendsTransitive(a, b, c);
    if quiet { assert a == c[..|a|]; }
  }

  lemma QuietSeek(h: Store, s: Scope, inherit: bool, keys: seq<string>)
    ensures Grows(|keys| <= 1 && !inherit, h, Seek(h, CreateValuer(ValuerOf(s), inherit), keys).store)
    ensures Grows(|keys| <= 1, h, Seek(h, ValuerOf(s), keys).store)
  {
    SeekExtends(h, CreateValuer(ValuerOf(s), inherit), keys);
    SeekExtends(h, ValuerOf(s), keys);
    if |keys| == 1 {
      FindPlain(h, ValuerOf(s), keys[0]);
      if !inherit { FindPlain(h, CreateValuer(ValuerOf(s), inherit), keys[0]); }
    }
  }

  // ---------- The input only gains bindings ----------

  lemma {:induction false} FieldsGrow(u: Unmarshaler, fields: seq<Field>, s: Scope, h: Store)
    requires Allocates(u.lib)
    ensures Grows(Quiet(u, fields), h, ProcessFields(u, fields, s, h).store)
    decreases fields, 0
  {
    if fields != [] {
      var n := |fields| - 1;
      FieldsGrow(u, fields[..n], s, h);
      var h1 := ProcessFields(u, fields[..n], s, h).store;
      FieldGrows(u, fields[n], s, h1);
      GrowsOn(Quiet(u, fields), h, h1, ProcessField(u, fields[n], s, h1).store);
    }
  }

  lemma {:induction false} FieldGrows(u: Unmarshaler, f: Field, s: Scope, h: Store)
    requires Allocates(u.lib)
    ensures Grows(QuietField(u, f), h, ProcessField(u, f, s, h).store)
    decreases f, 4
  {
    if QuietField(u, f) { QuietDeref(u, f.tp); }
    if f.embedded && Deref(f.tp).Struct? {
      FieldsGrow(u, Deref(f.tp).fields, s, h);
      GatherGrows(u, Deref(f.tp).fields, s, h);
    } else {
      NamedGrows(u, f, s, h);
    }
  }

  lemma {:induction false} GatherGrows(u: Unmarshaler, fields: seq<Field>, s: Scope, h: Store)
    requires Allocates(u.lib)
    ensures Grows(Quiet(u, fields), h, GatherEmbedded(u, fields, s, h).store)
    decreases fields, 0
  {
    if fields != [] {
      var n := |fields| - 1;
      GatherGrows(u, fields[..n], s, h);
      var g := GatherEmbedded(u, fields[..n], s, h);
      if g.result.Ok? {
        GatherFieldGrows(u, g.result.value, fields[n], s, g.store);
        GrowsOn(Quiet(u, fields), h, g.store, GatherField(u, g.result.value, fields[n], s, g.store).store);
      }
    }
  }

  lemma {:induction false} GatherFieldGrows(u: Unmarshaler, g: Gathered, f: Field, s: Scope, h: Store)
    requires Allocates(u.lib)
    ensures Grows(QuietField(u, f), h, GatherField(u, g, f, s, h).store)
    decreases f, 5
  {
    var po := ParseOptionsWithContext(u, f, Get(h, s.level));
    if po.Ok? {
      var looked := Looked(h, s, po.value.key);
      QuietSeek(h, s, false, ReadKeys(po.value.key));
      FieldGrows(u, f, s, looked.store);
      GrowsOn(QuietField(u, f), h, looked.store, ProcessField(u, f, s, looked.store).store);
    }
  }

  lemma {:induction false} NamedGrows(u: Unmarshaler, f: Field, s: Scope, h: Store)
    requires Allocates(u.lib)
    ensures Grows(QuietField(u, f), h, ProcessNamed(u, f, s, h).store)
    decreases f, 3
  {
    var po := ParseOptionsWithContext(u, f, Get(h, s.level));
    if po.Ok? {
      var o, found := po.value.options, Found(h, s, po.value);
      var around := CreateValuer(ValuerOf(s), Inherits(o));
      FoundGrows(u, f, s, h);
      GivenOrNot(u, f.tp, found, around, o);
      GrowsOn(QuietField(u, f), h, found.store, AsFound(u, f.tp, found, around, o).store);
    }
  }

  lemma FoundGrows(u: Unmarshaler, f: Field, s: Scope, h: Store)
    requires ParseOptionsWithContext(u, f, Get(h, s.level)).Ok?
    ensures Grows(QuietField(u, f), h, Found(h, s, ParseOptionsWithContext(u, f, Get(h, s.level)).value).store)
  {
    var po := ParseOptionsWithContext(u, f, Get(h, s.level)).value;
    QuietSeek(h, s, Inherits(po.options), ReadKeys(po.key));
  }

  /** How a field goes on once its value has been looked for. */
  function AsFound(u: Unmarshaler, tp: Type, found: Sought, around: Valuer<Loc>,
                   o: Option<ContextOptions>): Done<Option<Target>>
  {
    if found.value.None? then WithoutValue(u, tp, o, found.store)
    else WithValue(u, tp, found.value.value, around, o, found.store)
  }

  lemma {:induction false} GivenOrNot(u: Unmarshaler, tp: Type, found: Sought, around: Valuer<Loc>,
                                      o: Option<ContextOptions>)
    requires Allocates(u.lib)
    ensures Grows(QuietType(u, tp), found.store, AsFound(u, tp, found, around, o).store)
    decreases tp, 4
  {
    WithoutValueGrows(u, tp, o, found.store);
    if found.value.Some? { NotFromStringGrows(u, tp, found.value.value, Some(around), o, found.store); }
  }

  lemma {:induction false} NotFromStringGrows(u: Unmarshaler, tp: Type, val: Ref, around: Option<Valuer<Loc>>,
                                                o: Option<ContextOptions>, h: Store)
    requires Allocates(u.lib)
    ensures Grows(QuietType(u, tp), h, NotFromString(u, tp, val, around, o, h).store)
    decreases tp, 2
  {
    var base := Deref(tp);
    if QuietType(u, tp) { QuietDeref(u, tp); }
    if base.Struct? && val.MapAt? {
      FieldsGrow(u, base.fields, Scope(val.loc, around), h);
    } else if base.SliceOf? && val.List? {
      SliceGrows(u, if tp.PtrTo? then tp.elem else base.elem, val.items, h);
    } else if base.MapOf? && val.MapAt? {
      MapGrows(u, base.elem, val.loc, h);
    }
  }

  lemma {:induction false} WithoutValueGrows(u: Unmarshaler, tp: Type, o: Option<ContextOptions>, h: Store)
    requires Allocates(u.lib)
    ensures Grows(QuietType(u, tp), h, WithoutValue(u, tp, o, h).store)
    decreases tp, 3
  {
    var base := Deref(tp);
    if QuietType(u, tp) { QuietDeref(u, tp); }
    NotFromStringGrows(u, tp, MapAt(EMPTY), None, o, h);
    if base.ArrayOf? || base.SliceOf? { ListGrows(u, base.elem, DefaultOf(o), h); }
  }

  lemma {:induction false} ListGrows(u: Unmarshaler, elem: Type, d: string, h: Store)
    requires Allocates(u.lib)
    ensures Grows(QuietType(u, elem), h, DefaultList(u, elem, d, h).store)
    decreases elem, 4
  {
    var list := u.lib.decodeList(h, d);
    if Deref(elem) == Scalar(KString) {
      SliceGrows(u, elem, Texts(ParseGroupedSegments(d)), h);
    } else if list.Some? {
      PrefixExtends(h, list.value.1);
      SliceGrows(u, elem, list.value.0, list.value.1);
      GrowsOn(QuietType(u, elem), h, list.value.1, FillSlice(u, elem, list.value.0, list.value.1).store);
    }
  }

  lemma {:induction false} SliceGrows(u: Unmarshaler, elem: Type, items: seq<Ref>, h: Store)
    requires Allocates(u.lib)
    ensures Grows(QuietType(u, elem), h, FillSlice(u, elem, items, h).store)
    decreases elem, 3
  {
    ItemsGrow(u, elem, items, h);
  }

  lemma {:induction false} ItemsGrow(u: Unmarshaler, elem: Type, items: seq<Ref>, h: Store)
    requires Allocates(u.lib)
    ensures Grows(QuietType(u, elem), h, FillItems(u, elem, items, h).store)
    decreases elem, 2, |items|
  {
    if items != [] {
      var n := |items| - 1;
      ItemsGrow(u, elem, items[..n], h);
      var h1 := FillItems(u, elem, items[..n], h).store;
      ItemGrows(u, elem, items[n], h1);
      GrowsOn(QuietType(u, elem), h, h1, FillItem(u, elem, items[n], h1).store);
    }
  }

  lemma {:induction false} ItemGrows(u: Unmarshaler, elem: Type, val: Ref, h: Store)
    requires Allocates(u.lib)
    ensures Grows(QuietType(u, elem), h, FillItem(u, elem, val, h).store)
    decreases elem, 1
  {
    var base := Deref(elem);
    if QuietType(u, elem) { QuietDeref(u, elem); }
    if base.Struct? && val.MapAt? {
      FieldsGrow(u, base.fields, Scope(val.loc, None), h);
    } else if base.SliceOf? && val.List? {
      SliceGrows(u, base.elem, val.items, h);
    } else if base.MapOf? && val.MapAt? {
      MapGrows(u, base.elem, val.loc, h);
    }
  }

  lemma {:induction false} MapGrows(u: Unmarshaler, elem: Type, loc: Loc, h: Store)
    requires Allocates(u.lib)
    ensures Grows(QuietType(u, elem), h, FillMap(u, elem, loc, h).store)
    decreases elem, 3
  {
    var entries := Get(h, loc);
    EntriesGrow(u, elem, entries, u.lib.order(entries.Keys), h);
  }

  lemma {:induction false} EntriesGrow(u: Unmarshaler, elem: Type, entries: Entries, keys: seq<string>, h: Store)
    requires Allocates(u.lib)
    ensures Grows(QuietType(u, elem), h, FillEntries(u, elem, entries, keys, h).store)
    decreases elem, 2, |keys|
  {
    if keys != [] {
      var n := |keys| - 1;
      EntriesGrow(u, elem, entries, keys[..n], h);
      var h1 := FillEntries(u, elem, entries, keys[..n], h).store;
      if keys[n] in entries {
        EntryGrows(u, elem, entries[keys[n]], h1);
        GrowsOn(QuietType(u, elem), h, h1, FillEntry(u, elem, entries[keys[n]], h1).store);
      }
    }
  }

  lemma {:induction false} EntryGrows(u: Unmarshaler, elem: Type, val: Ref, h: Store)
    requires Allocates(u.lib)
    ensures Grows(QuietType(u, elem), h, FillEntry(u, elem, val, h).store)
    decreases elem, 1
  {
    var base := Deref(elem);
    if QuietType(u, elem) { QuietDeref(u, elem); }
    if base.Struct? && val.MapAt? {
      FieldsGrow(u, base.fields, Scope(val.loc, None), h);
    } else if base.SliceOf? && val.List? {
      SliceGrows(u, base.elem, val.items, h);
    } else if base.MapOf? && val.MapAt? {
      MapGrows(u, base.elem, val.loc, h);
    }
  }

  /** For every type and every input: no binding of the input is ever changed or lost. */
  lemma InputOnlyGains(u: Unmarshaler, fields: seq<Field>, loc: Loc, h: Store)
    requires Allocates(u.lib)
    ensures Extends(h, UnmarshalStruct(u, fields, loc, h).store)
  {
    FieldsGrow(u, fields, Scope(loc, None), h);
  }

  /** And where no field inherits or has a dotted key, the input is left as it is. */
  lemma InputUntouched(u: Unmarshaler, fields: seq<Field>, loc: Loc, h: Store)
    requires Allocates(u.lib) && Quiet(u, fields)
    ensures h <= UnmarshalStruct(u, fields, loc, h).store
  {
    FieldsGrow(u, fields, Scope(loc, None), h);
  }
}
