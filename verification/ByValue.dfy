/**
 Unmarshalling types that ask for no inheritance: the result depends on nothing but the configuration that the
 input's maps stand for, not on where they are in memory, and not on what else is there.
 */
module ByValue {
  import opened Wrappers
  import opened Types
  import opened Tags
  import opened Stores
  import opened Valuers
  import opened SharedLookup
  import opened SharedMeaning
  import opened Unmarshal
  import opened InputEffects

  /** The values that the texts of lists stand for. */
  type Decoder = string -> Option<seq<Value>>

  // ---------- Lists and levels ----------

  ghost predicate ListStands(h: Store, items: seq<Ref>, values: seq<Value>)
  {
    |items| == |values| && forall i :: 0 <= i < |items| ==> Stands(h, items[i], values[i])
  }

  ghost predicate LevelStands(h: Store, loc: Loc, level: Level)
  {
    loc < |h| && EntriesStand(h, Get(h, loc), level)
  }

  /** What the library decodes from a text is a list of values, put into memory in addition to what is there. */
  ghost predicate Decodes(lib: Library, decoded: Decoder)
  {
    forall h: Store, d: string ::
      match lib.decodeList(h, d)
      case None => decoded(d).None?
      case Some(list) => decoded(d).Some? && h <= list.1 && ListStands(list.1, list.0, decoded(d).value)
  }

  lemma {:induction false} StillStands(h: Store, h': Store, r: Ref, v: Value)
    requires h <= h' && Stands(h, r, v)
    ensures Stands(h', r, v)
    decreases v
  {
    match v
    case List(items) =>
      forall i | 0 <= i < |items| ensures Stands(h', r.items[i], items[i]) {
        StillStands(h, h', r.items[i], items[i]);
      }
    case Object(entries) =>
      assert Get(h', r.loc) == Get(h, r.loc);
      forall k | k in entries ensures Stands(h', Get(h', r.loc)[k], entries[k]) {
        StillStands(h, h', Get(h, r.loc)[k], entries[k]);
      }
    case _ =>
  }

  lemma LevelStillStands(h: Store, h': Store, loc: Loc, level: Level)
    requires h <= h' && LevelStands(h, loc, level)
    ensures LevelStands(h', loc, level)
  {
    assert Get(h', loc) == Get(h, loc);
    forall k | k in level ensures Stands(h', Get(h', loc)[k], level[k]) {
      StillStands(h, h', Get(h, loc)[k], level[k]);
    }
  }

  lemma DecodesAllocates(lib: Library, decoded: Decoder)
    requires Decodes(lib, decoded)
    ensures Allocates(lib)
  {
    forall h: Store, d: string | lib.decodeList(h, d).Some? ensures h <= lib.decodeList(h, d).value.1 {
    }
  }

  // ---------- Lookups that do not inherit ----------

  function Own(entries: Entries, keys: seq<string>): Option<Ref>
  {
    if keys == [] then None else Bound(entries, keys[0])
  }

  lemma PlainSeek(h: Store, v: Valuer<Loc>, keys: seq<string>)
    requires !Deep(v) && |keys| <= 1
    ensures Seek(h, v, keys) == Sought(Own(Get(h, Nearest(v)), keys), h)
  {
    if keys != [] { FindPlain(h, v, keys[0]); }
  }

  /** A quiet field sees what its own level binds, and writes nothing. */
  lemma QuietFound(u: Unmarshaler, f: Field, s: Scope, h: Store)
    requires QuietField(u, f) && ParseOptionsWithContext(u, f, Get(h, s.level)).Ok?
    ensures var po := ParseOptionsWithContext(u, f, Get(h, s.level)).value;
            var own := Sought(Own(Get(h, s.level), ReadKeys(po.key)), h);
            Found(h, s, po) == own && Looked(h, s, po.key) == own
  {
    var po := ParseOptionsWithContext(u, f, Get(h, s.level)).value;
    assert !Inherits(po.options);
    assert Nearest(ValuerOf(s)) == Nearest(MapValuer(s.level)) == s.level && !Deep(ValuerOf(s));
    PlainSeek(h, CreateValuer(ValuerOf(s), false), ReadKeys(po.key));
    PlainSeek(h, ValuerOf(s), ReadKeys(po.key));
  }

  /** Options depend on which keys a level has, not on what they are bound to. */
  lemma SameContext(u: Unmarshaler, f: Field, a: Entries, b: Entries)
    requires a.Keys == b.Keys
    ensures ParseOptionsWithContext(u, f, a) == ParseOptionsWithContext(u, f, b)
  {
    var parsed := ParseKeyAndOptions(u, f);
    if parsed.Ok? && parsed.value.options.Some? { SameInContext(parsed.value.options.value, parsed.value.key, a, b); }
  }

  lemma SameInContext(fo: FieldOptions, key: string, a: Entries, b: Entries)
    requires a.Keys == b.Keys
    ensures InContext(fo, key, a) == InContext(fo, key, b)
  {
    assert forall k :: k in a <==> k in b;
  }

  /** What one turn of the loop over an optional embedded struct adds, given what processing the field yields. */
  function Joined(g: Gathered, has: bool, needed: bool, result: Cell): Result<Gathered, Failure>
  {
    var cell := if has then result else Ok(None);
    if cell.Err? then Err(cell.error)
    else Ok(Gathered(g.cells + [cell.value], g.filled || has, g.required + (if needed then 1 else 0),
                     g.requiredFilled + (if needed && has then 1 else 0)))
  }

  lemma QuietGather(u: Unmarshaler, g: Gathered, f: Field, s: Scope, h: Store)
    requires QuietField(u, f) && ParseOptionsWithContext(u, f, Get(h, s.level)).Ok?
    ensures var po := ParseOptionsWithContext(u, f, Get(h, s.level)).value;
            GatherField(u, g, f, s, h).result ==
            Joined(g, Own(Get(h, s.level), ReadKeys(po.key)).Some?, !IsOptional(po.options),
                   ProcessField(u, f, s, h).result)
  {
    QuietFound(u, f, s, h);
  }

  /** A value wherever it is in memory. */
  ghost predicate Both(h: Store, r: Ref, h': Store, r': Ref, v: Value)
  {
    Stands(h, r, v) && Stands(h', r', v)
  }

  /** Values of a kind that has no maps in it are the same references. */
  lemma SameRef(h: Store, r: Ref, h': Store, r': Ref, v: Value)
    requires Both(h, r, h', r', v)
    ensures v.Object? || v.List? || r == r'
    ensures r.Null? <==> r'.Null?
    ensures r.MapAt? <==> v.Object?
    ensures r.List? <==> v.List?
    ensures r'.MapAt? <==> v.Object?
    ensures r'.List? <==> v.List?
  {
  }

  lemma SameScalar(u: Unmarshaler, tp: Type, r: Ref, r': Ref, o: Option<ContextOptions>)
    requires r == r' || (r.MapAt? && r'.MapAt?) || (r.List? && r'.List?)
    ensures ScalarWithValue(u, tp, r, o) == ScalarWithValue(u, tp, r', o)
    ensures ScalarNotFromString(u, tp, r, o) == ScalarNotFromString(u, tp, r', o)
    ensures ScalarItem(u, Deref(tp), r) == ScalarItem(u, Deref(tp), r')
    ensures ScalarEntry(u, Deref(tp), r) == ScalarEntry(u, Deref(tp), r')
  {
  }

  // ---------- The same result ----------

  lemma {:induction false} SameFields(u: Unmarshaler, decoded: Decoder, fields: seq<Field>, s: Scope, h: Store,
                                      s': Scope, h': Store, level: Level)
    requires Decodes(u.lib, decoded) && Quiet(u, fields)
    requires LevelStands(h, s.level, level) && LevelStands(h', s'.level, level)
    ensures ProcessFields(u, fields, s, h).result == ProcessFields(u, fields, s', h').result
    decreases fields, 0
  {
    if fields != [] {
      var n := |fields| - 1;
      SameFields(u, decoded, fields[..n], s, h, s', h', level);
      DecodesAllocates(u.lib, decoded);
      FieldsGrow(u, fields[..n], s, h);
      FieldsGrow(u, fields[..n], s', h');
      var h1, h1' := ProcessFields(u, fields[..n], s, h).store, ProcessFields(u, fields[..n], s', h').store;
      LevelStillStands(h, h1, s.level, level);
      LevelStillStands(h', h1', s'.level, level);
      SameField(u, decoded, fields[n], s, h1, s', h1', level);
    }
  }

  lemma {:induction false} SameField(u: Unmarshaler, decoded: Decoder, f: Field, s: Scope, h: Store, s': Scope,
                                     h': Store, level: Level)
    requires Decodes(u.lib, decoded) && QuietField(u, f)
    requires LevelStands(h, s.level, level) && LevelStands(h', s'.level, level)
    ensures ProcessField(u, f, s, h).result == ProcessField(u, f, s', h').result
    decreases f, 4
  {
    QuietDeref(u, f.tp);
    SameContext(u, f, Get(h, s.level), Get(h', s'.level));
    if f.embedded && Deref(f.tp).Struct? {
      SameFields(u, decoded, Deref(f.tp).fields, s, h, s', h', level);
      SameGathered(u, decoded, Deref(f.tp).fields, s, h, s', h', level);
    } else {
      SameNamed(u, decoded, f, s, h, s', h', level);
    }
  }

  lemma {:induction false} SameGathered(u: Unmarshaler, decoded: Decoder, fields: seq<Field>, s: Scope, h: Store,
                                        s': Scope, h': Store, level: Level)
    requires Decodes(u.lib, decoded) && Quiet(u, fields)
    requires LevelStands(h, s.level, level) && LevelStands(h', s'.level, level)
    ensures GatherEmbedded(u, fields, s, h).result == GatherEmbedded(u, fields, s', h').result
    decreases fields, 0
  {
    if fields != [] {
      var n := |fields| - 1;
      SameGathered(u, decoded, fields[..n], s, h, s', h', level);
      DecodesAllocates(u.lib, decoded);
      GatherGrows(u, fields[..n], s, h);
      GatherGrows(u, fields[..n], s', h');
      var g, g' := GatherEmbedded(u, fields[..n], s, h), GatherEmbedded(u, fields[..n], s', h');
      LevelStillStands(h, g.store, s.level, level);
      LevelStillStands(h', g'.store, s'.level, level);
      if g.result.Ok? {
        SameGatheredField(u, decoded, g.result.value, fields[n], s, g.store, s', g'.store, level);
      }
    }
  }

  lemma {:induction false} SameGatheredField(u: Unmarshaler, decoded: Decoder, g: Gathered, f: Field, s: Scope,
                                             h: Store, s': Scope, h': Store, level: Level)
    requires Decodes(u.lib, decoded) && QuietField(u, f)
    requires LevelStands(h, s.level, level) && LevelStands(h', s'.level, level)
    ensures GatherField(u, g, f, s, h).result == GatherField(u, g, f, s', h').result
    decreases f, 5
  {
    SameContext(u, f, Get(h, s.level), Get(h', s'.level));
    if ParseOptionsWithContext(u, f, Get(h, s.level)).Ok? {
      QuietGather(u, g, f, s, h);
      QuietGather(u, g, f, s', h');
      SameField(u, decoded, f, s, h, s', h', level);
    }
  }

  lemma {:induction false} SameNamed(u: Unmarshaler, decoded: Decoder, f: Field, s: Scope, h: Store, s': Scope,
                                     h': Store, level: Level)
    requires Decodes(u.lib, decoded) && QuietField(u, f)
    requires LevelStands(h, s.level, level) && LevelStands(h', s'.level, level)
    ensures ProcessNamed(u, f, s, h).result == ProcessNamed(u, f, s', h').result
    decreases f, 3
  {
    SameContext(u, f, Get(h, s.level), Get(h', s'.level));
    var po := ParseOptionsWithContext(u, f, Get(h, s.level));
    if po.Ok? {
      QuietFound(u, f, s, h);
      QuietFound(u, f, s', h');
      var keys, o := ReadKeys(po.value.key), po.value.options;
      SameWithout(u, decoded, f.tp, o, h, h');
      if keys != [] && keys[0] in level {
        SameValue(u, decoded, f.tp, Get(h, s.level)[keys[0]], Get(h', s'.level)[keys[0]], level[keys[0]],
                  CreateValuer(ValuerOf(s), Inherits(o)), CreateValuer(ValuerOf(s'), Inherits(o)), o, h, h');
      }
    }
  }

  lemma {:induction false} SameValue(u: Unmarshaler, decoded: Decoder, tp: Type, r: Ref, r': Ref, v: Value,
                                     around: Valuer<Loc>, around': Valuer<Loc>, o: Option<ContextOptions>, h: Store,
                                     h': Store)
    requires Decodes(u.lib, decoded) && QuietType(u, tp) && Both(h, r, h', r', v)
    ensures WithValue(u, tp, r, around, o, h).result == WithValue(u, tp, r', around', o, h').result
    decreases tp, 4
  {
    SameRef(h, r, h', r', v);
    SameScalar(u, tp, r, r', o);
    SameNotFromString(u, decoded, tp, r, r', v, Some(around), Some(around'), o, h, h');
  }

  lemma {:induction false} SameNotFromString(u: Unmarshaler, decoded: Decoder, tp: Type, r: Ref, r': Ref, v: Value,
                                             around: Option<Valuer<Loc>>, around': Option<Valuer<Loc>>,
                                             o: Option<ContextOptions>, h: Store, h': Store)
    requires Decodes(u.lib, decoded) && QuietType(u, tp) && Both(h, r, h', r', v)
    ensures NotFromString(u, tp, r, around, o, h).result == NotFromString(u, tp, r', around', o, h').result
    decreases tp, 2
  {
    var base := Deref(tp);
    QuietDeref(u, tp);
    SameRef(h, r, h', r', v);
    if v.Object? && base.Struct? {
      SameFields(u, decoded, base.fields, Scope(r.loc, around), h, Scope(r'.loc, around'), h', v.entries);
    } else if v.Object? && base.MapOf? {
      SameMap(u, decoded, base.elem, r.loc, r'.loc, v.entries, h, h');
    } else if v.List? && base.SliceOf? {
      SameSlice(u, decoded, if tp.PtrTo? then tp.elem else base.elem, r.items, r'.items, v.items, h, h');
    } else {
      SameOtherwise(u, decoded, tp, r, r', around, around', o, h, h');
    }
  }

  /** Where neither a map nor a list is gone into. */
  lemma SameOtherwise(u: Unmarshaler, decoded: Decoder, tp: Type, r: Ref, r': Ref, around: Option<Valuer<Loc>>,
                      around': Option<Valuer<Loc>>, o: Option<ContextOptions>, h: Store, h': Store)
    requires Decodes(u.lib, decoded)
    requires r == r' || (r.MapAt? && r'.MapAt?) || (r.List? && r'.List?)
    requires !(r.MapAt? && (Deref(tp).Struct? || Deref(tp).MapOf?)) && !(r.List? && Deref(tp).SliceOf?)
    ensures NotFromString(u, tp, r, around, o, h).result == NotFromString(u, tp, r', around', o, h').result
  {
    SameScalar(u, tp, r, r', o);
    if r.Text? || r.Number? { SameDecoded(u, decoded, if r.Text? then r.s else r.text, h, h'); }
  }

  lemma SameDecoded(u: Unmarshaler, decoded: Decoder, d: string, h: Store, h': Store)
    requires Decodes(u.lib, decoded)
    ensures var list, list' := u.lib.decodeList(h, d), u.lib.decodeList(h', d);
            (list.Some? <==> list'.Some?) &&
            (list.Some? ==>
               |list.value.0| == |list'.value.0| && decoded(d).Some? &&
               ListStands(list.value.1, list.value.0, decoded(d).value) &&
               ListStands(list'.value.1, list'.value.0, decoded(d).value))
  {
    assert u.lib.decodeList(h, d).Some? <==> decoded(d).Some?;
    assert u.lib.decodeList(h', d).Some? <==> decoded(d).Some?;
  }

  lemma {:induction false} SameWithout(u: Unmarshaler, decoded: Decoder, tp: Type, o: Option<ContextOptions>,
                                       h: Store, h': Store)
    requires Decodes(u.lib, decoded) && QuietType(u, tp)
    ensures WithoutValue(u, tp, o, h).result == WithoutValue(u, tp, o, h').result
    decreases tp, 3
  {
    var base := Deref(tp);
    QuietDeref(u, tp);
    assert Both(h, MapAt(EMPTY), h', MapAt(EMPTY), Values.Object(map[]));
    SameNotFromString(u, decoded, tp, MapAt(EMPTY), MapAt(EMPTY), Values.Object(map[]), None, None, o, h, h');
    if base.ArrayOf? || base.SliceOf? { SameList(u, decoded, base.elem, DefaultOf(o), h, h'); }
  }

  lemma {:induction false} SameList(u: Unmarshaler, decoded: Decoder, elem: Type, d: string, h: Store, h': Store)
    requires Decodes(u.lib, decoded) && QuietType(u, elem)
    ensures DefaultList(u, elem, d, h).result == DefaultList(u, elem, d, h').result
    decreases elem, 4
  {
    if Deref(elem) == Scalar(KString) {
      var texts := Texts(ParseGroupedSegments(d));
      var values := seq(|texts|, i requires 0 <= i < |texts| => Values.Text(texts[i].s));
      SameSlice(u, decoded, elem, texts, texts, values, h, h');
    } else {
      SameDecoded(u, decoded, d, h, h');
      var list, list' := u.lib.decodeList(h, d), u.lib.decodeList(h', d);
      if list.Some? {
        SameSlice(u, decoded, elem, list.value.0, list'.value.0, decoded(d).value, list.value.1, list'.value.1);
      }
    }
  }

  lemma {:induction false} SameSlice(u: Unmarshaler, decoded: Decoder, elem: Type, items: seq<Ref>, items': seq<Ref>,
                                     values: seq<Value>, h: Store, h': Store)
    requires Decodes(u.lib, decoded) && QuietType(u, elem)
    requires ListStands(h, items, values) && ListStands(h', items', values)
    ensures FillSlice(u, elem, items, h).result == FillSlice(u, elem, items', h').result
    decreases elem, 3
  {
    SameItems(u, decoded, elem, items, items', values, h, h');
    forall i | 0 <= i < |items| ensures items[i].Null? <==> items'[i].Null? {
      SameRef(h, items[i], h', items'[i], values[i]);
    }
  }

  lemma {:induction false} SameItems(u: Unmarshaler, decoded: Decoder, elem: Type, items: seq<Ref>, items': seq<Ref>,
                                     values: seq<Value>, h: Store, h': Store)
    requires Decodes(u.lib, decoded) && QuietType(u, elem)
    requires ListStands(h, items, values) && ListStands(h', items', values)
    ensures FillItems(u, elem, items, h).result == FillItems(u, elem, items', h').result
    decreases elem, 2, |items|
  {
    if items != [] {
      var n := |items| - 1;
      SameItems(u, decoded, elem, items[..n], items'[..n], values[..n], h, h');
      DecodesAllocates(u.lib, decoded);
      ItemsGrow(u, elem, items[..n], h);
      ItemsGrow(u, elem, items'[..n], h');
      var h1, h1' := FillItems(u, elem, items[..n], h).store, FillItems(u, elem, items'[..n], h').store;
      SameLater(u, decoded, elem, items[n], items'[n], values[n], h, h1, h', h1');
    }
  }

  lemma {:induction false} SameItem(u: Unmarshaler, decoded: Decoder, elem: Type, r: Ref, r': Ref, v: Value, h: Store,
                                    h': Store)
    requires Decodes(u.lib, decoded) && QuietType(u, elem) && Both(h, r, h', r', v)
    ensures FillItem(u, elem, r, h).result == FillItem(u, elem, r', h').result
    ensures FillEntry(u, elem, r, h).result == FillEntry(u, elem, r', h').result
    decreases elem, 1, 0
  {
    var base := Deref(elem);
    QuietDeref(u, elem);
    SameRef(h, r, h', r', v);
    SameScalar(u, elem, r, r', None);
    if v.Object? && base.Struct? {
      SameFields(u, decoded, base.fields, Scope(r.loc, None), h, Scope(r'.loc, None), h', v.entries);
    } else if v.Object? && base.MapOf? {
      SameMap(u, decoded, base.elem, r.loc, r'.loc, v.entries, h, h');
    } else if v.List? && base.SliceOf? {
      SameSlice(u, decoded, base.elem, r.items, r'.items, v.items, h, h');
    }
  }

  lemma {:induction false} SameMap(u: Unmarshaler, decoded: Decoder, elem: Type, loc: Loc, loc': Loc, level: Level,
                                   h: Store, h': Store)
    requires Decodes(u.lib, decoded) && QuietType(u, elem)
    requires LevelStands(h, loc, level) && LevelStands(h', loc', level)
    ensures FillMap(u, elem, loc, h).result == FillMap(u, elem, loc', h').result
    decreases elem, 3
  {
    assert Get(h, loc).Keys == level.Keys == Get(h', loc').Keys;
    SameEntries(u, decoded, elem, Get(h, loc), Get(h', loc'), level, u.lib.order(level.Keys), h, h');
  }

  lemma EntriesTurn(u: Unmarshaler, elem: Type, entries: Entries, keys: seq<string>, h: Store)
    requires keys != []
    ensures var n := |keys| - 1; var filled := FillEntries(u, elem, entries, keys[..n], h);
            FillEntries(u, elem, entries, keys, h) ==
            if filled.result.Err? || keys[n] !in entries then filled
            else Added(filled.result.value, keys[n], FillEntry(u, elem, entries[keys[n]], filled.store))
  {
  }

  lemma {:induction false} SameEntries(u: Unmarshaler, decoded: Decoder, elem: Type, entries: Entries,
                                       entries': Entries, level: Level, keys: seq<string>, h: Store, h': Store)
    requires Decodes(u.lib, decoded) && QuietType(u, elem)
    requires EntriesStand(h, entries, level) && EntriesStand(h', entries', level)
    ensures FillEntries(u, elem, entries, keys, h).result == FillEntries(u, elem, entries', keys, h').result
    decreases elem, 2, |keys|
  {
    if keys != [] {
      var n := |keys| - 1;
      var k := keys[n];
      SameEntries(u, decoded, elem, entries, entries', level, keys[..n], h, h');
      EntriesTurn(u, elem, entries, keys, h);
      EntriesTurn(u, elem, entries', keys, h');
      assert (k in entries <==> k in level) && (k in entries' <==> k in level);
      if k in level { SameEntry(u, decoded, elem, entries, entries', level, keys[..n], k, h, h'); }
    }
  }

  /** The value of one more key. */
  lemma {:induction false} SameEntry(u: Unmarshaler, decoded: Decoder, elem: Type, entries: Entries,
                                     entries': Entries, level: Level, keys: seq<string>, k: string, h: Store,
                                     h': Store)
    requires Decodes(u.lib, decoded) && QuietType(u, elem)
    requires EntriesStand(h, entries, level) && EntriesStand(h', entries', level) && k in level
    ensures FillEntry(u, elem, entries[k], FillEntries(u, elem, entries, keys, h).store).result ==
            FillEntry(u, elem, entries'[k], FillEntries(u, elem, entries', keys, h').store).result
    decreases elem, 2, |keys|
  {
    DecodesAllocates(u.lib, decoded);
    EntriesGrow(u, elem, entries, keys, h);
    EntriesGrow(u, elem, entries', keys, h');
    SameLater(u, decoded, elem, entries[k], entries'[k], level[k], h, FillEntries(u, elem, entries, keys, h).store,
              h', FillEntries(u, elem, entries', keys, h').store);
  }

  /** Elements, once others have been filled. */
  lemma {:induction false} SameLater(u: Unmarshaler, decoded: Decoder, elem: Type, r: Ref, r': Ref, v: Value,
                                     h: Store, h1: Store, h': Store, h1': Store)
    requires Decodes(u.lib, decoded) && QuietType(u, elem) && Both(h, r, h', r', v) && h <= h1 && h' <= h1'
    ensures r.Null? <==> r'.Null?
    ensures FillItem(u, elem, r, h1).result == FillItem(u, elem, r', h1').result
    ensures FillEntry(u, elem, r, h1).result == FillEntry(u, elem, r', h1').result
    decreases elem, 1, 1
  {
    SameRef(h, r, h', r', v);
    StillStands(h, h1, r, v);
    StillStands(h', h1', r', v);
    SameItem(u, decoded, elem, r, r', v, h1, h1');
  }

  /**
   For every type that asks for no inheritance: two inputs that stand for the same configuration, wherever
   their maps are, are unmarshalled to the same result.
   */
  lemma ResultByValue(u: Unmarshaler, decoded: Decoder, fields: seq<Field>, loc: Loc, h: Store, loc': Loc, h': Store,
                      level: Level)
    requires Decodes(u.lib, decoded) && Quiet(u, fields)
    requires LevelStands(h, loc, level) && LevelStands(h', loc', level)
    ensures UnmarshalStruct(u, fields, loc, h).result == UnmarshalStruct(u, fields, loc', h').result
  {
    SameFields(u, decoded, fields, Scope(loc, None), h, Scope(loc', None), h', level);
  }
}
