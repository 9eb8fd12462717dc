/**
 Unmarshalling into types that list the same fields in different orders, at any depth: for fields that ask for
 no inheritance the runs succeed together, and fill each field with the same.
 */
module Reordering {
  import opened Wrappers
  import opened Types
  import opened Tags
  import opened Stores
  import opened Valuers
  import opened SharedMeaning
  import opened Unmarshal
  import opened InputEffects
  import opened ByValue
  import opened FieldOrder

  // ---------- Structs ----------

  lemma {:induction false} FieldsAlike(u: Unmarshaler, decoded: Decoder, fs: seq<Field>, gs: seq<Field>, s: Scope,
                                       h: Store, level: Level)
    requires Laws(u, decoded) && Quiet(u, fs) && Quiet(u, gs) && FieldInfos.ReorderedFields(fs, gs)
    requires LevelStands(h, s.level, level)
    ensures StructsAlike(fs, gs, ProcessFields(u, fs, s, h).result, ProcessFields(u, gs, s, h).result)
    decreases fs, 1
  {
    if fs != [] {
      var n := |fs| - 1;
      var i :| 0 <= i < |gs| && FieldInfos.SameField(fs[n], gs[i]) &&
               FieldInfos.ReorderedFields(fs[..n], Without(gs, i));
      QuietWithout(u, gs, i);
      FieldsAlike(u, decoded, fs[..n], Without(gs, i), s, h, level);
      FieldAlike(u, decoded, fs[n], gs[i], s, h, level);
      ProcessLast(u, decoded, fs, s, h, level);
      ProcessAnyLast(u, decoded, gs, i, s, h, level);
      OneMoreAlike(fs, gs, i, ProcessFields(u, fs[..n], s, h).result, ProcessField(u, fs[n], s, h).result,
                   ProcessFields(u, fs, s, h).result, ProcessFields(u, Without(gs, i), s, h).result,
                   ProcessField(u, gs[i], s, h).result, ProcessFields(u, gs, s, h).result);
    }
  }

  lemma OneMoreAlike(fs: seq<Field>, gs: seq<Field>, i: nat, before: Cells, last: Cell, all: Cells, rest: Cells,
                     one: Cell, whole: Cells)
    requires fs != [] && |gs| == |fs| && i < |gs| && FieldInfos.SameField(fs[|fs| - 1], gs[i])
    requires Appends(before, last, all) && Splits(whole, i, rest, one)
    requires StructsAlike(fs[..|fs| - 1], Without(gs, i), before, rest)
    requires RunsAlike(fs[|fs| - 1].tp, gs[i].tp, last, one)
    ensures StructsAlike(fs, gs, all, whole)
  {
    if all.Ok? { CellsSnoc(fs, gs, i, before.value, whole.value, last.value, one.value); }
  }

  lemma {:induction false} FieldAlike(u: Unmarshaler, decoded: Decoder, f: Field, g: Field, s: Scope, h: Store,
                                      level: Level)
    requires Laws(u, decoded) && QuietField(u, f) && QuietField(u, g) && FieldInfos.SameField(f, g)
    requires LevelStands(h, s.level, level)
    ensures RunsAlike(f.tp, g.tp, ProcessField(u, f, s, h).result, ProcessField(u, g, s, h).result)
    decreases f, 4
  {
    SameOptions(u, f, g);
    FieldInfos.DerefReordered(f.tp, g.tp);
    if f.embedded && Deref(f.tp).Struct? {
      QuietDeref(u, f.tp);
      QuietDeref(u, g.tp);
      FieldsAlike(u, decoded, Deref(f.tp).fields, Deref(g.tp).fields, s, h, level);
      GatheredAlike(u, decoded, Deref(f.tp).fields, Deref(g.tp).fields, s, h, level);
      EmbeddedAlike(u, f, g, s, h);
    } else {
      NamedAlike(u, decoded, f, g, s, h, level);
      assert ProcessField(u, f, s, h).result == ProcessNamed(u, f, s, h).result ||
             ProcessField(u, f, s, h) == ProcessField(u, g, s, h);
    }
  }

  /** An embedded struct, given that its fields agree. */
  lemma EmbeddedAlike(u: Unmarshaler, f: Field, g: Field, s: Scope, h: Store)
    requires FieldInfos.SameField(f, g) && f.embedded && Deref(f.tp).Struct?
    requires Deref(g.tp).Struct?
    requires var fs, gs := Deref(f.tp).fields, Deref(g.tp).fields;
             StructsAlike(fs, gs, ProcessFields(u, fs, s, h).result, ProcessFields(u, gs, s, h).result) &&
             GathersAlike(fs, gs, GatherEmbedded(u, fs, s, h).result, GatherEmbedded(u, gs, s, h).result)
    ensures RunsAlike(f.tp, g.tp, ProcessField(u, f, s, h).result, ProcessField(u, g, s, h).result)
  {
    SameOptions(u, f, g);
    var fs, gs := Deref(f.tp).fields, Deref(g.tp).fields;
    EmbeddedCases(u, f, s, h);
    EmbeddedCases(u, g, s, h);
    var po := ParseOptionsWithContext(u, f, Get(h, s.level));
    if po.Ok? && IsOptional(po.value.options) {
      OptionalsAlike(u, fs, gs, s, h);
      DerefRuns(f.tp, g.tp, EmbeddedOptional(u, fs, s, h).result, EmbeddedOptional(u, gs, s, h).result);
    } else {
      RecordsAlike(fs, gs, ProcessFields(u, fs, s, h), ProcessFields(u, gs, s, h));
      DerefRuns(f.tp, g.tp, Recorded(ProcessFields(u, fs, s, h)).result, Recorded(ProcessFields(u, gs, s, h)).result);
    }
  }

  lemma OptionalsAlike(u: Unmarshaler, fs: seq<Field>, gs: seq<Field>, s: Scope, h: Store)
    requires GathersAlike(fs, gs, GatherEmbedded(u, fs, s, h).result, GatherEmbedded(u, gs, s, h).result)
    ensures RunsAlike(Struct(fs), Struct(gs), EmbeddedOptional(u, fs, s, h).result,
                      EmbeddedOptional(u, gs, s, h).result)
  {
  }

  /** What becomes of an embedded struct. */
  lemma EmbeddedCases(u: Unmarshaler, f: Field, s: Scope, h: Store)
    requires f.embedded && Deref(f.tp).Struct?
    ensures var po := ParseOptionsWithContext(u, f, Get(h, s.level));
            var cell := ProcessField(u, f, s, h).result;
            if f.tag.OtherKeys? then cell == Ok(None)
            else if po.Err? then cell == Err(po.error)
            else if po.value.key == "-" then cell == Ok(None)
            else if IsOptional(po.value.options) then cell == EmbeddedOptional(u, Deref(f.tp).fields, s, h).result
            else cell == Recorded(ProcessFields(u, Deref(f.tp).fields, s, h)).result
  {
  }

  lemma {:induction false} GatheredAlike(u: Unmarshaler, decoded: Decoder, fs: seq<Field>, gs: seq<Field>, s: Scope,
                                         h: Store, level: Level)
    requires Laws(u, decoded) && Quiet(u, fs) && Quiet(u, gs) && FieldInfos.ReorderedFields(fs, gs)
    requires LevelStands(h, s.level, level)
    ensures GathersAlike(fs, gs, GatherEmbedded(u, fs, s, h).result, GatherEmbedded(u, gs, s, h).result)
    decreases fs, 1
  {
    if fs != [] {
      var n := |fs| - 1;
      var i :| 0 <= i < |gs| && FieldInfos.SameField(fs[n], gs[i]) &&
               FieldInfos.ReorderedFields(fs[..n], Without(gs, i));
      QuietWithout(u, gs, i);
      GatheredAlike(u, decoded, fs[..n], Without(gs, i), s, h, level);
      TurnAlike(u, decoded, fs[n], gs[i], s, h, level);
      GatherLast(u, decoded, fs, s, h, level);
      GatherAnyLast(u, decoded, gs, i, s, h, level);
      OneMoreGathered(fs, gs, i, GatherEmbedded(u, fs[..n], s, h).result, TurnOf(u, fs[n], s, h),
                      GatherEmbedded(u, fs, s, h).result, GatherEmbedded(u, Without(gs, i), s, h).result,
                      TurnOf(u, gs[i], s, h), GatherEmbedded(u, gs, s, h).result);
    }
  }

  lemma OneMoreGathered(fs: seq<Field>, gs: seq<Field>, i: nat, before: Result<Gathered, Failure>,
                        last: Result<Turn, Failure>, all: Result<Gathered, Failure>, rest: Result<Gathered, Failure>,
                        turn: Result<Turn, Failure>, whole: Result<Gathered, Failure>)
    requires fs != [] && |gs| == |fs| && i < |gs| && FieldInfos.SameField(fs[|fs| - 1], gs[i])
    requires Adds(before, last, all) && GatherSplits(whole, i, rest, turn)
    requires GathersAlike(fs[..|fs| - 1], Without(gs, i), before, rest)
    requires TurnsAlike(fs[|fs| - 1].tp, gs[i].tp, last, turn)
    ensures GathersAlike(fs, gs, all, whole)
  {
    if all.Ok? { CellsSnoc(fs, gs, i, before.value.cells, whole.value.cells, last.value.cell, turn.value.cell); }
  }

  lemma {:induction false} TurnAlike(u: Unmarshaler, decoded: Decoder, f: Field, g: Field, s: Scope, h: Store,
                                     level: Level)
    requires Laws(u, decoded) && QuietField(u, f) && QuietField(u, g) && FieldInfos.SameField(f, g)
    requires LevelStands(h, s.level, level)
    ensures TurnsAlike(f.tp, g.tp, TurnOf(u, f, s, h), TurnOf(u, g, s, h))
    decreases f, 5
  {
    SameOptions(u, f, g);
    FieldAlike(u, decoded, f, g, s, h, level);
  }

  // ---------- Fields ----------

  lemma {:induction false} NamedAlike(u: Unmarshaler, decoded: Decoder, f: Field, g: Field, s: Scope, h: Store,
                                      level: Level)
    requires Laws(u, decoded) && QuietField(u, f) && QuietField(u, g) && FieldInfos.SameField(f, g)
    requires LevelStands(h, s.level, level)
    ensures RunsAlike(f.tp, g.tp, ProcessNamed(u, f, s, h).result, ProcessNamed(u, g, s, h).result)
    decreases f, 3
  {
    SameOptions(u, f, g);
    var po := ParseOptionsWithContext(u, f, Get(h, s.level));
    if po.Ok? {
      QuietFound(u, f, s, h);
      QuietFound(u, g, s, h);
      var keys, o := ReadKeys(po.value.key), po.value.options;
      TextsAlike(u, f.tp, g.tp, if o.Some? then u.lib.env(o.value.envVar) else "", o);
      WithoutAlike(u, decoded, f.tp, g.tp, o, h);
      if keys != [] && keys[0] in level {
        WithAlike(u, decoded, f.tp, g.tp, Get(h, s.level)[keys[0]], level[keys[0]],
                  CreateValuer(ValuerOf(s), Inherits(o)), o, h);
      }
    }
  }

  lemma {:induction false} WithAlike(u: Unmarshaler, decoded: Decoder, s: Type, t: Type, r: Ref, v: Value,
                                     around: Valuer<Loc>, o: Option<ContextOptions>, h: Store)
    requires Laws(u, decoded) && QuietType(u, s) && QuietType(u, t) && FieldInfos.Reordered(s, t) && Stands(h, r, v)
    ensures RunsAlike(s, t, WithValue(u, s, r, around, o, h).result, WithValue(u, t, r, around, o, h).result)
    decreases s, 4
  {
    FieldInfos.DerefReordered(s, t);
    ScalarsAlike(u, s, t, r, o);
    NotFromStringAlike(u, decoded, s, t, r, v, Some(around), o, h);
  }

  lemma {:induction false} NotFromStringAlike(u: Unmarshaler, decoded: Decoder, s: Type, t: Type, r: Ref, v: Value,
                                              around: Option<Valuer<Loc>>, o: Option<ContextOptions>, h: Store)
    requires Laws(u, decoded) && QuietType(u, s) && QuietType(u, t) && FieldInfos.Reordered(s, t) && Stands(h, r, v)
    ensures RunsAlike(s, t, NotFromString(u, s, r, around, o, h).result, NotFromString(u, t, r, around, o, h).result)
    decreases s, 2
  {
    var a, b := Deref(s), Deref(t);
    FieldInfos.DerefReordered(s, t);
    QuietDeref(u, s);
    QuietDeref(u, t);
    if v.Object? && a.Struct? {
      FieldsAlike(u, decoded, a.fields, b.fields, Scope(r.loc, around), h, v.entries);
      DerefRuns(s, t, NotFromString(u, s, r, around, o, h).result, NotFromString(u, t, r, around, o, h).result);
    } else if v.Object? && a.MapOf? {
      MapAlike(u, decoded, a.elem, b.elem, r.loc, v.entries, h);
    } else if v.List? && a.SliceOf? {
      SliceAlike(u, decoded, if s.PtrTo? then s.elem else a.elem, if t.PtrTo? then t.elem else b.elem, r.items,
                 v.items, h);
    } else {
      OtherwiseAlike(u, s, t, r, around, o, h);
    }
  }

  lemma OtherwiseAlike(u: Unmarshaler, s: Type, t: Type, r: Ref, around: Option<Valuer<Loc>>,
                       o: Option<ContextOptions>, h: Store)
    requires DecodesAlike(u.lib) && FieldInfos.Reordered(s, t)
    requires !(r.MapAt? && (Deref(s).Struct? || Deref(s).MapOf?)) && !(r.List? && Deref(s).SliceOf?)
    ensures RunsAlike(s, t, NotFromString(u, s, r, around, o, h).result, NotFromString(u, t, r, around, o, h).result)
  {
    FieldInfos.DerefReordered(s, t);
    ScalarsAlike(u, s, t, r, o);
    if (Deref(s).MapOf? || Deref(s).SliceOf?) && (r.Text? || r.Number?) {
      DerefRuns(s, t, NotFromString(u, s, r, around, o, h).result, NotFromString(u, t, r, around, o, h).result);
    }
  }

  lemma {:induction false} WithoutAlike(u: Unmarshaler, decoded: Decoder, s: Type, t: Type, o: Option<ContextOptions>,
                                        h: Store)
    requires Laws(u, decoded) && QuietType(u, s) && QuietType(u, t) && FieldInfos.Reordered(s, t)
    ensures RunsAlike(s, t, WithoutValue(u, s, o, h).result, WithoutValue(u, t, o, h).result)
    decreases s, 3
  {
    FieldInfos.DerefReordered(s, t);
    assert Stands(h, MapAt(EMPTY), Values.Object(map[]));
    NotFromStringAlike(u, decoded, s, t, MapAt(EMPTY), Values.Object(map[]), None, o, h);
    if DefaultOf(o) != "" {
      DefaultAlike(u, decoded, s, t, DefaultOf(o), h);
    } else if Deref(s).Struct? {
      DemandAlike(u, Deref(s).fields, Deref(t).fields);
    }
  }

  lemma DemandAlike(u: Unmarshaler, fs: seq<Field>, gs: seq<Field>)
    requires FieldInfos.ReorderedFields(fs, gs)
    ensures ValueRequired(u, fs) == Ok(false) <==> ValueRequired(u, gs) == Ok(false)
  {
    LetOffReordered(u, fs, gs);
    LetOffExactly(u, fs);
    LetOffExactly(u, gs);
  }

  lemma {:induction false} DefaultAlike(u: Unmarshaler, decoded: Decoder, s: Type, t: Type, d: string, h: Store)
    requires Laws(u, decoded) && QuietType(u, s) && QuietType(u, t) && FieldInfos.Reordered(s, t)
    ensures RunsAlike(s, t, FromDefault(u, s, d, h).result, FromDefault(u, t, d, h).result)
    decreases s, 1
  {
    var a, b := Deref(s), Deref(t);
    FieldInfos.DerefReordered(s, t);
    QuietDeref(u, s);
    QuietDeref(u, t);
    if a.ArrayOf? || a.SliceOf? {
      ListAlike(u, decoded, a.elem, b.elem, d, h);
    } else {
      TextsAlike(u, s, t, d, None);
    }
  }

  // ---------- Slices and maps ----------

  lemma {:induction false} ListAlike(u: Unmarshaler, decoded: Decoder, s: Type, t: Type, d: string, h: Store)
    requires Laws(u, decoded) && QuietType(u, s) && QuietType(u, t) && FieldInfos.Reordered(s, t)
    ensures RunsAlike(SliceOf(s), SliceOf(t), DefaultList(u, s, d, h).result, DefaultList(u, t, d, h).result)
    decreases s, 4
  {
    FieldInfos.DerefReordered(s, t);
    if Deref(s) == Scalar(KString) {
      var texts := Texts(ParseGroupedSegments(d));
      SliceAlike(u, decoded, s, t, texts, seq(|texts|, i requires 0 <= i < |texts| => Values.Text(texts[i].s)), h);
    } else {
      SameDecoded(u, decoded, d, h, h);
      var list := u.lib.decodeList(h, d);
      if list.Some? { SliceAlike(u, decoded, s, t, list.value.0, decoded(d).value, list.value.1); }
    }
  }

  lemma {:induction false} SliceAlike(u: Unmarshaler, decoded: Decoder, s: Type, t: Type, items: seq<Ref>,
                                      values: seq<Value>, h: Store)
    requires Laws(u, decoded) && QuietType(u, s) && QuietType(u, t) && FieldInfos.Reordered(s, t) &&
             ListStands(h, items, values)
    ensures RunsAlike(SliceOf(s), SliceOf(t), FillSlice(u, s, items, h).result, FillSlice(u, t, items, h).result)
    decreases s, 3
  {
    ItemsAlike(u, decoded, s, t, items, values, h);
  }

  /** The elements filled agree one by one. */
  ghost predicate ListsAlike(s: Type, t: Type, x: Cells, y: Cells)
  {
    (x.Ok? <==> y.Ok?) &&
    (x.Ok? ==> |x.value| == |y.value| && forall i :: 0 <= i < |x.value| ==> CellAlike(s, t, x.value[i], y.value[i]))
  }

  lemma {:induction false} ItemsAlike(u: Unmarshaler, decoded: Decoder, s: Type, t: Type, items: seq<Ref>,
                                      values: seq<Value>, h: Store)
    requires Laws(u, decoded) && QuietType(u, s) && QuietType(u, t) && FieldInfos.Reordered(s, t) &&
             ListStands(h, items, values)
    ensures ListsAlike(s, t, FillItems(u, s, items, h).result, FillItems(u, t, items, h).result)
    decreases s, 2, |items|
  {
    if items != [] {
      var n := |items| - 1;
      ItemsAlike(u, decoded, s, t, items[..n], values[..n], h);
      DecodesAllocates(u.lib, decoded);
      ItemsGrow(u, s, items[..n], h);
      ItemsGrow(u, t, items[..n], h);
      LaterAlike(u, decoded, s, t, items[n], values[n], h, FillItems(u, s, items[..n], h).store,
                 FillItems(u, t, items[..n], h).store);
    }
  }

  /** An element, once others have been filled. */
  lemma {:induction false} LaterAlike(u: Unmarshaler, decoded: Decoder, s: Type, t: Type, r: Ref, v: Value, h: Store,
                                      h1: Store, h2: Store)
    requires Laws(u, decoded) && QuietType(u, s) && QuietType(u, t) && FieldInfos.Reordered(s, t) && Stands(h, r, v)
    requires h <= h1 && h <= h2
    ensures RunsAlike(s, t, FillItem(u, s, r, h1).result, FillItem(u, t, r, h2).result)
    ensures RunsAlike(s, t, FillEntry(u, s, r, h1).result, FillEntry(u, t, r, h2).result)
    decreases s, 1, 1
  {
    ElementAlike(u, decoded, s, t, r, v, h);
    SameLater(u, decoded, s, r, r, v, h, h1, h, h);
    SameLater(u, decoded, t, r, r, v, h, h2, h, h);
  }

  lemma {:induction false} ElementAlike(u: Unmarshaler, decoded: Decoder, s: Type, t: Type, r: Ref, v: Value,
                                        h: Store)
    requires Laws(u, decoded) && QuietType(u, s) && QuietType(u, t) && FieldInfos.Reordered(s, t) && Stands(h, r, v)
    ensures RunsAlike(s, t, FillItem(u, s, r, h).result, FillItem(u, t, r, h).result)
    ensures RunsAlike(s, t, FillEntry(u, s, r, h).result, FillEntry(u, t, r, h).result)
    decreases s, 1, 0
  {
    var a, b := Deref(s), Deref(t);
    FieldInfos.DerefReordered(s, t);
    QuietDeref(u, s);
    QuietDeref(u, t);
    if v.Object? && a.Struct? {
      FieldsAlike(u, decoded, a.fields, b.fields, Scope(r.loc, None), h, v.entries);
      GoneInto(u, s, t, r, h);
    } else if v.Object? && a.MapOf? {
      MapAlike(u, decoded, a.elem, b.elem, r.loc, v.entries, h);
      GoneInto(u, s, t, r, h);
    } else if v.List? && a.SliceOf? {
      SliceAlike(u, decoded, a.elem, b.elem, r.items, v.items, h);
      GoneInto(u, s, t, r, h);
    } else {
      ElementsAlike(u, s, t, r);
    }
  }

  /** The struct, map or list that the value is filled into agrees. */
  ghost predicate InsideAlike(u: Unmarshaler, a: Type, b: Type, r: Ref, h: Store)
  {
    match a
    case Struct(fs) =>
      b.Struct? && r.MapAt? &&
      StructsAlike(fs, b.fields, ProcessFields(u, fs, Scope(r.loc, None), h).result,
                   ProcessFields(u, b.fields, Scope(r.loc, None), h).result)
    case MapOf(elem) =>
      b.MapOf? && r.MapAt? && RunsAlike(a, b, FillMap(u, elem, r.loc, h).result, FillMap(u, b.elem, r.loc, h).result)
    case SliceOf(elem) =>
      b.SliceOf? && r.List? && RunsAlike(a, b, FillSlice(u, elem, r.items, h).result,
                                         FillSlice(u, b.elem, r.items, h).result)
    case _ => false
  }

  /** An element of a list or a map that is gone into. */
  lemma GoneInto(u: Unmarshaler, s: Type, t: Type, r: Ref, h: Store)
    requires FieldInfos.Reordered(s, t) && InsideAlike(u, Deref(s), Deref(t), r, h)
    ensures RunsAlike(s, t, FillItem(u, s, r, h).result, FillItem(u, t, r, h).result)
    ensures RunsAlike(s, t, FillEntry(u, s, r, h).result, FillEntry(u, t, r, h).result)
  {
    var a, b := Deref(s), Deref(t);
    if a.Struct? {
      RecordsAlike(a.fields, b.fields, ProcessFields(u, a.fields, Scope(r.loc, None), h),
                   ProcessFields(u, b.fields, Scope(r.loc, None), h));
    }
    assert RunsAlike(a, b, FillItem(u, s, r, h).result, FillItem(u, t, r, h).result);
    assert RunsAlike(a, b, FillEntry(u, s, r, h).result, FillEntry(u, t, r, h).result);
    DerefRuns(s, t, FillItem(u, s, r, h).result, FillItem(u, t, r, h).result);
    DerefRuns(s, t, FillEntry(u, s, r, h).result, FillEntry(u, t, r, h).result);
  }

  lemma RecordsAlike(fs: seq<Field>, gs: seq<Field>, x: Done<seq<Option<Target>>>, y: Done<seq<Option<Target>>>)
    requires StructsAlike(fs, gs, x.result, y.result)
    ensures RunsAlike(Struct(fs), Struct(gs), Recorded(x).result, Recorded(y).result)
  {
  }

  lemma {:induction false} MapAlike(u: Unmarshaler, decoded: Decoder, s: Type, t: Type, loc: Loc, level: Level,
                                    h: Store)
    requires Laws(u, decoded) && QuietType(u, s) && QuietType(u, t) && FieldInfos.Reordered(s, t) &&
             LevelStands(h, loc, level)
    ensures RunsAlike(MapOf(s), MapOf(t), FillMap(u, s, loc, h).result, FillMap(u, t, loc, h).result)
    decreases s, 3
  {
    EntriesAlike(u, decoded, s, t, Get(h, loc), level, u.lib.order(Get(h, loc).Keys), h);
  }

  ghost predicate TablesAlike(s: Type, t: Type, x: Result<map<string, Target>, Failure>,
                              y: Result<map<string, Target>, Failure>)
  {
    (x.Ok? <==> y.Ok?) &&
    (x.Ok? ==> x.value.Keys == y.value.Keys && forall k :: k in x.value ==> Alike(s, t, x.value[k], y.value[k]))
  }

  lemma {:induction false} EntriesAlike(u: Unmarshaler, decoded: Decoder, s: Type, t: Type, entries: Entries,
                                        level: Level, keys: seq<string>, h: Store)
    requires Laws(u, decoded) && QuietType(u, s) && QuietType(u, t) && FieldInfos.Reordered(s, t) &&
             EntriesStand(h, entries, level)
    ensures TablesAlike(s, t, FillEntries(u, s, entries, keys, h).result, FillEntries(u, t, entries, keys, h).result)
    decreases s, 2, |keys|
  {
    if keys != [] {
      var n := |keys| - 1;
      var k := keys[n];
      EntriesAlike(u, decoded, s, t, entries, level, keys[..n], h);
      EntriesTurn(u, s, entries, keys, h);
      EntriesTurn(u, t, entries, keys, h);
      if k in level {
        DecodesAllocates(u.lib, decoded);
        EntriesGrow(u, s, entries, keys[..n], h);
        EntriesGrow(u, t, entries, keys[..n], h);
        LaterAlike(u, decoded, s, t, entries[k], level[k], h, FillEntries(u, s, entries, keys[..n], h).store,
                   FillEntries(u, t, entries, keys[..n], h).store);
      }
    }
  }

  // ---------- The theorem ----------

  /**
   For every struct type whose fields ask for no inheritance, every way to list its fields and those of the
   structs below it, and every configuration: unmarshalling succeeds in both orders or in neither, and fills
   each field with the same.
   */
  lemma OrderIsIrrelevant(u: Unmarshaler, decoded: Decoder, fs: seq<Field>, gs: seq<Field>, loc: Loc, h: Store,
                          level: Level)
    requires Laws(u, decoded) && Quiet(u, fs) && FieldInfos.ReorderedFields(fs, gs) && LevelStands(h, loc, level)
    ensures RunsAlike(Struct(fs), Struct(gs), UnmarshalStruct(u, fs, loc, h).result,
                      UnmarshalStruct(u, gs, loc, h).result)
  {
    QuietFieldsReordered(u, fs, gs);
    FieldsAlike(u, decoded, fs, gs, Scope(loc, None), h, level);
  }

  // ---------- Any types ----------

  /** No field changes the input's maps. */
  predicate NothingWritten(u: Unmarshaler, fields: seq<Field>, s: Scope, h: Store)
  {
    forall i :: 0 <= i < |fields| ==> WritesNothing(u, fields[i], s, h)
  }

  predicate WritesNothing(u: Unmarshaler, f: Field, s: Scope, h: Store)
  {
    ProcessField(u, f, s, h).store == h
  }

  predicate Succeeds(u: Unmarshaler, f: Field, s: Scope, h: Store)
  {
    ProcessField(u, f, s, h).result.Ok?
  }

  lemma {:induction false} UnwrittenFieldwise(u: Unmarshaler, fields: seq<Field>, s: Scope, h: Store)
    requires NothingWritten(u, fields, s, h)
    ensures ProcessFields(u, fields, s, h).store == h
    ensures ProcessFields(u, fields, s, h).result.Ok? <==>
            forall i :: 0 <= i < |fields| ==> Succeeds(u, fields[i], s, h)
    ensures var run := ProcessFields(u, fields, s, h).result;
            run.Ok? ==>
              |run.value| == |fields| &&
              forall i :: 0 <= i < |fields| ==> ProcessField(u, fields[i], s, h).result == Ok(run.value[i])
  {
    if fields != [] {
      var n := |fields| - 1;
      UnwrittenFieldwise(u, fields[..n], s, h);
      assert WritesNothing(u, fields[n], s, h);
      forall i | 0 <= i < n ensures fields[..n][i] == fields[i] {
      }
      assert ProcessFields(u, fields[..n], s, h).result.Ok? ==>
          ProcessFields(u, fields, s, h) == Appended(ProcessFields(u, fields[..n], s, h).result.value,
                                                     ProcessField(u, fields[n], s, h));
    }
  }

  /** `gs` lists the fields of `fs` in the order `at`. */
  ghost predicate ListedAt(fs: seq<Field>, gs: seq<Field>, at: seq<nat>)
  {
    |at| == |gs| == |fs| && (forall i :: 0 <= i < |at| ==> at[i] < |fs| && gs[i] == fs[at[i]]) &&
    forall j :: 0 <= j < |fs| ==> j in at
  }

  /** For all types: where no field of a struct writes anything, they may be listed in any order. */
  lemma UnwrittenOrder(u: Unmarshaler, fs: seq<Field>, gs: seq<Field>, at: seq<nat>, s: Scope, h: Store)
    requires NothingWritten(u, fs, s, h) && ListedAt(fs, gs, at)
    ensures var x, y := ProcessFields(u, fs, s, h).result, ProcessFields(u, gs, s, h).result;
            (x.Ok? <==> y.Ok?) &&
            (x.Ok? ==> |x.value| == |y.value| == |at| && forall i :: 0 <= i < |at| ==> y.value[i] == x.value[at[i]])
  {
    forall i | 0 <= i < |gs| ensures WritesNothing(u, gs[i], s, h) {
      assert WritesNothing(u, fs[at[i]], s, h);
    }
    UnwrittenFieldwise(u, fs, s, h);
    UnwrittenFieldwise(u, gs, s, h);
    SameSuccess(u, fs, gs, at, s, h);
  }

  lemma SameSuccess(u: Unmarshaler, fs: seq<Field>, gs: seq<Field>, at: seq<nat>, s: Scope, h: Store)
    requires ListedAt(fs, gs, at)
    ensures (forall i :: 0 <= i < |fs| ==> Succeeds(u, fs[i], s, h)) <==>
            (forall i :: 0 <= i < |gs| ==> Succeeds(u, gs[i], s, h))
  {
    if forall i :: 0 <= i < |gs| ==> Succeeds(u, gs[i], s, h) {
      forall j | 0 <= j < |fs| ensures Succeeds(u, fs[j], s, h) {
        assert j in at;
        var i :| 0 <= i < |at| && at[i] == j;
        assert Succeeds(u, gs[i], s, h);
      }
    }
  }
}
