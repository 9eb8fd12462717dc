/**
 The order in which structs list their fields: for types that ask for no inheritance it decides neither
 whether unmarshalling succeeds nor what a field is filled with, at any depth.
 */
module FieldOrder {
  import opened Wrappers
  import opened Types
  import opened Tags
  import opened Stores
  import opened SharedMeaning
  import opened Unmarshal
  import opened InputEffects
  import opened ByValue
  import FieldInfos
  import Required

  // ---------- The same result, up to the order of fields ----------

  /** Targets of the types `s` and `t`, which list fields in different orders, agree field by field. */
  ghost predicate Alike(s: Type, t: Type, a: Target, b: Target)
    decreases s, 0
  {
    match s
    case PtrTo(elem) => t.PtrTo? && Alike(elem, t.elem, a, b)
    case Struct(fs) =>
      t.Struct? && if a.Record? then b.Record? && CellsAlike(fs, t.fields, a.cells, b.cells) else a == b
    case SliceOf(elem) =>
      t.SliceOf? &&
      if a.Items? then
        b.Items? && |a.items| == |b.items| &&
        forall i :: 0 <= i < |a.items| ==> CellAlike(elem, t.elem, a.items[i], b.items[i])
      else a == b
    case MapOf(elem) =>
      t.MapOf? &&
      if a.Table? then
        b.Table? && a.entries.Keys == b.entries.Keys &&
        forall k :: k in a.entries ==> Alike(elem, t.elem, a.entries[k], b.entries[k])
      else a == b
    case _ => a == b
  }

  ghost predicate CellAlike(s: Type, t: Type, a: Option<Target>, b: Option<Target>)
    decreases s, 1
  {
    (a.Some? <==> b.Some?) && (a.Some? ==> Alike(s, t, a.value, b.value))
  }

  /** Cells of the same fields agree, wherever the fields are listed. */
  ghost predicate CellsAlike(fs: seq<Field>, gs: seq<Field>, a: seq<Option<Target>>, b: seq<Option<Target>>)
  {
    |fs| == |gs| == |a| == |b| &&
    (fs != [] ==>
       var n := |fs| - 1;
       exists i :: 0 <= i < |gs| && FieldInfos.SameField(fs[n], gs[i]) && CellAlike(fs[n].tp, gs[i].tp, a[n], b[i]) &&
                   CellsAlike(fs[..n], Without(gs, i), a[..n], Without(b, i)))
  }

  /** Both runs succeed, with cells that agree, or none does. */
  ghost predicate RunsAlike(s: Type, t: Type, x: Cell, y: Cell)
  {
    (x.Ok? <==> y.Ok?) && (x.Ok? ==> CellAlike(s, t, x.value, y.value))
  }

  ghost predicate StructsAlike(fs: seq<Field>, gs: seq<Field>, x: Cells, y: Cells)
  {
    (x.Ok? <==> y.Ok?) && (x.Ok? ==> CellsAlike(fs, gs, x.value, y.value))
  }

  /** What the library decodes from a text does not depend on the order of fields either. */
  ghost predicate DecodesAlike(lib: Library)
  {
    forall s: Type, t: Type, d: string :: FieldInfos.Reordered(s, t) ==>
      CellAlike(s, t, lib.decode(s, d), lib.decode(t, d))
  }

  ghost predicate Laws(u: Unmarshaler, decoded: Decoder)
  {
    Decodes(u.lib, decoded) && DecodesAlike(u.lib)
  }

  lemma {:induction false} DerefAlike(s: Type, t: Type, a: Target, b: Target)
    requires FieldInfos.Reordered(s, t) && Alike(Deref(s), Deref(t), a, b)
    ensures Alike(s, t, a, b)
  {
    if s.PtrTo? { DerefAlike(s.elem, t.elem, a, b); }
  }

  lemma DerefRuns(s: Type, t: Type, x: Cell, y: Cell)
    requires FieldInfos.Reordered(s, t) && RunsAlike(Deref(s), Deref(t), x, y)
    ensures RunsAlike(s, t, x, y)
  {
    if x.Ok? && x.value.Some? { DerefAlike(s, t, x.value.value, y.value.value); }
  }

  /** One field more, listed last here and somewhere there. */
  lemma CellsSnoc(fs: seq<Field>, gs: seq<Field>, i: nat, a: seq<Option<Target>>, b: seq<Option<Target>>,
                  x: Option<Target>, y: Option<Target>)
    requires fs != [] && |gs| == |fs| && |a| == |fs| - 1 && |b| == |gs| && i < |gs| && b[i] == y
    requires FieldInfos.SameField(fs[|fs| - 1], gs[i]) && CellAlike(fs[|fs| - 1].tp, gs[i].tp, x, y)
    requires CellsAlike(fs[..|fs| - 1], Without(gs, i), a, Without(b, i))
    ensures CellsAlike(fs, gs, a + [x], b)
  {
    assert (a + [x])[..|fs| - 1] == a;
  }

  // ---------- The same demands ----------

  lemma {:induction false} QuietReordered(u: Unmarshaler, s: Type, t: Type)
    requires FieldInfos.Reordered(s, t) && QuietType(u, s)
    ensures QuietType(u, t)
    decreases s, 1
  {
    match s
    case PtrTo(elem) => QuietReordered(u, elem, t.elem);
    case Struct(fields) => QuietFieldsReordered(u, fields, t.fields);
    case SliceOf(elem) => QuietReordered(u, elem, t.elem);
    case ArrayOf(elem) => QuietReordered(u, elem, t.elem);
    case MapOf(elem) => QuietReordered(u, elem, t.elem);
    case _ =>
  }

  lemma {:induction false} QuietFieldsReordered(u: Unmarshaler, fs: seq<Field>, gs: seq<Field>)
    requires FieldInfos.ReorderedFields(fs, gs) && Quiet(u, fs)
    ensures Quiet(u, gs)
    decreases fs
  {
    if fs != [] {
      var n := |fs| - 1;
      var i :| 0 <= i < |gs| && FieldInfos.SameField(fs[n], gs[i]) &&
               FieldInfos.ReorderedFields(fs[..n], Without(gs, i));
      QuietFieldsReordered(u, fs[..n], Without(gs, i));
      QuietReordered(u, fs[n].tp, gs[i].tp);
      SameOptions(u, fs[n], gs[i]);
      QuietAgain(u, gs, i);
    }
  }

  lemma QuietAgain(u: Unmarshaler, fields: seq<Field>, i: nat)
    requires i < |fields| && Quiet(u, Without(fields, i)) && QuietField(u, fields[i])
    ensures Quiet(u, fields)
  {
    forall j | 0 <= j < |fields| && j != i ensures fields[j] == Without(fields, i)[if j < i then j else j - 1] {
    }
  }

  lemma SameOptions(u: Unmarshaler, f: Field, g: Field)
    requires FieldInfos.SameField(f, g)
    ensures ParseKeyAndOptions(u, f) == ParseKeyAndOptions(u, g)
  {
  }

  ghost predicate AllUndemanding(u: Unmarshaler, fields: seq<Field>)
  {
    forall i :: 0 <= i < |fields| ==> Required.Undemanding(u, fields[i])
  }

  lemma UndemandingWithout(u: Unmarshaler, fields: seq<Field>, i: nat)
    requires i < |fields|
    ensures AllUndemanding(u, fields) <==> AllUndemanding(u, Without(fields, i)) && Required.Undemanding(u, fields[i])
  {
    forall j | 0 <= j < |fields| && j != i ensures fields[j] == Without(fields, i)[if j < i then j else j - 1] {
    }
  }

  lemma LetOffExactly(u: Unmarshaler, fields: seq<Field>)
    ensures ValueRequired(u, fields) == Ok(false) <==> AllUndemanding(u, fields)
  {
    Required.RequiredFieldwise(u, fields);
  }

  lemma {:induction false} LetOffReordered(u: Unmarshaler, fs: seq<Field>, gs: seq<Field>)
    requires FieldInfos.ReorderedFields(fs, gs)
    ensures AllUndemanding(u, fs) <==> AllUndemanding(u, gs)
    decreases fs
  {
    if fs != [] {
      var n := |fs| - 1;
      var i :| 0 <= i < |gs| && FieldInfos.SameField(fs[n], gs[i]) &&
               FieldInfos.ReorderedFields(fs[..n], Without(gs, i));
      LetOffReordered(u, fs[..n], Without(gs, i));
      UndemandingWithout(u, fs, n);
      assert Without(fs, n) == fs[..n];
      UndemandingWithout(u, gs, i);
      UndemandingReordered(u, fs[n], gs[i]);
    }
  }

  lemma {:induction false} UndemandingReordered(u: Unmarshaler, f: Field, g: Field)
    requires FieldInfos.SameField(f, g)
    ensures Required.Undemanding(u, f) <==> Required.Undemanding(u, g)
    decreases f
  {
    SameOptions(u, f, g);
    if f.tp.Struct? {
      LetOffReordered(u, f.tp.fields, g.tp.fields);
      LetOffExactly(u, f.tp.fields);
      LetOffExactly(u, g.tp.fields);
    }
  }

  // ---------- Any field can come last ----------

  lemma QuietWithout(u: Unmarshaler, fields: seq<Field>, i: nat)
    requires i < |fields| && Quiet(u, fields)
    ensures Quiet(u, Without(fields, i)) && QuietField(u, fields[i])
  {
  }

  /** One cell more, if all goes well. */
  ghost predicate Appends(before: Cells, one: Cell, all: Cells)
  {
    (all.Ok? <==> before.Ok? && one.Ok?) && (all.Ok? ==> all.value == before.value + [one.value])
  }

  /** The last field, processed in the memory as it was at first. */
  lemma ProcessLast(u: Unmarshaler, decoded: Decoder, fields: seq<Field>, s: Scope, h: Store, level: Level)
    requires Decodes(u.lib, decoded) && fields != [] && Quiet(u, fields) && LevelStands(h, s.level, level)
    ensures Appends(ProcessFields(u, fields[..|fields| - 1], s, h).result,
                    ProcessField(u, fields[|fields| - 1], s, h).result,
                    ProcessFields(u, fields, s, h).result)
  {
    var initial, f := fields[..|fields| - 1], fields[|fields| - 1];
    DecodesAllocates(u.lib, decoded);
    FieldsGrow(u, initial, s, h);
    var h1 := ProcessFields(u, initial, s, h).store;
    LevelStillStands(h, h1, s.level, level);
    SameField(u, decoded, f, s, h, s, h1, level);
  }

  /** What is left of the cells without one of them, and that one. */
  ghost predicate Splits(all: Cells, i: nat, rest: Cells, one: Cell)
  {
    (all.Ok? <==> rest.Ok? && one.Ok?) &&
    (all.Ok? ==> i < |all.value| && Without(all.value, i) == rest.value && all.value[i] == one.value)
  }

  lemma WithoutSnoc<T>(a: seq<T>, i: nat, x: T)
    requires i < |a|
    ensures Without(a + [x], i) == Without(a, i) + [x]
  {
  }

  lemma SplitsSnoc(before: Cells, i: nat, rest: Cells, one: Cell, last: Cell, all: Cells, others: Cells)
    requires Splits(before, i, rest, one) && Appends(before, last, all) && Appends(rest, last, others)
    ensures Splits(all, i, others, one)
  {
    if all.Ok? { WithoutSnoc(before.value, i, last.value); }
  }

  /** Leaving out one that is not the last leaves the last where it was. */
  lemma WithoutInitial<T>(a: seq<T>, i: nat)
    requires i < |a| - 1
    ensures var rest := Without(a, i);
            rest != [] && rest[..|rest| - 1] == Without(a[..|a| - 1], i) && rest[|rest| - 1] == a[|a| - 1]
  {
  }

  /** The last field still comes last when another one is left out. */
  lemma LastOfOthers(u: Unmarshaler, decoded: Decoder, fields: seq<Field>, i: nat, s: Scope, h: Store, level: Level)
    requires i < |fields| - 1 && Decodes(u.lib, decoded) && Quiet(u, fields) && LevelStands(h, s.level, level)
    ensures Appends(ProcessFields(u, Without(fields[..|fields| - 1], i), s, h).result,
                    ProcessField(u, fields[|fields| - 1], s, h).result,
                      ProcessFields(u, Without(fields, i), s, h).result)
    ensures Adds(GatherEmbedded(u, Without(fields[..|fields| - 1], i), s, h).result,
                 TurnOf(u, fields[|fields| - 1], s, h),
                 GatherEmbedded(u, Without(fields, i), s, h).result)
  {
    QuietWithout(u, fields, i);
    WithoutInitial(fields, i);
    ProcessLast(u, decoded, Without(fields, i), s, h, level);
    GatherLast(u, decoded, Without(fields, i), s, h, level);
  }

  /** The field at `i` might as well come last. */
  ghost predicate ComesLast(u: Unmarshaler, fields: seq<Field>, i: nat, s: Scope, h: Store)
    requires i < |fields|
  {
    Splits(ProcessFields(u, fields, s, h).result, i, ProcessFields(u, Without(fields, i), s, h).result,
           ProcessField(u, fields[i], s, h).result)
  }

  lemma ProcessIsLast(u: Unmarshaler, decoded: Decoder, fields: seq<Field>, s: Scope, h: Store, level: Level)
    requires Decodes(u.lib, decoded) && fields != [] && Quiet(u, fields) && LevelStands(h, s.level, level)
    ensures ComesLast(u, fields, |fields| - 1, s, h)
  {
    var n := |fields| - 1;
    ProcessLast(u, decoded, fields, s, h, level);
    CellCount(u, fields[..n], s, h);
    assert Without(fields, n) == fields[..n];
  }

  lemma ProcessIsNotLast(u: Unmarshaler, decoded: Decoder, fields: seq<Field>, i: nat, s: Scope, h: Store, level: Level)
    requires i < |fields| - 1 && Decodes(u.lib, decoded) && Quiet(u, fields) && LevelStands(h, s.level, level)
    requires ComesLast(u, fields[..|fields| - 1], i, s, h)
    ensures ComesLast(u, fields, i, s, h)
  {
    var initial, last := fields[..|fields| - 1], fields[|fields| - 1];
    ProcessLast(u, decoded, fields, s, h, level);
    LastOfOthers(u, decoded, fields, i, s, h, level);
    assert initial[i] == fields[i];
    SplitsSnoc(ProcessFields(u, initial, s, h).result, i, ProcessFields(u, Without(initial, i), s, h).result,
               ProcessField(u, fields[i], s, h).result, ProcessField(u, last, s, h).result,
               ProcessFields(u, fields, s, h).result, ProcessFields(u, Without(fields, i), s, h).result);
  }

  lemma {:induction false} ProcessAnyLast(u: Unmarshaler, decoded: Decoder, fields: seq<Field>, i: nat, s: Scope,
                                          h: Store, level: Level)
    requires i < |fields| && Decodes(u.lib, decoded) && Quiet(u, fields) && LevelStands(h, s.level, level)
    ensures ComesLast(u, fields, i, s, h)
    decreases |fields|
  {
    if i == |fields| - 1 {
      ProcessIsLast(u, decoded, fields, s, h, level);
    } else {
      ProcessAnyLast(u, decoded, fields[..|fields| - 1], i, s, h, level);
      ProcessIsNotLast(u, decoded, fields, i, s, h, level);
    }
  }

  lemma {:induction false} CellCount(u: Unmarshaler, fields: seq<Field>, s: Scope, h: Store)
    ensures var cells := ProcessFields(u, fields, s, h).result; cells.Ok? ==> |cells.value| == |fields|
  {
    if fields != [] { CellCount(u, fields[..|fields| - 1], s, h); }
  }

  // ---------- Optional embedded structs ----------

  /** What one turn of their loop finds for a field, in the memory as it was at first. */
  datatype Turn = Turn(has: bool, needed: bool, cell: Option<Target>)

  function TurnOf(u: Unmarshaler, f: Field, s: Scope, h: Store): Result<Turn, Failure>
  {
    var po := ParseOptionsWithContext(u, f, Get(h, s.level));
    if po.Err? then Err(po.error)
    else
      var has := Own(Get(h, s.level), ReadKeys(po.value.key)).Some?;
      var cell := if has then ProcessField(u, f, s, h).result else Ok(None);
      if cell.Err? then Err(cell.error) else Ok(Turn(has, !IsOptional(po.value.options), cell.value))
  }

  function Plus(g: Gathered, turn: Turn): Gathered
  {
    Gathered(g.cells + [turn.cell], g.filled || turn.has, g.required + (if turn.needed then 1 else 0),
             g.requiredFilled + (if turn.needed && turn.has then 1 else 0))
  }

  ghost predicate Adds(before: Result<Gathered, Failure>, turn: Result<Turn, Failure>, all: Result<Gathered, Failure>)
  {
    (all.Ok? <==> before.Ok? && turn.Ok?) && (all.Ok? ==> all.value == Plus(before.value, turn.value))
  }

  lemma TurnAdds(u: Unmarshaler, decoded: Decoder, g: Gathered, f: Field, s: Scope, h: Store, h1: Store, level: Level)
    requires Decodes(u.lib, decoded) && QuietField(u, f) && LevelStands(h, s.level, level) && h <= h1
    ensures Adds(Ok(g), TurnOf(u, f, s, h), GatherField(u, g, f, s, h1).result)
  {
    LevelStillStands(h, h1, s.level, level);
    SameContext(u, f, Get(h, s.level), Get(h1, s.level));
    if ParseOptionsWithContext(u, f, Get(h, s.level)).Ok? {
      QuietGather(u, g, f, s, h1);
      SameField(u, decoded, f, s, h, s, h1, level);
    }
  }

  lemma GatherLast(u: Unmarshaler, decoded: Decoder, fields: seq<Field>, s: Scope, h: Store, level: Level)
    requires Decodes(u.lib, decoded) && fields != [] && Quiet(u, fields) && LevelStands(h, s.level, level)
    ensures Adds(GatherEmbedded(u, fields[..|fields| - 1], s, h).result, TurnOf(u, fields[|fields| - 1], s, h),
                 GatherEmbedded(u, fields, s, h).result)
  {
    var initial, f := fields[..|fields| - 1], fields[|fields| - 1];
    DecodesAllocates(u.lib, decoded);
    GatherGrows(u, initial, s, h);
    var before := GatherEmbedded(u, initial, s, h);
    if before.result.Ok? { TurnAdds(u, decoded, before.result.value, f, s, h, before.store, level); }
  }

  /** The counters without one of the turns, and that turn. */
  ghost predicate GatherSplits(all: Result<Gathered, Failure>, i: nat, rest: Result<Gathered, Failure>,
                               turn: Result<Turn, Failure>)
  {
    (all.Ok? <==> rest.Ok? && turn.Ok?) &&
    (all.Ok? ==>
       i < |all.value.cells| && all.value.cells[i] == turn.value.cell &&
         Without(all.value.cells, i) == rest.value.cells &&
       all.value.(cells := []) == Plus(rest.value, turn.value).(cells := []))
  }

  lemma GatherSplitsSnoc(before: Result<Gathered, Failure>, i: nat, rest: Result<Gathered, Failure>,
                         turn: Result<Turn, Failure>, last: Result<Turn, Failure>, all: Result<Gathered, Failure>,
                         others: Result<Gathered, Failure>)
    requires GatherSplits(before, i, rest, turn) && Adds(before, last, all) && Adds(rest, last, others)
    ensures GatherSplits(all, i, others, turn)
  {
    if all.Ok? { WithoutSnoc(before.value.cells, i, last.value.cell); }
  }

  /** The field at `i` might as well come last. */
  ghost predicate GathersLast(u: Unmarshaler, fields: seq<Field>, i: nat, s: Scope, h: Store)
    requires i < |fields|
  {
    GatherSplits(GatherEmbedded(u, fields, s, h).result, i, GatherEmbedded(u, Without(fields, i), s, h).result,
                 TurnOf(u, fields[i], s, h))
  }

  lemma GatherIsLast(u: Unmarshaler, decoded: Decoder, fields: seq<Field>, s: Scope, h: Store, level: Level)
    requires Decodes(u.lib, decoded) && fields != [] && Quiet(u, fields) && LevelStands(h, s.level, level)
    ensures GathersLast(u, fields, |fields| - 1, s, h)
  {
    var n := |fields| - 1;
    GatherLast(u, decoded, fields, s, h, level);
    GatherCount(u, fields[..n], s, h);
    assert Without(fields, n) == fields[..n];
  }

  lemma GatherIsNotLast(u: Unmarshaler, decoded: Decoder, fields: seq<Field>, i: nat, s: Scope, h: Store, level: Level)
    requires i < |fields| - 1 && Decodes(u.lib, decoded) && Quiet(u, fields) && LevelStands(h, s.level, level)
    requires GathersLast(u, fields[..|fields| - 1], i, s, h)
    ensures GathersLast(u, fields, i, s, h)
  {
    var initial, last := fields[..|fields| - 1], fields[|fields| - 1];
    GatherLast(u, decoded, fields, s, h, level);
    LastOfOthers(u, decoded, fields, i, s, h, level);
    assert initial[i] == fields[i];
    GatherSplitsSnoc(GatherEmbedded(u, initial, s, h).result, i, GatherEmbedded(u, Without(initial, i), s, h).result,
                     TurnOf(u, fields[i], s, h), TurnOf(u, last, s, h),
                     GatherEmbedded(u, fields, s, h).result, GatherEmbedded(u, Without(fields, i), s, h).result);
  }

  lemma {:induction false} GatherAnyLast(u: Unmarshaler, decoded: Decoder, fields: seq<Field>, i: nat, s: Scope,
                                         h: Store, level: Level)
    requires i < |fields| && Decodes(u.lib, decoded) && Quiet(u, fields) && LevelStands(h, s.level, level)
    ensures GathersLast(u, fields, i, s, h)
    decreases |fields|
  {
    if i == |fields| - 1 {
      GatherIsLast(u, decoded, fields, s, h, level);
    } else {
      GatherAnyLast(u, decoded, fields[..|fields| - 1], i, s, h, level);
      GatherIsNotLast(u, decoded, fields, i, s, h, level);
    }
  }

  lemma {:induction false} GatherCount(u: Unmarshaler, fields: seq<Field>, s: Scope, h: Store)
    ensures var g := GatherEmbedded(u, fields, s, h).result; g.Ok? ==> |g.value.cells| == |fields|
  {
    if fields != [] { GatherCount(u, fields[..|fields| - 1], s, h); }
  }

  /** Both loops gather the same, up to the order of the cells. */
  ghost predicate GathersAlike(fs: seq<Field>, gs: seq<Field>, x: Result<Gathered, Failure>,
                               y: Result<Gathered, Failure>)
  {
    (x.Ok? <==> y.Ok?) &&
    (x.Ok? ==> x.value.(cells := []) == y.value.(cells := []) && CellsAlike(fs, gs, x.value.cells, y.value.cells))
  }

  ghost predicate TurnsAlike(s: Type, t: Type, x: Result<Turn, Failure>, y: Result<Turn, Failure>)
  {
    (x.Ok? <==> y.Ok?) &&
    (x.Ok? ==>
       x.value.has == y.value.has && x.value.needed == y.value.needed && CellAlike(s, t, x.value.cell, y.value.cell))
  }

  // ---------- Scalars ----------

  lemma {:induction false} SameAlike(s: Type, t: Type, a: Target)
    requires FieldInfos.Reordered(s, t) && Deref(s).Scalar?
    ensures Deref(t) == Deref(s) && Alike(s, t, a, a)
  {
    if s.PtrTo? { SameAlike(s.elem, t.elem, a); }
  }

  /** Conversions to scalars have nothing to do with fields; to other types they fail. */
  lemma ScalarsAlike(u: Unmarshaler, s: Type, t: Type, val: Ref, o: Option<ContextOptions>)
    requires FieldInfos.Reordered(s, t)
    ensures RunsAlike(s, t, ScalarNotFromString(u, s, val, o), ScalarNotFromString(u, t, val, o))
    ensures Deref(s).Scalar? ==> RunsAlike(s, t, ScalarWithValue(u, s, val, o), ScalarWithValue(u, t, val, o))
  {
    FieldInfos.DerefReordered(s, t);
    if Deref(s).Scalar? {
      SameBase(s, t);
      SameRuns(s, t, ScalarNotFromString(u, s, val, o));
      SameRuns(s, t, ScalarWithValue(u, s, val, o));
    }
  }

  lemma SameRuns(s: Type, t: Type, x: Cell)
    requires FieldInfos.Reordered(s, t) && Deref(s).Scalar?
    ensures RunsAlike(s, t, x, x)
  {
    if x.Ok? && x.value.Some? { SameAlike(s, t, x.value.value); }
  }

  lemma {:induction false} SameBase(s: Type, t: Type)
    requires FieldInfos.Reordered(s, t) && Deref(s).Scalar?
    ensures Deref(t) == Deref(s)
  {
    if s.PtrTo? { SameBase(s.elem, t.elem); }
  }

  lemma ElementsAlike(u: Unmarshaler, s: Type, t: Type, val: Ref)
    requires FieldInfos.Reordered(s, t)
    ensures RunsAlike(s, t, ScalarItem(u, Deref(s), val), ScalarItem(u, Deref(t), val))
    ensures RunsAlike(s, t, ScalarEntry(u, Deref(s), val), ScalarEntry(u, Deref(t), val))
  {
    FieldInfos.DerefReordered(s, t);
    if Deref(s).Scalar? {
      SameBase(s, t);
      SameRuns(s, t, ScalarItem(u, Deref(s), val));
      SameRuns(s, t, ScalarEntry(u, Deref(s), val));
    }
  }

  lemma TextsAlike(u: Unmarshaler, s: Type, t: Type, d: string, o: Option<ContextOptions>)
    requires FieldInfos.Reordered(s, t)
    ensures RunsAlike(s, t, SetFromString(u, Deref(s), d), SetFromString(u, Deref(t), d))
    ensures RunsAlike(s, t, FromEnv(u, s, d, o), FromEnv(u, t, d, o))
    ensures Deref(s) == Scalar(KDuration) ==> RunsAlike(s, t, SetDuration(u, d), SetDuration(u, d))
  {
    FieldInfos.DerefReordered(s, t);
    if Deref(s).Scalar? {
      SameBase(s, t);
      SameRuns(s, t, SetFromString(u, Deref(s), d));
      SameRuns(s, t, FromEnv(u, s, d, o));
      SameRuns(s, t, SetDuration(u, d));
    }
  }
}
