/**
 The loops of core/mapping/unmarshaler.go and utils.go as they run, writing into a struct and into the
 input's maps in place, and what the two counters of an optional embedded struct decide.
 */
module StructLoops {
  import opened Wrappers
  import opened Types
  import opened Tags
  import opened Stores
  import opened SharedLookup
  import opened Unmarshal

  /** A struct being filled: one cell per field. */
  class StructValue {
    var cells: seq<Option<Target>>

    constructor (n: nat)
      ensures |cells| == n && forall c :: c in cells ==> c == None
    {
      cells := seq(n, _ => None);
    }

    method Set(i: nat, cell: Option<Target>)
      requires i < |cells|
      modifies this
      ensures cells == old(cells)[i := if cell.Some? then cell else old(cells)[i]]
    {
      if cell.Some? {
        cells := cells[i := cell];
      }
    }
  }

  /** What a struct holds once the touched cells are written over it. */
  function Over(was: seq<Option<Target>>, cells: seq<Option<Target>>): (r: seq<Option<Target>>)
    requires |cells| <= |was|
    ensures |r| == |was|
  {
    seq(|was|, i requires 0 <= i < |was| => if i < |cells| && cells[i].Some? then cells[i] else was[i])
  }

  lemma OverOneMore(was: seq<Option<Target>>, cells: seq<Option<Target>>, cell: Option<Target>)
    requires |cells| < |was|
    ensures Over(was, cells + [cell]) ==
            Over(was, cells)[|cells| := if cell.Some? then cell else Over(was, cells)[|cells|]]
  {
  }

  lemma OverNothing(was: seq<Option<Target>>, cells: seq<Option<Target>>)
    requires |cells| <= |was| && forall c :: c in cells ==> c == None
    ensures Over(was, cells) == was
  {
    forall i | 0 <= i < |cells| ensures cells[i] == None {
      assert cells[i] in cells;
    }
  }

  // ---------- Structs ----------

  /** The memory as the fields before the `i`-th have left it. */
  function Before(u: Unmarshaler, fields: seq<Field>, s: Scope, h: Store, i: nat): Store
    requires i <= |fields|
  {
    ProcessFields(u, fields[..i], s, h).store
  }

  /** What processing the `i`-th field alone yields there. */
  ghost predicate CellAt(u: Unmarshaler, fields: seq<Field>, s: Scope, h: Store, i: nat, cell: Option<Target>)
    requires i < |fields|
  {
    ProcessField(u, fields[i], s, Before(u, fields, s, h, i)).result == Ok(cell)
  }

  /** On success each field holds what processing it yields, in the memory that the fields before it have left. */
  lemma {:induction false} CellsFieldwise(u: Unmarshaler, fields: seq<Field>, s: Scope, h: Store)
    requires ProcessFields(u, fields, s, h).result.Ok?
    ensures var cells := ProcessFields(u, fields, s, h).result.value;
            |cells| == |fields| && forall i :: 0 <= i < |fields| ==> CellAt(u, fields, s, h, i, cells[i])
  {
    if fields != [] {
      var n := |fields| - 1;
      CellsFieldwise(u, fields[..n], s, h);
      var cells := ProcessFields(u, fields, s, h).result.value;
      LastCell(u, fields, s, h);
      forall i | 0 <= i < n ensures CellAt(u, fields, s, h, i, cells[i]) {
        assert fields[..n][..i] == fields[..i] && CellAt(u, fields[..n], s, h, i, cells[..n][i]);
      }
    }
  }

  lemma LastCell(u: Unmarshaler, fields: seq<Field>, s: Scope, h: Store)
    requires fields != [] && ProcessFields(u, fields, s, h).result.Ok?
    ensures var n := |fields| - 1;
            var initial := ProcessFields(u, fields[..n], s, h).result;
            var cells := ProcessFields(u, fields, s, h).result.value;
            initial.Ok? && |cells| == |initial.value| + 1 && cells[..|cells| - 1] == initial.value &&
            CellAt(u, fields, s, h, n, cells[|cells| - 1])
  {
    var n := |fields| - 1;
    var initial := ProcessFields(u, fields[..n], s, h);
    assert ProcessFields(u, fields, s, h) ==
           Appended(initial.result.value, ProcessField(u, fields[n], s, initial.store));
  }

  lemma ProcessOneMore(u: Unmarshaler, fields: seq<Field>, s: Scope, h: Store, i: nat)
    requires i < |fields| && ProcessFields(u, fields[..i], s, h).result.Ok?
    ensures ProcessFields(u, fields[..i + 1], s, h) ==
            Appended(ProcessFields(u, fields[..i], s, h).result.value,
                     ProcessField(u, fields[i], s, Before(u, fields, s, h, i)))
  {
    assert fields[..i + 1][..i] == fields[..i];
  }

  /** An error at one field is the error of the whole struct. */
  lemma {:induction false} FirstErrorCounts(u: Unmarshaler, fields: seq<Field>, s: Scope, h: Store, i: nat)
    requires i <= |fields| && ProcessFields(u, fields[..i], s, h).result.Err?
    ensures ProcessFields(u, fields, s, h) == ProcessFields(u, fields[..i], s, h)
    decreases |fields| - i
  {
    if i < |fields| {
      assert fields[..i + 1][..i] == fields[..i];
      FirstErrorCounts(u, fields, s, h, i + 1);
    } else {
      assert fields[..i] == fields;
    }
  }

  /** What the caller of `unmarshalWithFullName` sees: the error, if any, and the struct and the maps afterwards. */
  ghost predicate Outcome(run: Done<seq<Option<Target>>>, was: seq<Option<Target>>, now: seq<Option<Target>>,
                          memory: Store, error: Option<Failure>)
  {
    memory == run.store &&
    match run.result
    case Err(e) => error == Some(e)
    case Ok(cells) => error == None && |cells| <= |was| && now == Over(was, cells)
  }

  /** The state of the loop after the first `i` fields. */
  ghost predicate Filling(u: Unmarshaler, fields: seq<Field>, s: Scope, h: Store, i: nat,
                          was: seq<Option<Target>>, now: seq<Option<Target>>, memory: Store)
  {
    i <= |fields| == |was| && memory == Before(u, fields, s, h, i) &&
    var run := ProcessFields(u, fields[..i], s, h).result;
    run.Ok? && |run.value| == i && now == Over(was, run.value)
  }

  lemma FillingStarts(u: Unmarshaler, fields: seq<Field>, s: Scope, h: Store, was: seq<Option<Target>>)
    requires |fields| == |was|
    ensures Filling(u, fields, s, h, 0, was, was, h)
  {
    OverNothing(was, []);
  }

  lemma FillingTurns(u: Unmarshaler, fields: seq<Field>, s: Scope, h: Store, i: nat,
                     was: seq<Option<Target>>, now: seq<Option<Target>>, memory: Store)
    requires i < |fields| && Filling(u, fields, s, h, i, was, now, memory)
    ensures var cell := ProcessField(u, fields[i], s, memory);
            if cell.result.Err? then Outcome(ProcessFields(u, fields, s, h), was, now, cell.store,
                                             Some(cell.result.error))
            else i < |now| && Filling(u, fields, s, h, i + 1, was,
                                      now[i := if cell.result.value.Some? then cell.result.value else now[i]],
                                        cell.store)
  {
    ProcessOneMore(u, fields, s, h, i);
    var cell := ProcessField(u, fields[i], s, memory);
    if cell.result.Err? {
      FirstErrorCounts(u, fields, s, h, i + 1);
    } else {
      OverOneMore(was, ProcessFields(u, fields[..i], s, h).result.value, cell.result.value);
    }
  }

  /** `unmarshalWithFullName`: the fields in order, until one fails. */
  method UnmarshalInto(u: Unmarshaler, fields: seq<Field>, s: Scope, memory: Maps, target: StructValue)
    returns (error: Option<Failure>)
    requires |target.cells| == |fields|
    modifies memory, target
    ensures Outcome(ProcessFields(u, fields, s, old(memory.maps)), old(target.cells), target.cells, memory.maps, error)
  {
    ghost var h, was := memory.maps, target.cells;
    var i := 0;
    FillingStarts(u, fields, s, h, was);
    while i < |fields|
      invariant 0 <= i <= |fields| == |target.cells|
      invariant Filling(u, fields, s, h, i, was, target.cells, memory.maps)
    {
      FillingTurns(u, fields, s, h, i, was, target.cells, memory.maps);
      var cell := ProcessField(u, fields[i], s, memory.maps);
      memory.maps := cell.store;
      if cell.result.Err? {
        return Some(cell.result.error);
      }
      target.Set(i, cell.result.value);
      i := i + 1;
    }
    assert fields[..i] == fields;
    return None;
  }

  lemma RequiredRest(u: Unmarshaler, fields: seq<Field>, i: nat)
    requires i < |fields|
    ensures fields[i..] != [] && fields[i..][0] == fields[i] && fields[i..][1..] == fields[i + 1..]
  {
  }

  /** `implicitValueRequiredStruct`, with its loop. */
  method ImplicitValueRequiredStruct(u: Unmarshaler, fields: seq<Field>) returns (r: Result<bool, Failure>)
    ensures r == ValueRequired(u, fields)
    decreases fields
  {
    var i := 0;
    while i < |fields|
      invariant 0 <= i <= |fields|
      invariant ValueRequired(u, fields) == ValueRequired(u, fields[i..])
    {
      var f := fields[i];
      RequiredRest(u, fields, i);
      if f.tag.OtherKeys? {
        return Ok(true);
      }
      var parsed := ParseKeyAndOptions(u, f);
      if parsed.Err? {
        return Err(parsed.error);
      }
      if parsed.value.options.None? {
        if !f.tp.Struct? {
          return Ok(true);
        }
        var inner := ImplicitValueRequiredStruct(u, f.tp.fields);
        if inner.Err? || inner.value {
          return inner;
        }
      } else {
        var fo := parsed.value.options.value;
        if !fo.context.optional && |fo.context.default| == 0 {
          return Ok(true);
        } else if |fo.optionalDep| > 0 && fo.optionalDep[0] == '!' {
          return Ok(true);
        }
      }
      i := i + 1;
    }
    return Ok(false);
  }

  // ---------- Slices and maps ----------

  lemma {:induction false} FirstItemErrorCounts(u: Unmarshaler, elem: Type, items: seq<Ref>, h: Store, i: nat)
    requires i <= |items| && FillItems(u, elem, items[..i], h).result.Err?
    ensures FillItems(u, elem, items, h) == FillItems(u, elem, items[..i], h)
    decreases |items| - i
  {
    if i < |items| {
      assert items[..i + 1][..i] == items[..i];
      FirstItemErrorCounts(u, elem, items, h, i + 1);
    } else {
      assert items[..i] == items;
    }
  }

  lemma NullsSnoc(items: seq<Ref>, i: nat)
    requires i < |items|
    ensures AllNull(items[..i + 1]) <==> AllNull(items[..i]) && items[i].Null?
  {
    assert items[..i + 1] == items[..i] + [items[i]];
  }

  lemma ItemTurns(u: Unmarshaler, elem: Type, items: seq<Ref>, h: Store, i: nat, cells: seq<Option<Target>>,
                  memory: Store)
    requires i < |items| && FillItems(u, elem, items[..i], h) == Done(Ok(cells), memory)
    ensures var cell := if items[i].Null? then Done(Ok(None), memory) else FillItem(u, elem, items[i], memory);
            FillItems(u, elem, items[..i + 1], h) == Appended(cells, cell) &&
            (cell.result.Err? ==> FillSlice(u, elem, items, h) == Done(Err(cell.result.error), cell.store))
  {
    assert items[..i + 1][..i] == items[..i];
    if FillItems(u, elem, items[..i + 1], h).result.Err? { FirstItemErrorCounts(u, elem, items, h, i + 1); }
  }

  lemma ConvOneMore(conv: array<Option<Target>>, i: nat)
    requires i < conv.Length
    ensures conv[..i + 1] == conv[..i] + [conv[i]]
  {
  }

  /** `fillSlice`: a new slice, filled in place, and a flag for whether any element was not null. */
  method FillSliceInto(u: Unmarshaler, elem: Type, items: seq<Ref>, memory: Maps) returns (r: Cell)
    modifies memory
    ensures Done(r, memory.maps) == FillSlice(u, elem, items, old(memory.maps))
  {
    if |items| == 0 {
      return Ok(Some(Items([])));
    }
    ghost var h := memory.maps;
    var valid := false;
    var conv := new Option<Target>[|items|](_ => None);
    var i := 0;
    while i < |items|
      invariant 0 <= i <= |items|
      invariant FillItems(u, elem, items[..i], h) == Done(Ok(conv[..i]), memory.maps)
      invariant forall j :: i <= j < |items| ==> conv[j] == None
      invariant valid <==> !AllNull(items[..i])
    {
      NullsSnoc(items, i);
      ItemTurns(u, elem, items, h, i, conv[..i], memory.maps);
      if !items[i].Null? {
        valid := true;
        var cell := FillItem(u, elem, items[i], memory.maps);
        memory.maps := cell.store;
        if cell.result.Err? {
          return Err(cell.result.error);
        }
        conv[i] := cell.result.value;
      }
      ConvOneMore(conv, i);
      i := i + 1;
    }
    assert items[..i] == items && conv[..i] == conv[..];
    return if valid then Ok(Some(Items(conv[..]))) else Ok(None);
  }

  lemma {:induction false} FirstEntryErrorCounts(u: Unmarshaler, elem: Type, entries: Entries, keys: seq<string>,
                                                 h: Store, i: nat)
    requires i <= |keys| && FillEntries(u, elem, entries, keys[..i], h).result.Err?
    ensures FillEntries(u, elem, entries, keys, h) == FillEntries(u, elem, entries, keys[..i], h)
    decreases |keys| - i
  {
    if i < |keys| {
      assert keys[..i + 1][..i] == keys[..i];
      FirstEntryErrorCounts(u, elem, entries, keys, h, i + 1);
    } else {
      assert keys[..i] == keys;
    }
  }

  /** The state of the loop after the first `i` keys. */
  ghost predicate Tabulating(u: Unmarshaler, elem: Type, entries: Entries, keys: seq<string>, h: Store, i: nat,
                             filled: map<string, Target>, memory: Store)
  {
    i <= |keys| && FillEntries(u, elem, entries, keys[..i], h) == Done(Ok(filled), memory)
  }

  lemma EntryTurns(u: Unmarshaler, elem: Type, entries: Entries, keys: seq<string>, h: Store, i: nat,
                   filled: map<string, Target>, memory: Store)
    requires i < |keys| && keys[i] in entries && Tabulating(u, elem, entries, keys, h, i, filled, memory)
    ensures var cell := FillEntry(u, elem, entries[keys[i]], memory);
            if cell.result.Err? then Tabled(FillEntries(u, elem, entries, keys, h)) ==
              Done(Err(cell.result.error), cell.store)
            else cell.result.value.Some? &&
                 Tabulating(u, elem, entries, keys, h, i + 1, filled[keys[i] := cell.result.value.value], cell.store)
  {
    assert keys[..i + 1][..i] == keys[..i];
    var cell := FillEntry(u, elem, entries[keys[i]], memory);
    assert FillEntries(u, elem, entries, keys[..i + 1], h) == Added(filled, keys[i], cell);
    if cell.result.Err? {
      FirstEntryErrorCounts(u, elem, entries, keys, h, i + 1);
    } else {
      EntryFills(u, elem, entries[keys[i]], memory);
    }
  }

  lemma TabulatingEnds(u: Unmarshaler, elem: Type, loc: Loc, h: Store, filled: map<string, Target>, memory: Store)
    requires var keys := u.lib.order(Get(h, loc).Keys);
             Tabulating(u, elem, Get(h, loc), keys, h, |keys|, filled, memory)
    ensures FillMap(u, elem, loc, h) == Done(Ok(Some(Table(filled))), memory)
  {
    var keys := u.lib.order(Get(h, loc).Keys);
    assert keys[..|keys|] == keys;
  }

  lemma EntryFills(u: Unmarshaler, elem: Type, val: Ref, h: Store)
    requires FillEntry(u, elem, val, h).result.Ok?
    ensures FillEntry(u, elem, val, h).result.value.Some?
  {
  }

  /** `generateMap`: a new map, filled in the order in which the keys come. */
  method GenerateMap(u: Unmarshaler, elem: Type, loc: Loc, memory: Maps) returns (r: Cell)
    requires Lists(u.lib.order(Get(memory.maps, loc).Keys), Get(memory.maps, loc).Keys)
    modifies memory
    ensures Done(r, memory.maps) == FillMap(u, elem, loc, old(memory.maps))
  {
    ghost var h := memory.maps;
    var entries := Get(memory.maps, loc);
    var keys := u.lib.order(entries.Keys);
    var targetValue: map<string, Target> := map[];
    var i := 0;
    while i < |keys|
      invariant 0 <= i <= |keys|
      invariant Tabulating(u, elem, entries, keys, h, i, targetValue, memory.maps)
    {
      var key := keys[i];
      assert key in keys;
      EntryTurns(u, elem, entries, keys, h, i, targetValue, memory.maps);
      var cell := FillEntry(u, elem, entries[key], memory.maps);
      memory.maps := cell.store;
      if cell.result.Err? {
        return Err(cell.result.error);
      }
      targetValue := targetValue[key := cell.result.value.value];
      i := i + 1;
    }
    TabulatingEnds(u, elem, loc, h, targetValue, memory.maps);
    return Ok(Some(Table(targetValue)));
  }

  lemma {:induction false} NoEntries(u: Unmarshaler, elem: Type, keys: seq<string>, h: Store)
    ensures FillEntries(u, elem, map[], keys, h) == Done(Ok(map[]), h)
  {
    if keys != [] { NoEntries(u, elem, keys[..|keys| - 1], h); }
  }

  /** Of the types that are no structs, only maps can do without a value and a default. */
  lemma NoneButMaps(u: Unmarshaler, tp: Type, o: Option<ContextOptions>, h: Store)
    requires DefaultOf(o) == "" && !IsOptional(o) && !Deref(tp).Struct?
    ensures WithoutValue(u, tp, o, h).result.Ok? <==> tp.MapOf?
    ensures tp.MapOf? ==> WithoutValue(u, tp, o, h) == Done(Ok(Some(Table(map[]))), h)
  {
    var base := Deref(tp);
    assert base.MapOf? ==> tp.MapOf? || tp.PtrTo?;
    if base.ArrayOf? || base.MapOf? || base.SliceOf? {
      assert WithoutValue(u, tp, o, h) == NotFromString(u, tp, MapAt(EMPTY), None, o, h);
      if tp.MapOf? {
        var none: Entries := map[];
        assert Get(h, EMPTY) == none;
        NoEntries(u, tp.elem, u.lib.order(none.Keys), h);
        assert NotFromString(u, tp, MapAt(EMPTY), None, o, h) == FillMap(u, tp.elem, EMPTY, h);
      }
    }
  }
}
