/**
 Optional embedded structs (core/mapping/unmarshaler.go:528-567): all or nothing, decided by a flag and two
 counters.
 */
module Embedded {
  import opened Wrappers
  import opened Types
  import opened Stores
  import opened SharedLookup
  import opened Unmarshal
  import opened StructLoops

  /** The memory as the fields before the `i`-th have left it, those with a value having been processed. */
  function BeforeGiven(u: Unmarshaler, fields: seq<Field>, s: Scope, h: Store, i: nat): Store
    requires i <= |fields|
  {
    GatherEmbedded(u, fields[..i], s, h).store
  }

  /** The field has a value where the embedded struct is unmarshalled. */
  predicate Given(u: Unmarshaler, f: Field, s: Scope, h: Store)
  {
    var po := ParseOptionsWithContext(u, f, Get(h, s.level));
    po.Ok? && Looked(h, s, po.value.key).value.Some?
  }

  /** The field may be left out where the embedded struct is unmarshalled. */
  predicate MayBeMissing(u: Unmarshaler, f: Field, s: Scope, h: Store)
  {
    var po := ParseOptionsWithContext(u, f, Get(h, s.level));
    po.Ok? && IsOptional(po.value.options)
  }

  predicate GivenAt(u: Unmarshaler, fields: seq<Field>, s: Scope, h: Store, i: nat)
    requires i < |fields|
  {
    Given(u, fields[i], s, BeforeGiven(u, fields, s, h, i))
  }

  predicate NeededAt(u: Unmarshaler, fields: seq<Field>, s: Scope, h: Store, i: nat)
    requires i < |fields|
  {
    !MayBeMissing(u, fields[i], s, BeforeGiven(u, fields, s, h, i))
  }

  /** None of the first `n` fields has a value. */
  ghost predicate NoneGiven(u: Unmarshaler, fields: seq<Field>, s: Scope, h: Store, n: nat)
    requires n <= |fields|
  {
    forall i :: 0 <= i < n ==> !GivenAt(u, fields, s, h, i)
  }

  /** Each of the first `n` fields that may not be missing has a value. */
  ghost predicate NeededGiven(u: Unmarshaler, fields: seq<Field>, s: Scope, h: Store, n: nat)
    requires n <= |fields|
  {
    forall i :: 0 <= i < n && NeededAt(u, fields, s, h, i) ==> GivenAt(u, fields, s, h, i)
  }

  /** The cell of a field: processed if it has a value, untouched otherwise. */
  ghost predicate GatheredCell(u: Unmarshaler, f: Field, s: Scope, h: Store, cell: Option<Target>)
  {
    var po := ParseOptionsWithContext(u, f, Get(h, s.level));
    po.Ok? &&
    if !Given(u, f, s, h) then cell == None
    else ProcessField(u, f, s, Looked(h, s, po.value.key).store).result == Ok(cell)
  }

  ghost predicate GatheredAt(u: Unmarshaler, fields: seq<Field>, s: Scope, h: Store, i: nat, cell: Option<Target>)
    requires i < |fields|
  {
    GatheredCell(u, fields[i], s, BeforeGiven(u, fields, s, h, i), cell)
  }

  ghost predicate CellsRight(u: Unmarshaler, fields: seq<Field>, s: Scope, h: Store, n: nat, cells: seq<Option<Target>>)
    requires n <= |fields|
  {
    |cells| == n && forall i :: 0 <= i < n ==> GatheredAt(u, fields, s, h, i, cells[i])
  }

  /** What the loop has after the first `n` fields: the cells, and what flag and counters say. */
  ghost predicate CountsRight(u: Unmarshaler, fields: seq<Field>, s: Scope, h: Store, n: nat, g: Gathered)
    requires n <= |fields|
  {
    (g.filled <==> !NoneGiven(u, fields, s, h, n)) &&
    g.requiredFilled <= g.required && (g.requiredFilled == g.required <==> NeededGiven(u, fields, s, h, n)) &&
    CellsRight(u, fields, s, h, n, g.cells) && (!g.filled ==> forall c :: c in g.cells ==> c == None)
  }

  /** One turn of the loop, in the terms above. */
  lemma TurnCounts(u: Unmarshaler, g: Gathered, f: Field, s: Scope, h: Store)
    requires GatherField(u, g, f, s, h).result.Ok?
    ensures var next := GatherField(u, g, f, s, h).result.value;
            var has, needed := Given(u, f, s, h), !MayBeMissing(u, f, s, h);
            next.filled == (g.filled || has) && next.required == g.required + (if needed then 1 else 0) &&
            next.requiredFilled == g.requiredFilled + (if needed && has then 1 else 0) &&
            |next.cells| == |g.cells| + 1 && next.cells[..|g.cells|] == g.cells &&
            GatheredCell(u, f, s, h, next.cells[|g.cells|])
  {
  }

  lemma NoneOneMore(u: Unmarshaler, fields: seq<Field>, s: Scope, h: Store, n: nat)
    requires n < |fields|
    ensures NoneGiven(u, fields, s, h, n + 1) <==> NoneGiven(u, fields, s, h, n) && !GivenAt(u, fields, s, h, n)
  {
  }

  lemma NeededOneMore(u: Unmarshaler, fields: seq<Field>, s: Scope, h: Store, n: nat)
    requires n < |fields|
    ensures NeededGiven(u, fields, s, h, n + 1) <==>
              NeededGiven(u, fields, s, h, n) && (NeededAt(u, fields, s, h, n) ==> GivenAt(u, fields, s, h, n))
  {
  }

  lemma CellsOneMore(u: Unmarshaler, fields: seq<Field>, s: Scope, h: Store, n: nat, cells: seq<Option<Target>>,
                     cell: Option<Target>)
    requires n < |fields| && CellsRight(u, fields, s, h, n, cells) && GatheredAt(u, fields, s, h, n, cell)
    ensures CellsRight(u, fields, s, h, n + 1, cells + [cell])
  {
  }

  lemma CountOneMore(u: Unmarshaler, fields: seq<Field>, s: Scope, h: Store, n: nat, g: Gathered)
    requires n < |fields| && CountsRight(u, fields, s, h, n, g)
    requires GatherField(u, g, fields[n], s, BeforeGiven(u, fields, s, h, n)).result.Ok?
    ensures CountsRight(u, fields, s, h, n + 1,
                        GatherField(u, g, fields[n], s, BeforeGiven(u, fields, s, h, n)).result.value)
  {
    var next := GatherField(u, g, fields[n], s, BeforeGiven(u, fields, s, h, n)).result.value;
    TurnCounts(u, g, fields[n], s, BeforeGiven(u, fields, s, h, n));
    NoneOneMore(u, fields, s, h, n);
    NeededOneMore(u, fields, s, h, n);
    assert next.cells == g.cells + [next.cells[n]];
    CellsOneMore(u, fields, s, h, n, g.cells, next.cells[n]);
  }

  lemma GatherOneMore(u: Unmarshaler, fields: seq<Field>, s: Scope, h: Store, n: nat)
    requires n < |fields|
    ensures GatherEmbedded(u, fields[..n + 1], s, h) ==
            var g := GatherEmbedded(u, fields[..n], s, h);
            if g.result.Err? then g else GatherField(u, g.result.value, fields[n], s, g.store)
  {
    assert fields[..n + 1][..n] == fields[..n];
  }

  /** What the counters count, for any number of fields. */
  lemma {:induction false} CountersDecide(u: Unmarshaler, fields: seq<Field>, s: Scope, h: Store, n: nat)
    requires n <= |fields| && GatherEmbedded(u, fields[..n], s, h).result.Ok?
    ensures CountsRight(u, fields, s, h, n, GatherEmbedded(u, fields[..n], s, h).result.value)
  {
    if n > 0 {
      GatherOneMore(u, fields, s, h, n - 1);
      CountersDecide(u, fields, s, h, n - 1);
      CountOneMore(u, fields, s, h, n - 1, GatherEmbedded(u, fields[..n - 1], s, h).result.value);
    }
  }

  lemma WholeStruct(u: Unmarshaler, fields: seq<Field>, s: Scope, h: Store)
    requires GatherEmbedded(u, fields, s, h).result.Ok?
    ensures CountsRight(u, fields, s, h, |fields|, GatherEmbedded(u, fields, s, h).result.value)
  {
    assert fields[..|fields|] == fields;
    CountersDecide(u, fields, s, h, |fields|);
  }

  /**
   If an optional embedded struct is unmarshalled successfully, then either none of its fields has a value
   and it is untouched, or every field that may not be missing has a value.
   */
  lemma EmbeddedAllOrNothing(u: Unmarshaler, fields: seq<Field>, s: Scope, h: Store)
    requires EmbeddedOptional(u, fields, s, h).result.Ok?
    ensures NoneGiven(u, fields, s, h, |fields|) || NeededGiven(u, fields, s, h, |fields|)
    ensures NoneGiven(u, fields, s, h, |fields|) <==> EmbeddedOptional(u, fields, s, h).result.value == None
  {
    WholeStruct(u, fields, s, h);
  }

  /** And once its fields can be processed, exactly the half-filled structs are refused. */
  lemma EmbeddedRefusedExactly(u: Unmarshaler, fields: seq<Field>, s: Scope, h: Store)
    requires GatherEmbedded(u, fields, s, h).result.Ok?
    ensures EmbeddedOptional(u, fields, s, h).result.Ok? <==>
              NoneGiven(u, fields, s, h, |fields|) || NeededGiven(u, fields, s, h, |fields|)
  {
    WholeStruct(u, fields, s, h);
  }

  // ---------- The loop ----------

  lemma {:induction false} GatherErrorCounts(u: Unmarshaler, fields: seq<Field>, s: Scope, h: Store, i: nat)
    requires i <= |fields| && GatherEmbedded(u, fields[..i], s, h).result.Err?
    ensures GatherEmbedded(u, fields, s, h) == GatherEmbedded(u, fields[..i], s, h)
    decreases |fields| - i
  {
    if i < |fields| {
      assert fields[..i + 1][..i] == fields[..i];
      GatherErrorCounts(u, fields, s, h, i + 1);
    } else {
      assert fields[..i] == fields;
    }
  }

  /** What an optional embedded struct of type `fields` holds afterwards. */
  function Embed(was: seq<Option<Target>>, cell: Option<Target>): seq<Option<Target>>
  {
    match cell
    case Some(Record(cells)) => if |cells| <= |was| then Over(was, cells) else was
    case _ => was
  }

  /** What the caller of `processAnonymousStructFieldOptional` sees of a result. */
  ghost predicate Returned(run: Done<Option<Target>>, was: seq<Option<Target>>, now: seq<Option<Target>>,
                           memory: Store, error: Option<Failure>)
  {
    memory == run.store &&
    match run.result
    case Err(e) => error == Some(e)
    case Ok(cell) => error == None && now == Embed(was, cell)
  }

  /** The state of the loop after the first `i` fields. */
  ghost predicate Gathering(u: Unmarshaler, fields: seq<Field>, s: Scope, h: Store, i: nat, g: Gathered,
                            was: seq<Option<Target>>, now: seq<Option<Target>>, memory: Store)
  {
    i <= |fields| == |was| && |g.cells| == i && GatherEmbedded(u, fields[..i], s, h) == Done(Ok(g), memory) &&
    now == Over(was, g.cells)
  }

  lemma LoopStarts(u: Unmarshaler, fields: seq<Field>, s: Scope, h: Store, was: seq<Option<Target>>)
    requires |fields| == |was|
    ensures Gathering(u, fields, s, h, 0, NONE_GATHERED, was, was, h)
  {
    OverNothing(was, []);
  }

  lemma LoopFails(u: Unmarshaler, fields: seq<Field>, s: Scope, h: Store, i: nat, g: Gathered,
                  was: seq<Option<Target>>, now: seq<Option<Target>>, memory: Store)
    requires i < |fields| && Gathering(u, fields, s, h, i, g, was, now, memory)
    requires GatherField(u, g, fields[i], s, memory).result.Err?
    ensures var run := GatherField(u, g, fields[i], s, memory);
            Returned(EmbeddedOptional(u, fields, s, h), was, now, run.store, Some(run.result.error))
  {
    GatherOneMore(u, fields, s, h, i);
    GatherErrorCounts(u, fields, s, h, i + 1);
  }

  lemma LoopTurns(u: Unmarshaler, fields: seq<Field>, s: Scope, h: Store, i: nat, g: Gathered, cell: Option<Target>,
                  was: seq<Option<Target>>, now: seq<Option<Target>>, memory: Store)
    requires i < |fields| && Gathering(u, fields, s, h, i, g, was, now, memory)
    requires var run := GatherField(u, g, fields[i], s, memory).result; run.Ok? && run.value.cells == g.cells + [cell]
    ensures var run := GatherField(u, g, fields[i], s, memory);
            i < |now| && Gathering(u, fields, s, h, i + 1, run.result.value, was,
                                   now[i := if cell.Some? then cell else now[i]], run.store)
  {
    GatherOneMore(u, fields, s, h, i);
    OverOneMore(was, g.cells, cell);
  }

  lemma LoopEnds(u: Unmarshaler, fields: seq<Field>, s: Scope, h: Store, g: Gathered,
                 was: seq<Option<Target>>, now: seq<Option<Target>>, memory: Store)
    requires Gathering(u, fields, s, h, |fields|, g, was, now, memory)
    ensures Returned(EmbeddedOptional(u, fields, s, h), was, now, memory,
                     if g.filled && g.required != g.requiredFilled then Some(NotFullySet) else None)
  {
    assert fields[..|fields|] == fields;
    WholeStruct(u, fields, s, h);
    if !g.filled { OverNothing(was, g.cells); }
  }

  /** `processAnonymousStructFieldOptional`: one loop, a flag and two counters. */
  method ProcessEmbeddedOptional(u: Unmarshaler, fields: seq<Field>, s: Scope, memory: Maps, target: StructValue)
    returns (error: Option<Failure>)
    requires |target.cells| == |fields|
    modifies memory, target
    ensures Returned(EmbeddedOptional(u, fields, s, old(memory.maps)), old(target.cells), target.cells, memory.maps,
                     error)
  {
    var filled := false;
    var required, requiredFilled := 0, 0;
    var i := 0;
    ghost var h, was, g := memory.maps, target.cells, NONE_GATHERED;
    LoopStarts(u, fields, s, h, was);
    while i < |fields|
      invariant 0 <= i <= |fields| == |target.cells|
      invariant Gathering(u, fields, s, h, i, g, was, target.cells, memory.maps)
      invariant g.filled == filled && g.required == required && g.requiredFilled == requiredFilled
    {
      var f := fields[i];
      ghost var next := GatherField(u, g, f, s, memory.maps);
      if next.result.Err? { LoopFails(u, fields, s, h, i, g, was, target.cells, memory.maps); }
      var po := ParseOptionsWithContext(u, f, Get(memory.maps, s.level));
      if po.Err? {
        return Some(po.error);
      }
      var looked := Looked(memory.maps, s, po.value.key);
      var hasValue := looked.value.Some?;
      if hasValue {
        filled := true;
        var cell := ProcessField(u, f, s, looked.store);
        if cell.result.Ok? { LoopTurns(u, fields, s, h, i, g, cell.result.value, was, target.cells, memory.maps); }
        memory.maps := cell.store;
        if cell.result.Err? {
          return Some(cell.result.error);
        }
        target.Set(i, cell.result.value);
      } else {
        LoopTurns(u, fields, s, h, i, g, None, was, target.cells, memory.maps);
        assert target.cells[i := target.cells[i]] == target.cells;
        memory.maps := looked.store;
      }
      if !IsOptional(po.value.options) {
        required := required + 1;
        if hasValue {
          requiredFilled := requiredFilled + 1;
        }
      }
      g := next.result.value;
      i := i + 1;
    }
    LoopEnds(u, fields, s, h, g, was, target.cells, memory.maps);
    if filled && required != requiredFilled {
      return Some(NotFullySet);
    }
    return None;
  }
}
