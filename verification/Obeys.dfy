/**
 What a successful run of the unmarshaller guarantees: every filled field obeys its tag, however its value
 was converted, and nothing required is missing, through nested structs, slices and maps. The input that a
 field obeys is the memory as it is when the field is processed: what it was at first, and what inherited
 lookups of the fields before have added to it.
 */
module Obeys {
  import opened Wrappers
  import opened Types
  import opened Tags
  import opened Stores
  import opened Valuers
  import opened SharedLookup
  import opened Unmarshal
  import opened StructLoops
  import opened Embedded

  /**
   strconv's parsers agree where they overlap, rounding of large integers to float64 being left out, and the
   keys of a map come in some order, each of them once.
   */
  ghost predicate Agreeing(lib: Library)
  {
    (forall s: string, bits: nat :: lib.parseInt(s, bits).Some? ==>
        lib.numerals.parse(s) == Some(lib.parseInt(s, bits).value as real)) &&
    (forall s: string, bits: nat :: lib.parseUint(s, bits).Some? ==>
        lib.numerals.parse(s) == Some(lib.parseUint(s, bits).value as real)) &&
    (forall keys: set<string> :: Lists(lib.order(keys), keys))
  }

  // ---------- What a tag demands ----------

  /** Being optional depends on another field. */
  predicate Dependent(fo: FieldOptions)
  {
    fo.context.optional && fo.optionalDep != ""
  }

  /**
   The options in force for a field: those of its tag, except that an optional field that depends on another
   one and has a value becomes required, and loses its range and its inheritance.
   */
  function Demanded(fo: Option<FieldOptions>, key: string, level: Entries): Option<ContextOptions>
  {
    if fo.None? then None
    else if Dependent(fo.value) && key in level then
      Some(fo.value.context.(optional := false, range := None, inherit := false))
    else Some(fo.value.context)
  }

  /** When a dependent field is consistent with the field it depends on. */
  predicate Consistent(fo: FieldOptions, key: string, level: Entries)
  {
    var dep := fo.optionalDep;
    Dependent(fo) ==>
      if dep[0] == '!' then dep != "!" && (dep[1..] in level <==> key !in level)
      else dep in level <==> key in level
  }

  /** `toOptionsWithContext` for every set of options: when it fails, and what it yields otherwise. */
  lemma ContextExactly(fo: FieldOptions, key: string, level: Entries)
    ensures InContext(fo, key, level).Ok? <==> Consistent(fo, key, level)
    ensures InContext(fo, key, level).Ok? ==> Some(InContext(fo, key, level).value) == Demanded(Some(fo), key, level)
  {
  }

  // ---------- What obeying means ----------

  predicate Skipped(u: Unmarshaler, f: Field)
  {
    var parsed := ParseKeyAndOptions(u, f);
    f.tag.OtherKeys? || (parsed.Ok? && parsed.value.key == "-") ||
    (!f.exported && !(f.embedded && Deref(f.tp).Struct?))
  }

  predicate FromEnvironment(u: Unmarshaler, o: Option<ContextOptions>)
  {
    o.Some? && o.value.envVar != "" && u.lib.env(o.value.envVar) != ""
  }

  predicate TakesText(u: Unmarshaler, o: Option<ContextOptions>)
  {
    u.fromString || (o.Some? && o.value.fromString)
  }

  ghost predicate FieldsObey(u: Unmarshaler, fields: seq<Field>, s: Scope, h: Store, cells: seq<Option<Target>>)
    decreases fields, 0
  {
    |cells| == |fields| &&
    forall i :: 0 <= i < |fields| ==> FieldObeys(u, fields[i], s, Before(u, fields, s, h, i), cells[i])
  }

  ghost predicate FieldObeys(u: Unmarshaler, f: Field, s: Scope, h: Store, cell: Option<Target>)
    decreases f, 4
  {
    if Skipped(u, f) then cell == None
    else
      var parsed := ParseKeyAndOptions(u, f);
      parsed.Ok? &&
      var o := Demanded(parsed.value.options, parsed.value.key, Get(h, s.level));
      if f.embedded && Deref(f.tp).Struct? then EmbeddedObeys(u, Deref(f.tp).fields, s, h, o, cell)
      else NamedObeys(u, f.tp, Found(h, s, InForce(parsed.value.key, o)), CreateValuer(ValuerOf(s), Inherits(o)), o,
                      cell)
  }

  /** An embedded struct is filled as a whole, or left out as a whole if it is optional. */
  ghost predicate EmbeddedObeys(u: Unmarshaler, fields: seq<Field>, s: Scope, h: Store, o: Option<ContextOptions>,
                                cell: Option<Target>)
    decreases fields, 2
  {
    if cell.None? then IsOptional(o)
    else cell.value.Record? &&
         if IsOptional(o) then GivenFieldsObey(u, fields, s, h, cell.value.cells)
         else FieldsObey(u, fields, s, h, cell.value.cells)
  }

  /** In an optional embedded struct, the fields that have a value obey, and the others may be missing. */
  ghost predicate GivenFieldsObey(u: Unmarshaler, fields: seq<Field>, s: Scope, h: Store, cells: seq<Option<Target>>)
    decreases fields, 1
  {
    |cells| == |fields| &&
    forall i :: 0 <= i < |fields| ==> GivenFieldObeys(u, fields[i], s, BeforeGiven(u, fields, s, h, i), cells[i])
  }

  ghost predicate GivenFieldObeys(u: Unmarshaler, f: Field, s: Scope, h: Store, cell: Option<Target>)
    decreases f, 5
  {
    var parsed := ParseKeyAndOptions(u, f);
    parsed.Ok? &&
    var looked := Looked(h, s, parsed.value.key);
    if looked.value.Some? then FieldObeys(u, f, s, looked.store, cell)
    else cell == None && IsOptional(Demanded(parsed.value.options, parsed.value.key, Get(h, s.level)))
  }

  ghost predicate NamedObeys(u: Unmarshaler, tp: Type, found: Sought, around: Valuer<Loc>, o: Option<ContextOptions>,
                             cell: Option<Target>)
    decreases tp, 3
  {
    var base := Deref(tp);
    if cell.None? then
      IsOptional(o) ||
      (if found.value.Some? then base.SliceOf? && ListOfNulls(found.value.value)
       else (base.SliceOf? || base.ArrayOf?) && DefaultOf(o) != "")
    else if FromEnvironment(u, o) then EnvObeys(u, tp, u.lib.env(o.value.envVar), o, cell.value)
    else if found.value.Some? then ValueObeys(u, base, found.value.value, around, o, cell.value, found.store)
    else if DefaultOf(o) != "" then DefaultObeys(u, base, DefaultOf(o), cell.value, found.store)
    else AbsentObeys(u, base, cell.value, found.store)
  }

  /** A variable's text is one of the options; only numbers are checked against the range. */
  predicate EnvObeys(u: Unmarshaler, tp: Type, s: string, o: Option<ContextOptions>, t: Target)
  {
    t.Leaf? && InOptions(s, OptionsOf(o)) &&
    match tp
    case Scalar(KBool) => u.lib.parseBool(s).Some? && t.datum == Flag(u.lib.parseBool(s).value)
    case Scalar(KDuration) => u.lib.parseDuration(s).Some? && t.datum == Num(u.lib.parseDuration(s).value as real)
    case Scalar(KString) => t.datum == Str(s)
    case _ => Deref(tp).Scalar? && TextObeys(u, Deref(tp).kind, s, o, t.datum)
  }

  /** A default is converted like a text, and checked against neither the options nor the range. */
  ghost predicate DefaultObeys(u: Unmarshaler, base: Type, d: string, t: Target, h: Store)
    decreases base, 1
  {
    match base
    case Scalar(kind) =>
      t.Leaf? &&
      if kind.KDuration? then u.lib.parseDuration(d).Some? && t.datum == Num(u.lib.parseDuration(d).value as real)
      else ConvertFromString(u, kind, d) == Some(t.datum)
    case SliceOf(elem) =>
      t.Items? &&
      if Deref(elem) == Scalar(KString) then ItemsObey(u, elem, Texts(ParseGroupedSegments(d)), t.items, h)
      else
        var list := u.lib.decodeList(h, d);
        list.Some? && ItemsObey(u, elem, list.value.0, t.items, list.value.1)
    case _ => false
  }

  /** Without a value and a default, only maps and structs that need nothing are filled. */
  ghost predicate AbsentObeys(u: Unmarshaler, base: Type, t: Target, h: Store)
    decreases base, 1
  {
    match base
    case MapOf(_) => t == Table(map[])
    case Struct(fields) => t.Record? && FieldsObey(u, fields, Scope(EMPTY, None), h, t.cells)
    case _ => false
  }

  ghost predicate ValueObeys(u: Unmarshaler, base: Type, val: Ref, around: Valuer<Loc>, o: Option<ContextOptions>,
                             t: Target, h: Store)
    decreases base, 1
  {
    match base
    case Scalar(kind) => t.Leaf? && ScalarObeys(u, kind, val, o, t.datum)
    case Struct(fields) => val.MapAt? && t.Record? && FieldsObey(u, fields, Scope(val.loc, Some(around)), h, t.cells)
    case SliceOf(elem) => val.List? ==> t.Items? && ItemsObey(u, elem, val.items, t.items, h)
    case MapOf(elem) => val.MapAt? ==> t.Table? && EntriesObey(u, elem, Get(h, val.loc), t.entries, h)
    case _ => false
  }

  /**
   The field holds the value, converted to its kind, the value is one of the options, and its number is
   within the range. A text that becomes a duration is checked against neither.
   */
  predicate ScalarObeys(u: Unmarshaler, kind: Kind, val: Ref, o: Option<ContextOptions>, d: Datum)
  {
    match val
    case Text(s) =>
      if kind.KDuration? && !TakesText(u, o) then
        u.lib.parseDuration(s).Some? && d == Num(u.lib.parseDuration(s).value as real)
      else TextObeys(u, kind, s, o, d)
    case Number(s) => (kind.KDuration? ==> TakesText(u, o)) && TextObeys(u, kind, s, o, d)
    case _ =>
      var same := SameKind(u, Scalar(kind), val);
      same.Some? && d == same.value.1 && InOptions(same.value.0, OptionsOf(o)) && DatumWithinRange(d, RangeOf(o))
  }

  predicate TextObeys(u: Unmarshaler, kind: Kind, s: string, o: Option<ContextOptions>, d: Datum)
  {
    ConvertFromString(u, kind, s) == Some(d) && InOptions(s, OptionsOf(o)) &&
    (d.Num? ==> WithinRange(d.x, RangeOf(o)))
  }

  /** The memory as the elements before the `i`-th have left it. */
  function ItemsBefore(u: Unmarshaler, elem: Type, items: seq<Ref>, h: Store, i: nat): Store
    requires i <= |items|
  {
    FillItems(u, elem, items[..i], h).store
  }

  /** Null elements are skipped; a list of nulls inside a map becomes an empty one. */
  ghost predicate ItemsObey(u: Unmarshaler, elem: Type, items: seq<Ref>, cells: seq<Option<Target>>, h: Store)
    decreases elem, 3
  {
    if |cells| == |items| then
      forall i :: 0 <= i < |items| ==> ItemObeys(u, elem, items[i], cells[i], ItemsBefore(u, elem, items, h, i))
    else cells == [] && AllNull(items)
  }

  ghost predicate ItemObeys(u: Unmarshaler, elem: Type, val: Ref, cell: Option<Target>, h: Store)
    decreases elem, 2
  {
    if cell.None? then val.Null? || (Deref(elem).SliceOf? && ListOfNulls(val))
    else !val.Null? && ElementObeys(u, elem, val, cell.value, h)
  }

  predicate ListOfNulls(val: Ref)
  {
    val.List? && AllNull(val.items)
  }

  /** The memory as the values of the keys before the `i`-th have left it. */
  function EntriesBefore(u: Unmarshaler, elem: Type, entries: Entries, h: Store, i: nat): Store
    requires i <= |u.lib.order(entries.Keys)|
  {
    FillEntries(u, elem, entries, u.lib.order(entries.Keys)[..i], h).store
  }

  ghost predicate EntriesObey(u: Unmarshaler, elem: Type, entries: Entries, filled: map<string, Target>, h: Store)
    decreases elem, 3
  {
    filled.Keys == entries.Keys &&
    var keys := u.lib.order(entries.Keys);
    forall i :: 0 <= i < |keys| && keys[i] in entries ==>
      ElementObeys(u, elem, entries[keys[i]], filled[keys[i]], EntriesBefore(u, elem, entries, h, i))
  }

  ghost predicate ElementObeys(u: Unmarshaler, elem: Type, val: Ref, t: Target, h: Store)
    decreases elem, 1
  {
    var base := Deref(elem);
    match base
    case Scalar(kind) => t.Leaf? && Holds(u, kind, val, t.datum)
    case Struct(fields) => val.MapAt? && t.Record? && FieldsObey(u, fields, Scope(val.loc, None), h, t.cells)
    case SliceOf(inner) => val.List? && t.Items? && ItemsObey(u, inner, val.items, t.items, h)
    case MapOf(inner) => val.MapAt? && t.Table? && EntriesObey(u, inner, Get(h, val.loc), t.entries, h)
    case _ => false
  }

  /** An element of a list or a map has no tag: it only holds its value. */
  predicate Holds(u: Unmarshaler, kind: Kind, val: Ref, d: Datum)
  {
    match val
    case Text(s) => ConvertFromString(u, kind, s) == Some(d)
    case Number(s) => ConvertFromString(u, kind, s) == Some(d)
    case _ => Assigned(Scalar(kind), val) == Some(d)
  }

  // ---------- Scalars ----------

  lemma ConvertedIsNumber(u: Unmarshaler, kind: Kind, s: string)
    requires Agreeing(u.lib)
    ensures var d := ConvertFromString(u, kind, s);
            d.Some? && d.value.Num? ==> u.lib.numerals.parse(s) == Some(d.value.x)
  {
  }

  lemma ScalarObeyed(u: Unmarshaler, tp: Type, val: Ref, o: Option<ContextOptions>)
    requires Agreeing(u.lib) && Deref(tp).Scalar? && !val.Null? && ScalarWithValue(u, tp, val, o).Ok?
    ensures var cell := ScalarWithValue(u, tp, val, o).value;
            cell.Some? && cell.value.Leaf? && ScalarObeys(u, Deref(tp).kind, val, o, cell.value.datum)
  {
  }

  predicate IsNumeric(kind: Kind)
  {
    kind.KInt? || kind.KUint? || kind.KFloat64?
  }

  /**
   For numeric fields, whichever way a number or a text is converted: it is accepted exactly when it is of
   the field's kind, is one of the options, and lies within the range.
   */
  lemma NumericAcceptedExactly(u: Unmarshaler, tp: Type, val: Ref, o: Option<ContextOptions>)
    requires Agreeing(u.lib) && Deref(tp).Scalar? && IsNumeric(Deref(tp).kind)
    requires val.Number? || (val.Text? && TakesText(u, o))
    ensures var s := if val.Text? then val.s else val.text;
            var d := ConvertFromString(u, Deref(tp).kind, s);
            ScalarWithValue(u, tp, val, o).Ok? <==> d.Some? && TextObeys(u, Deref(tp).kind, s, o, d.value)
  {
  }

  // ---------- Slices and maps ----------

  lemma {:induction false} ItemsFieldwise(u: Unmarshaler, elem: Type, items: seq<Ref>, h: Store)
    requires FillItems(u, elem, items, h).result.Ok?
    ensures var cells := FillItems(u, elem, items, h).result.value;
            |cells| == |items| && forall i :: 0 <= i < |items| ==> ItemAt(u, elem, items, h, i, cells[i])
    decreases |items|
  {
    if items != [] {
      var n := |items| - 1;
      ItemsFieldwise(u, elem, items[..n], h);
      var cells := FillItems(u, elem, items, h).result.value;
      forall i | 0 <= i < n ensures ItemAt(u, elem, items, h, i, cells[i]) {
        assert items[..n][..i] == items[..i] && ItemAt(u, elem, items[..n], h, i, cells[i]);
      }
    }
  }

  ghost predicate ItemAt(u: Unmarshaler, elem: Type, items: seq<Ref>, h: Store, i: nat, cell: Option<Target>)
    requires i < |items|
  {
    if items[i].Null? then cell == None
    else FillItem(u, elem, items[i], ItemsBefore(u, elem, items, h, i)).result == Ok(cell)
  }

  lemma {:induction false} SliceObeyed(u: Unmarshaler, elem: Type, items: seq<Ref>, h: Store)
    requires Agreeing(u.lib) && FillSlice(u, elem, items, h).result.Ok?
    ensures var cell := FillSlice(u, elem, items, h).result.value;
            if cell.None? then AllNull(items) else cell.value.Items? && ItemsObey(u, elem, items, cell.value.items, h)
    decreases elem, 4
  {
    ItemsFieldwise(u, elem, items, h);
    var cells := FillItems(u, elem, items, h).result.value;
    forall i | 0 <= i < |items| ensures ItemObeys(u, elem, items[i], cells[i], ItemsBefore(u, elem, items, h, i)) {
      assert ItemAt(u, elem, items, h, i, cells[i]);
      if !items[i].Null? { ItemObeyed(u, elem, items[i], ItemsBefore(u, elem, items, h, i)); }
    }
  }

  lemma {:induction false} ItemObeyed(u: Unmarshaler, elem: Type, val: Ref, h: Store)
    requires Agreeing(u.lib) && !val.Null? && FillItem(u, elem, val, h).result.Ok?
    ensures ItemObeys(u, elem, val, FillItem(u, elem, val, h).result.value, h)
    decreases elem, 3
  {
    var base := Deref(elem);
    if base.Struct? {
      FieldsObeyed(u, base.fields, Scope(val.loc, None), h);
    } else if base.SliceOf? {
      SliceObeyed(u, base.elem, val.items, h);
    } else if base.MapOf? && val.MapAt? {
      MapObeyed(u, base.elem, val.loc, h);
    }
  }

  /** The entries filled for the first keys, each in the memory that those before it have left. */
  ghost predicate EntriesAt(u: Unmarshaler, elem: Type, entries: Entries, keys: seq<string>, h: Store,
                            filled: map<string, Target>)
  {
    (forall k :: k in filled <==> k in keys && k in entries) &&
    forall i :: 0 <= i < |keys| && keys[i] in entries ==> EntryAt(u, elem, entries, keys, h, i, filled[keys[i]])
  }

  ghost predicate EntryAt(u: Unmarshaler, elem: Type, entries: Entries, keys: seq<string>, h: Store, i: nat, t: Target)
    requires i < |keys| && keys[i] in entries
  {
    FillEntry(u, elem, entries[keys[i]], FillEntries(u, elem, entries, keys[..i], h).store).result == Ok(Some(t))
  }

  ghost predicate NoRepeats(keys: seq<string>)
  {
    forall i, j :: 0 <= i < j < |keys| ==> keys[i] != keys[j]
  }

  lemma {:induction false} EntriesFieldwise(u: Unmarshaler, elem: Type, entries: Entries, keys: seq<string>, h: Store)
    requires FillEntries(u, elem, entries, keys, h).result.Ok? && NoRepeats(keys)
    ensures EntriesAt(u, elem, entries, keys, h, FillEntries(u, elem, entries, keys, h).result.value)
    decreases |keys|
  {
    if keys != [] {
      FilledSnoc(u, elem, entries, keys, h);
      EntriesFieldwise(u, elem, entries, keys[..|keys| - 1], h);
      EntriesStep(u, elem, entries, keys, h);
    }
  }

  lemma EntriesStep(u: Unmarshaler, elem: Type, entries: Entries, keys: seq<string>, h: Store)
    requires keys != [] && FillEntries(u, elem, entries, keys, h).result.Ok? && NoRepeats(keys)
    requires var initial := FillEntries(u, elem, entries, keys[..|keys| - 1], h).result;
             initial.Ok? && EntriesAt(u, elem, entries, keys[..|keys| - 1], h, initial.value)
    ensures EntriesAt(u, elem, entries, keys, h, FillEntries(u, elem, entries, keys, h).result.value)
  {
    FilledSnoc(u, elem, entries, keys, h);
    LastEntry(u, elem, entries, keys, h, FillEntries(u, elem, entries, keys[..|keys| - 1], h).result.value,
              FillEntries(u, elem, entries, keys, h).result.value);
  }

  lemma EarlierEntry(u: Unmarshaler, elem: Type, entries: Entries, keys: seq<string>, h: Store, i: nat, t: Target)
    requires i < |keys| - 1 && keys[i] in entries && EntryAt(u, elem, entries, keys[..|keys| - 1], h, i, t)
    ensures EntryAt(u, elem, entries, keys, h, i, t)
  {
    assert keys[..|keys| - 1][..i] == keys[..i];
  }

  lemma FilledSnoc(u: Unmarshaler, elem: Type, entries: Entries, keys: seq<string>, h: Store)
    requires keys != [] && FillEntries(u, elem, entries, keys, h).result.Ok?
    ensures var n := |keys| - 1;
            var initial, filled := FillEntries(u, elem, entries, keys[..n], h).result,
                                   FillEntries(u, elem, entries, keys, h).result.value;
            initial.Ok? &&
            if keys[n] !in entries then filled == initial.value
            else keys[n] in filled && filled == initial.value[keys[n] := filled[keys[n]]] &&
                 EntryAt(u, elem, entries, keys, h, n, filled[keys[n]])
  {
    var n := |keys| - 1;
    if keys[n] in entries { EntryFills(u, elem, entries[keys[n]], FillEntries(u, elem, entries, keys[..n], h).store); }
  }

  lemma LastEntry(u: Unmarshaler, elem: Type, entries: Entries, keys: seq<string>, h: Store,
                  initial: map<string, Target>, filled: map<string, Target>)
    requires keys != [] && NoRepeats(keys) && EntriesAt(u, elem, entries, keys[..|keys| - 1], h, initial)
    requires var n := |keys| - 1;
             if keys[n] !in entries then filled == initial
             else keys[n] in filled && filled == initial[keys[n] := filled[keys[n]]] &&
                  EntryAt(u, elem, entries, keys, h, n, filled[keys[n]])
    ensures EntriesAt(u, elem, entries, keys, h, filled)
  {
    var n := |keys| - 1;
    assert keys == keys[..n] + [keys[n]];
    forall i | 0 <= i < n && keys[i] in entries
      ensures keys[i] in filled && EntryAt(u, elem, entries, keys, h, i, filled[keys[i]])
    {
      assert keys[..n][i] == keys[i] != keys[n];
      EarlierEntry(u, elem, entries, keys, h, i, filled[keys[i]]);
    }
  }

  lemma {:induction false} MapObeyed(u: Unmarshaler, elem: Type, loc: Loc, h: Store)
    requires Agreeing(u.lib) && FillMap(u, elem, loc, h).result.Ok?
    ensures var cell := FillMap(u, elem, loc, h).result.value;
            cell.Some? && cell.value.Table? && EntriesObey(u, elem, Get(h, loc), cell.value.entries, h)
    decreases elem, 4
  {
    var entries := Get(h, loc);
    var keys := u.lib.order(entries.Keys);
    assert Lists(keys, entries.Keys);
    EntriesFieldwise(u, elem, entries, keys, h);
    var filled := FillEntries(u, elem, entries, keys, h).result.value;
    assert filled.Keys == entries.Keys;
    forall i | 0 <= i < |keys| && keys[i] in entries
      ensures ElementObeys(u, elem, entries[keys[i]], filled[keys[i]], EntriesBefore(u, elem, entries, h, i))
    {
      assert EntryAt(u, elem, entries, keys, h, i, filled[keys[i]]);
      EntryObeyed(u, elem, entries[keys[i]], EntriesBefore(u, elem, entries, h, i));
    }
  }

  lemma {:induction false} EntryObeyed(u: Unmarshaler, elem: Type, val: Ref, h: Store)
    requires Agreeing(u.lib) && FillEntry(u, elem, val, h).result.Ok? && FillEntry(u, elem, val, h).result.value.Some?
    ensures ElementObeys(u, elem, val, FillEntry(u, elem, val, h).result.value.value, h)
    decreases elem, 3
  {
    var base := Deref(elem);
    if base.Struct? {
      FieldsObeyed(u, base.fields, Scope(val.loc, None), h);
    } else if base.SliceOf? {
      SliceObeyed(u, base.elem, val.items, h);
    } else if base.MapOf? {
      MapObeyed(u, base.elem, val.loc, h);
    }
  }

  // ---------- Fields ----------

  lemma {:induction false} FieldsObeyed(u: Unmarshaler, fields: seq<Field>, s: Scope, h: Store)
    requires Agreeing(u.lib) && ProcessFields(u, fields, s, h).result.Ok?
    ensures FieldsObey(u, fields, s, h, ProcessFields(u, fields, s, h).result.value)
    decreases fields, 1
  {
    CellsFieldwise(u, fields, s, h);
    var cells := ProcessFields(u, fields, s, h).result.value;
    forall i | 0 <= i < |fields| ensures FieldObeys(u, fields[i], s, Before(u, fields, s, h, i), cells[i]) {
      assert CellAt(u, fields, s, h, i, cells[i]);
      FieldObeyed(u, fields[i], s, Before(u, fields, s, h, i));
    }
  }

  lemma {:induction false} FieldObeyed(u: Unmarshaler, f: Field, s: Scope, h: Store)
    requires Agreeing(u.lib) && ProcessField(u, f, s, h).result.Ok?
    ensures FieldObeys(u, f, s, h, ProcessField(u, f, s, h).result.value)
    decreases f, 5
  {
    if !Skipped(u, f) {
      if f.embedded && Deref(f.tp).Struct? {
        ContextDemanded(u, f, Get(h, s.level));
        EmbeddedObeyed(u, f, s, h);
      } else {
        assert ProcessField(u, f, s, h) == ProcessNamed(u, f, s, h);
        ContextDemanded(u, f, Get(h, s.level));
        NamedObeyed(u, f, s, h);
      }
    }
  }

  lemma ContextDemanded(u: Unmarshaler, f: Field, level: Entries)
    requires ParseOptionsWithContext(u, f, level).Ok?
    ensures var parsed := ParseKeyAndOptions(u, f);
            parsed.Ok? && ParseOptionsWithContext(u, f, level).value ==
                            InForce(parsed.value.key, Demanded(parsed.value.options, parsed.value.key, level))
  {
    var parsed := ParseKeyAndOptions(u, f).value;
    if parsed.options.Some? { ContextExactly(parsed.options.value, parsed.key, level); }
  }

  lemma EmbeddedCases(u: Unmarshaler, f: Field, s: Scope, h: Store)
    requires f.embedded && Deref(f.tp).Struct? && !Skipped(u, f) && ParseOptionsWithContext(u, f, Get(h, s.level)).Ok?
    ensures ProcessField(u, f, s, h) ==
            if IsOptional(ParseOptionsWithContext(u, f, Get(h, s.level)).value.options) then
              EmbeddedOptional(u, Deref(f.tp).fields, s, h)
            else Recorded(ProcessFields(u, Deref(f.tp).fields, s, h))
  {
  }

  lemma {:induction false} EmbeddedObeyed(u: Unmarshaler, f: Field, s: Scope, h: Store)
    requires Agreeing(u.lib) && f.embedded && Deref(f.tp).Struct? && !Skipped(u, f)
    requires ParseOptionsWithContext(u, f, Get(h, s.level)).Ok? && ProcessField(u, f, s, h).result.Ok?
    ensures EmbeddedObeys(u, Deref(f.tp).fields, s, h, ParseOptionsWithContext(u, f, Get(h, s.level)).value.options,
                          ProcessField(u, f, s, h).result.value)
    decreases f, 4
  {
    var fields := Deref(f.tp).fields;
    EmbeddedCases(u, f, s, h);
    if !IsOptional(ParseOptionsWithContext(u, f, Get(h, s.level)).value.options) {
      FieldsObeyed(u, fields, s, h);
    } else if EmbeddedOptional(u, fields, s, h).result.value.Some? {
      OptionalObeyed(u, fields, s, h);
    }
  }

  lemma {:induction false} OptionalObeyed(u: Unmarshaler, fields: seq<Field>, s: Scope, h: Store)
    requires Agreeing(u.lib) && EmbeddedOptional(u, fields, s, h).result.Ok?
    requires EmbeddedOptional(u, fields, s, h).result.value.Some?
    ensures var cell := EmbeddedOptional(u, fields, s, h).result.value;
            cell.value.Record? && GivenFieldsObey(u, fields, s, h, cell.value.cells)
    decreases fields, 2
  {
    WholeStruct(u, fields, s, h);
    var cells := GatherEmbedded(u, fields, s, h).result.value.cells;
    forall i | 0 <= i < |fields| ensures GivenFieldObeys(u, fields[i], s, BeforeGiven(u, fields, s, h, i), cells[i]) {
      assert GatheredAt(u, fields, s, h, i, cells[i]);
      assert NeededAt(u, fields, s, h, i) ==> GivenAt(u, fields, s, h, i);
      GivenFieldObeyed(u, fields[i], s, BeforeGiven(u, fields, s, h, i), cells[i]);
    }
  }

  lemma {:induction false} GivenFieldObeyed(u: Unmarshaler, f: Field, s: Scope, h: Store, cell: Option<Target>)
    requires Agreeing(u.lib) && GatheredCell(u, f, s, h, cell) && (!MayBeMissing(u, f, s, h) ==> Given(u, f, s, h))
    ensures GivenFieldObeys(u, f, s, h, cell)
    decreases f, 6
  {
    ContextDemanded(u, f, Get(h, s.level));
    if Given(u, f, s, h) {
      FieldObeyed(u, f, s, Looked(h, s, ParseOptionsWithContext(u, f, Get(h, s.level)).value.key).store);
    }
  }

  lemma NamedCases(u: Unmarshaler, f: Field, s: Scope, h: Store)
    requires f.exported && ParseOptionsWithContext(u, f, Get(h, s.level)).Ok?
    requires ParseOptionsWithContext(u, f, Get(h, s.level)).value.key != "-"
    ensures var po := ParseOptionsWithContext(u, f, Get(h, s.level)).value;
            var o, found := po.options, Found(h, s, po);
            ProcessNamed(u, f, s, h) ==
            if FromEnvironment(u, o) then Done(FromEnv(u, f.tp, u.lib.env(o.value.envVar), o), h)
            else if found.value.None? then WithoutValue(u, f.tp, o, found.store)
            else WithValue(u, f.tp, found.value.value, CreateValuer(ValuerOf(s), Inherits(o)), o, found.store)
  {
  }

  lemma {:induction false} NamedObeyed(u: Unmarshaler, f: Field, s: Scope, h: Store)
    requires Agreeing(u.lib) && !Skipped(u, f) && !(f.embedded && Deref(f.tp).Struct?)
    requires ParseOptionsWithContext(u, f, Get(h, s.level)).Ok? && ProcessNamed(u, f, s, h).result.Ok?
    ensures var po := ParseOptionsWithContext(u, f, Get(h, s.level)).value;
            NamedObeys(u, f.tp, Found(h, s, po), CreateValuer(ValuerOf(s), Inherits(po.options)), po.options,
                       ProcessNamed(u, f, s, h).result.value)
    decreases f, 4
  {
    var po := ParseOptionsWithContext(u, f, Get(h, s.level)).value;
    var o, found := po.options, Found(h, s, po);
    NamedCases(u, f, s, h);
    if FromEnvironment(u, o) {
      EnvObeyed(u, f.tp, u.lib.env(o.value.envVar), o);
    } else if found.value.Some? {
      WithValueObeyed(u, f.tp, found, CreateValuer(ValuerOf(s), Inherits(o)), o);
    } else {
      WithoutValueObeyed(u, f.tp, found, CreateValuer(ValuerOf(s), Inherits(o)), o);
    }
  }

  lemma EnvObeyed(u: Unmarshaler, tp: Type, s: string, o: Option<ContextOptions>)
    requires Agreeing(u.lib) && FromEnv(u, tp, s, o).Ok?
    ensures FromEnv(u, tp, s, o).value.Some? && EnvObeys(u, tp, s, o, FromEnv(u, tp, s, o).value.value)
  {
    if Deref(tp).Scalar? { ConvertedIsNumber(u, Deref(tp).kind, s); }
  }

  /** The text is a number of the type, within the range. */
  predicate IsNumber(u: Unmarshaler, base: Type, s: string, o: Option<ContextOptions>)
  {
    base.Scalar? &&
    var d := ConvertFromString(u, base.kind, s);
    d.Some? && d.value.Num? && WithinRange(d.value.x, RangeOf(o))
  }

  /**
   The texts that fit the type of a field: a bool, a duration, any text, or a number of the kind within the
   range. None fits int64.
   */
  predicate EnvFits(u: Unmarshaler, tp: Type, s: string, o: Option<ContextOptions>)
  {
    match tp
    case Scalar(KBool) => u.lib.parseBool(s).Some?
    case Scalar(KDuration) => u.lib.parseDuration(s).Some?
    case Scalar(KString) => true
    case _ => tp != Scalar(KInt(64)) && IsNumber(u, Deref(tp), s, o)
  }

  /**
   For every type of field, which texts of a variable are accepted: those that are among the options and fit.
   A field of type int64 accepts none, and panics on those that are durations.
   */
  lemma EnvAcceptedExactly(u: Unmarshaler, tp: Type, s: string, o: Option<ContextOptions>)
    requires Agreeing(u.lib)
    ensures FromEnv(u, tp, s, o).Ok? <==> InOptions(s, OptionsOf(o)) && EnvFits(u, tp, s, o)
    ensures FromEnv(u, tp, s, o) == Err(Panicked) <==>
              InOptions(s, OptionsOf(o)) && tp == Scalar(KInt(64)) && u.lib.parseDuration(s).Some?
  {
    if Deref(tp).Scalar? { ConvertedIsNumber(u, Deref(tp).kind, s); }
  }

  lemma {:induction false} DefaultObeyed(u: Unmarshaler, tp: Type, d: string, h: Store)
    requires Agreeing(u.lib) && FromDefault(u, tp, d, h).result.Ok?
    ensures var cell := FromDefault(u, tp, d, h).result.value;
            if cell.None? then Deref(tp).SliceOf? || Deref(tp).ArrayOf?
            else DefaultObeys(u, Deref(tp), d, cell.value, h)
    decreases tp, 3
  {
    var base := Deref(tp);
    if base.SliceOf? {
      if Deref(base.elem) != Scalar(KString) {
        var list := u.lib.decodeList(h, d);
        SliceObeyed(u, base.elem, list.value.0, list.value.1);
      } else if ParseGroupedSegments(d) != [] {
        SliceObeyed(u, base.elem, Texts(ParseGroupedSegments(d)), h);
      }
    }
  }

  lemma {:induction false} WithValueObeyed(u: Unmarshaler, tp: Type, found: Sought, around: Valuer<Loc>,
                                           o: Option<ContextOptions>)
    requires Agreeing(u.lib) && !FromEnvironment(u, o)
    requires found.value.Some? && WithValue(u, tp, found.value.value, around, o, found.store).result.Ok?
    ensures NamedObeys(u, tp, found, around, o,
                       WithValue(u, tp, found.value.value, around, o, found.store).result.value)
    decreases tp, 4
  {
    var base, val, h := Deref(tp), found.value.value, found.store;
    if !val.Null? {
      if base.Scalar? {
        ScalarObeyed(u, tp, val, o);
      } else if base.Struct? && val.MapAt? {
        FieldsObeyed(u, base.fields, Scope(val.loc, Some(around)), h);
      } else if base.SliceOf? && val.List? {
        SliceObeyed(u, if tp.PtrTo? then tp.elem else base.elem, val.items, h);
      } else if base.MapOf? && val.MapAt? {
        MapObeyed(u, base.elem, val.loc, h);
      }
    }
  }

  lemma {:induction false} WithoutValueObeyed(u: Unmarshaler, tp: Type, found: Sought, around: Valuer<Loc>,
                                              o: Option<ContextOptions>)
    requires Agreeing(u.lib) && !FromEnvironment(u, o)
    requires found.value.None? && WithoutValue(u, tp, o, found.store).result.Ok?
    ensures NamedObeys(u, tp, found, around, o, WithoutValue(u, tp, o, found.store).result.value)
    decreases tp, 4
  {
    var base := Deref(tp);
    if DefaultOf(o) != "" {
      DefaultObeyed(u, tp, DefaultOf(o), found.store);
    } else if !IsOptional(o) {
      if base.Struct? {
        FieldsObeyed(u, base.fields, Scope(EMPTY, None), found.store);
      } else {
        NoneButMaps(u, tp, o, found.store);
      }
    }
  }

  /**
   The main theorem: whatever the struct type, the input, and the sharing of maps in it, when unmarshalling
   succeeds every field obeys its tag and nothing that is required is missing.
   */
  lemma UnmarshalledObeys(u: Unmarshaler, fields: seq<Field>, loc: Loc, h: Store)
    requires Agreeing(u.lib) && UnmarshalStruct(u, fields, loc, h).result.Ok?
    ensures var cell := UnmarshalStruct(u, fields, loc, h).result.value;
            cell.Some? && cell.value.Record? && FieldsObey(u, fields, Scope(loc, None), h, cell.value.cells)
  {
    FieldsObeyed(u, fields, Scope(loc, None), h);
  }
}
