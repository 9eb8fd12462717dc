/**
 The unmarshaller (core/mapping/unmarshaler.go): an interpreter that walks a struct type and fills its
 fields from a valuer, as the options in the fields' tags say. Results are values; a field's cell is
 None as long as it is untouched. The input's maps are shared memory, which inherited lookups extend, so
 that the interpreter passes it on from field to field.
 */
module Unmarshal {
  import opened Wrappers
  import opened Strings
  import opened Types
  import opened Tags
  import opened Stores
  import opened Valuers
  import opened SharedLookup

  // ---------- What is not modelled ----------

  /**
   strconv, time.ParseDuration, the environment, JSON decoding of texts, and the order in which the keys of
   a map come. A decoded list may have new maps in it.
   */
  datatype Library = Library(
    numerals: Numerals,
    parseInt: (string, nat) -> Option<int>,
    parseUint: (string, nat) -> Option<int>,
    parseBool: string -> Option<bool>,
    parseDuration: string -> Option<int>,
    repr: (Kind, real) -> string,
    env: string -> string,
    decodeList: (Store, string) -> Option<(seq<Ref>, Store)>,
    decode: (Type, string) -> Option<Target>,
    order: set<string> -> seq<string>)

  /** The unmarshaller's option `WithStringValues`, and the library it runs on. */
  datatype Unmarshaler = Unmarshaler(fromString: bool, lib: Library)

  // ---------- Results ----------

  datatype Datum = Flag(b: bool) | Num(x: real) | Str(s: string)

  datatype Target =
    | Leaf(datum: Datum)
    | Record(cells: seq<Option<Target>>)
    | Items(items: seq<Option<Target>>)
    | Table(entries: map<string, Target>)

  datatype Failure =
    | BadTag(error: TagError) | WrongDependency | NotSet | NilValue | TypeMismatch | OutOfRange | NotAnOption
    | BadText | NotFullySet | Unsupported | Panicked

  type Cell = Result<Option<Target>, Failure>

  type Cells = Result<seq<Option<Target>>, Failure>

  /** A result, and the memory as it is afterwards. */
  datatype Done<+T> = Done(result: Result<T, Failure>, store: Store)

  /** Where a struct is filled from: its own level, and the valuer its field was found with. */
  datatype Scope = Scope(level: Loc, around: Option<Valuer<Loc>>)

  function ValuerOf(s: Scope): Valuer<Loc>
  {
    SimpleValuer(MapValuer(s.level), s.around)
  }

  // ---------- Options of a field ----------

  datatype KeyOptions = KeyOptions(key: string, options: Option<FieldOptions>)

  /** `parseKeyAndOptions`: an empty key stands for the field's name. */
  function ParseKeyAndOptions(u: Unmarshaler, f: Field): Result<KeyOptions, Failure>
  {
    var value := if f.tag.Tagged? then TrimSpace(f.tag.text) else "";
    if value == "" then Ok(KeyOptions(f.name, None))
    else
      match DoParse(u.lib.numerals, value)
      case Parsed(key, options) => Ok(KeyOptions(if key != "" then key else f.name, options))
      case Failed(error) => Err(BadTag(error))
      case Panics => Err(Panicked)
  }

  /** `toOptionsWithContext`: whether an option that depends on another field makes this one optional at this level. */
  function InContext(fo: FieldOptions, key: string, level: Entries): Result<ContextOptions, Failure>
  {
    var c, dep := fo.context, fo.optionalDep;
    if !c.optional then Ok(c)
    else if dep == "" then Ok(c)
    else if dep[0] == '!' then
      if dep[1..] == "" then Err(WrongDependency)
      else
        var baseOn, selfOn := dep[1..] in level, key in level;
        if baseOn == selfOn then Err(WrongDependency) else Ok(Rebuilt(c, baseOn))
    else
      var baseOn, selfOn := dep in level, key in level;
      if baseOn != selfOn then Err(WrongDependency) else Ok(Rebuilt(c, !baseOn))
  }

  /** Options are copied when being optional changes, and the copy leaves out `Range` and `Inherit`. */
  function Rebuilt(c: ContextOptions, optional: bool): ContextOptions
  {
    if c.optional == optional then c
    else ContextOptions(false, c.fromString, optional, c.options, c.default, c.envVar, None)
  }

  datatype InForce = InForce(key: string, options: Option<ContextOptions>)

  /** `parseOptionsWithContext`. */
  function ParseOptionsWithContext(u: Unmarshaler, f: Field, level: Entries): Result<InForce, Failure>
  {
    var parsed := ParseKeyAndOptions(u, f);
    if parsed.Err? then Err(parsed.error)
    else if parsed.value.options.None? then Ok(InForce(parsed.value.key, None))
    else
      var c := InContext(parsed.value.options.value, parsed.value.key, level);
      if c.Err? then Err(c.error) else Ok(InForce(parsed.value.key, Some(c.value)))
  }

  predicate IsOptional(o: Option<ContextOptions>) { o.Some? && o.value.optional }

  predicate Inherits(o: Option<ContextOptions>) { o.Some? && o.value.inherit }

  function OptionsOf(o: Option<ContextOptions>): seq<string>
  {
    if o.None? then [] else o.value.options
  }

  function RangeOf(o: Option<ContextOptions>): Option<NumberRange>
  {
    if o.None? then None else o.value.range
  }

  function DefaultOf(o: Option<ContextOptions>): string
  {
    if o.None? then "" else o.value.default
  }

  /** `readKeys`: the parts of a dotted key, empty ones dropped. */
  function ReadKeys(key: string): seq<string>
  {
    NonEmpty(Split(key, '.'))
  }

  function NonEmpty(parts: seq<string>): seq<string>
  {
    if parts == [] then []
    else if parts[0] == "" then NonEmpty(parts[1..])
    else [parts[0]] + NonEmpty(parts[1..])
  }

  /** Looking for the value that a field with the given key and options is filled from. */
  function Found(h: Store, s: Scope, inForce: InForce): Sought
  {
    Seek(h, CreateValuer(ValuerOf(s), Inherits(inForce.options)), ReadKeys(inForce.key))
  }

  // ---------- Validation ----------

  /** `validateNumberRange`. */
  predicate WithinRange(x: real, range: Option<NumberRange>)
  {
    range.None? ||
    (var r := range.value;
     (if r.leftInclude then x >= r.left else x > r.left) && (if r.rightInclude then x <= r.right else x < r.right))
  }

  /** `validateJsonNumberRange`. */
  predicate NumberWithinRange(u: Unmarshaler, text: string, range: Option<NumberRange>)
  {
    range.None? || (u.lib.numerals.parse(text).Some? && WithinRange(u.lib.numerals.parse(text).value, range))
  }

  /** `validateValueRange`. */
  predicate DatumWithinRange(d: Datum, range: Option<NumberRange>)
  {
    range.None? || (d.Num? && WithinRange(d.x, range))
  }

  /** `validateValueInOptions`, for the text of a value. */
  predicate InOptions(text: string, options: seq<string>)
  {
    options == [] || text in options
  }

  // ---------- Scalars ----------

  function Numeric(n: Option<int>): Option<Datum>
  {
    if n.None? then None else Some(Num(n.value as real))
  }

  /** `convertTypeFromString`. A duration is of the kind int64. */
  function ConvertFromString(u: Unmarshaler, kind: Kind, s: string): Option<Datum>
  {
    match kind
    case KBool =>
      if ToLower(s) == "1" || ToLower(s) == "true" then Some(Flag(true))
      else if ToLower(s) == "0" || ToLower(s) == "false" then Some(Flag(false))
      else None
    case KInt(bits) => Numeric(u.lib.parseInt(s, bits))
    case KUint(bits) => Numeric(u.lib.parseUint(s, bits))
    case KDuration => Numeric(u.lib.parseInt(s, 64))
    case KFloat64 =>
      var x := u.lib.numerals.parse(s);
      if x.None? then None else Some(Num(x.value))
    case KString => Some(Str(s))
  }

  /** `setValueFromString`. */
  function SetFromString(u: Unmarshaler, base: Type, s: string): Cell
  {
    if !base.Scalar? then Err(Unsupported)
    else
      var d := ConvertFromString(u, base.kind, s);
      if d.None? then Err(BadText) else Ok(Some(Leaf(d.value)))
  }

  function SetDuration(u: Unmarshaler, s: string): Cell
  {
    var d := u.lib.parseDuration(s);
    if d.None? then Err(BadText) else Ok(Some(Leaf(Num(d.value as real))))
  }

  /** `processFieldPrimitiveWithJSONNumber`. */
  function FromNumber(u: Unmarshaler, tp: Type, text: string, o: Option<ContextOptions>): Cell
  {
    var base := Deref(tp);
    if !NumberWithinRange(u, text, RangeOf(o)) then Err(OutOfRange)
    else if !InOptions(text, OptionsOf(o)) then Err(NotAnOption)
    else if !base.Scalar? || base.kind.KBool? || base.kind.KString? then Err(TypeMismatch)
    else SetFromString(u, base, text)
  }

  /** Ranges are checked on numbers of Go's own numeric types, which time.Duration is not. */
  predicate OfDurationType(val: Ref)
  {
    val.Native? && val.kind.KDuration?
  }

  /** `processFieldPrimitive`: a number's text, or a value of the field's own kind. */
  function FromPrimitive(u: Unmarshaler, tp: Type, val: Ref, o: Option<ContextOptions>): Cell
  {
    var base := Deref(tp);
    if val.Number? then FromNumber(u, tp, val.text, o)
    else
      var same := SameKind(u, base, val);
      if same.None? then Err(TypeMismatch)
      else if !InOptions(same.value.0, OptionsOf(o)) then Err(NotAnOption)
      else if !DatumWithinRange(same.value.1, RangeOf(o)) then Err(OutOfRange)
      else if RangeOf(o).Some? && OfDurationType(val) then Err(OutOfRange)
      else Ok(Some(Leaf(same.value.1)))
  }

  /** The datum of a value whose Go type is the scalar type itself. */
  function Assigned(base: Type, val: Ref): Option<Datum>
  {
    if !base.Scalar? then None
    else if val.Text? && base.kind.KString? then Some(Str(val.s))
    else if val.Bool? && base.kind.KBool? then Some(Flag(val.b))
    else if val.Native? && val.kind == base.kind then Some(Num(val.num))
    else None
  }

  /** The text (`Repr`) and the datum of a value of the same reflect.Kind; a duration is of the kind int64. */
  function SameKind(u: Unmarshaler, base: Type, val: Ref): Option<(string, Datum)>
  {
    if !base.Scalar? then None
    else if val.Text? && base.kind.KString? then Some((val.s, Str(val.s)))
    else if val.Bool? && base.kind.KBool? then Some((if val.b then "true" else "false", Flag(val.b)))
    else if val.Native? && ReflectKind(val.kind) == ReflectKind(base.kind) then
      Some((u.lib.repr(val.kind, val.num), Num(val.num)))
    else None
  }

  function ReflectKind(kind: Kind): Kind
  {
    if kind.KDuration? then KInt(64) else kind
  }

  /** `processNamedFieldWithValueFromString` and `fillPrimitive`. */
  function FromString(u: Unmarshaler, tp: Type, val: Ref, o: Option<ContextOptions>): Cell
  {
    var base := Deref(tp);
    if !val.Text? && !val.Number? then Err(TypeMismatch)
    else
      var text := if val.Text? then val.s else val.text;
      if !InOptions(text, OptionsOf(o)) then Err(NotAnOption)
      else if val.Number? then
        if !NumberWithinRange(u, text, RangeOf(o)) then Err(OutOfRange) else SetFromString(u, base, text)
      else
        var cell := SetFromString(u, base, text);
        if cell.Err? then cell
        else if !DatumWithinRange(cell.value.value.datum, RangeOf(o)) then Err(OutOfRange)
        else cell
  }

  /** `processFieldWithEnvValue`. An int64 field takes a duration, which it cannot hold. */
  function FromEnv(u: Unmarshaler, tp: Type, s: string, o: Option<ContextOptions>): Cell
  {
    if !InOptions(s, OptionsOf(o)) then Err(NotAnOption)
    else if tp == Scalar(KBool) then
      var b := u.lib.parseBool(s);
      if b.None? then Err(BadText) else Ok(Some(Leaf(Flag(b.value))))
    else if tp == Scalar(KDuration) then SetDuration(u, s)
    else if tp == Scalar(KInt(64)) then if u.lib.parseDuration(s).None? then Err(BadText) else Err(Panicked)
    else if tp == Scalar(KString) then Ok(Some(Leaf(Str(s))))
    else FromNumber(u, tp, s, o)
  }

  // ---------- The static analysis ----------

  /** `implicitValueRequiredStruct`: whether a struct needs a value of its own. */
  function ValueRequired(u: Unmarshaler, fields: seq<Field>): Result<bool, Failure>
  {
    if fields == [] then Ok(false)
    else
      var f := fields[0];
      if f.tag.OtherKeys? then Ok(true)
      else
        var parsed := ParseKeyAndOptions(u, f);
        if parsed.Err? then Err(parsed.error)
        else if parsed.value.options.None? then
          if !f.tp.Struct? then Ok(true)
          else
            var inner := ValueRequired(u, f.tp.fields);
            if inner.Err? || inner.value then inner else ValueRequired(u, fields[1..])
        else
          var fo := parsed.value.options.value;
          if !fo.context.optional && fo.context.default == "" then Ok(true)
          else if fo.optionalDep != "" && fo.optionalDep[0] == '!' then Ok(true)
          else ValueRequired(u, fields[1..])
  }

  // ---------- The interpreter ----------

  /** `Unmarshal` of the map at `loc` into a struct. */
  function UnmarshalStruct(u: Unmarshaler, fields: seq<Field>, loc: Loc, h: Store): Done<Option<Target>>
  {
    Recorded(ProcessFields(u, fields, Scope(loc, None), h))
  }

  function Recorded(cells: Done<seq<Option<Target>>>): Done<Option<Target>>
  {
    Done(if cells.result.Err? then Err(cells.result.error) else Ok(Some(Record(cells.result.value))), cells.store)
  }

  /** The loop of `unmarshalWithFullName`; the first error ends it. */
  function ProcessFields(u: Unmarshaler, fields: seq<Field>, s: Scope, h: Store): Done<seq<Option<Target>>>
    decreases fields, 0
  {
    if fields == [] then Done(Ok([]), h)
    else
      var n := |fields| - 1;
      var cells := ProcessFields(u, fields[..n], s, h);
      if cells.result.Err? then cells else Appended(cells.result.value, ProcessField(u, fields[n], s, cells.store))
  }

  function Appended(cells: seq<Option<Target>>, cell: Done<Option<Target>>): Done<seq<Option<Target>>>
  {
    Done(if cell.result.Err? then Err(cell.result.error) else Ok(cells + [cell.result.value]), cell.store)
  }

  /** `processField` and `processAnonymousField`. */
  function ProcessField(u: Unmarshaler, f: Field, s: Scope, h: Store): Done<Option<Target>>
    decreases f, 4
  {
    if f.tag.OtherKeys? then Done(Ok(None), h)
    else if !f.embedded then ProcessNamed(u, f, s, h)
    else
      var po := ParseOptionsWithContext(u, f, Get(h, s.level));
      if po.Err? then Done(Err(po.error), h)
      else if po.value.key == "-" then Done(Ok(None), h)
      else if !Deref(f.tp).Struct? then ProcessNamed(u, f, s, h)
      else if IsOptional(po.value.options) then EmbeddedOptional(u, Deref(f.tp).fields, s, h)
      else Recorded(ProcessFields(u, Deref(f.tp).fields, s, h))
  }

  /** What the loop of `processAnonymousStructFieldOptional` has gathered. */
  datatype Gathered = Gathered(cells: seq<Option<Target>>, filled: bool, required: nat, requiredFilled: nat)

  const NONE_GATHERED := Gathered([], false, 0, 0)

  /** Looking for a value of an embedded field, in the sense of that loop: under its key, without inheritance. */
  function Looked(h: Store, s: Scope, key: string): Sought
  {
    Seek(h, ValuerOf(s), ReadKeys(key))
  }

  /** `processAnonymousStructFieldOptional`: an optional embedded struct. */
  function EmbeddedOptional(u: Unmarshaler, fields: seq<Field>, s: Scope, h: Store): Done<Option<Target>>
    decreases fields, 1
  {
    var g := GatherEmbedded(u, fields, s, h);
    Done(if g.result.Err? then Err(g.result.error)
         else if g.result.value.filled && g.result.value.required != g.result.value.requiredFilled then Err(NotFullySet)
         else Ok(if g.result.value.filled then Some(Record(g.result.value.cells)) else None),
         g.store)
  }

  function GatherEmbedded(u: Unmarshaler, fields: seq<Field>, s: Scope, h: Store): Done<Gathered>
    decreases fields, 0
  {
    if fields == [] then Done(Ok(NONE_GATHERED), h)
    else
      var n := |fields| - 1;
      var g := GatherEmbedded(u, fields[..n], s, h);
      if g.result.Err? then g else GatherField(u, g.result.value, fields[n], s, g.store)
  }

  /** One turn of that loop. */
  function GatherField(u: Unmarshaler, g: Gathered, f: Field, s: Scope, h: Store): Done<Gathered>
    decreases f, 5
  {
    var po := ParseOptionsWithContext(u, f, Get(h, s.level));
    if po.Err? then Done(Err(po.error), h)
    else
      var looked := Looked(h, s, po.value.key);
      var has, needed := looked.value.Some?, !IsOptional(po.value.options);
      var cell := if has then ProcessField(u, f, s, looked.store) else Done(Ok(None), looked.store);
      Done(if cell.result.Err? then Err(cell.result.error)
           else Ok(Gathered(g.cells + [cell.result.value], g.filled || has, g.required + (if needed then 1 else 0),
                            g.requiredFilled + (if needed && has then 1 else 0))),
           cell.store)
  }

  /** `processNamedField`. */
  function ProcessNamed(u: Unmarshaler, f: Field, s: Scope, h: Store): Done<Option<Target>>
    decreases f, 3
  {
    if !f.exported then Done(Ok(None), h)
    else
      var po := ParseOptionsWithContext(u, f, Get(h, s.level));
      if po.Err? then Done(Err(po.error), h)
      else if po.value.key == "-" then Done(Ok(None), h)
      else
        var o := po.value.options;
        if o.Some? && o.value.envVar != "" && u.lib.env(o.value.envVar) != "" then
          Done(FromEnv(u, f.tp, u.lib.env(o.value.envVar), o), h)
        else
          var found := Found(h, s, po.value);
          if found.value.None? then WithoutValue(u, f.tp, o, found.store)
          else WithValue(u, f.tp, found.value.value, CreateValuer(ValuerOf(s), Inherits(o)), o, found.store)
  }

  /** `processNamedFieldWithValue`. */
  function WithValue(u: Unmarshaler, tp: Type, val: Ref, around: Valuer<Loc>, o: Option<ContextOptions>, h: Store):
    Done<Option<Target>>
    decreases tp, 3
  {
    if val.Null? then Done(if IsOptional(o) then Ok(None) else Err(NilValue), h)
    else if Deref(tp).Scalar? then Done(ScalarWithValue(u, tp, val, o), h)
    else NotFromString(u, tp, val, Some(around), o, h)
  }

  /** `processNamedFieldWithValue` for a scalar that is given. */
  function ScalarWithValue(u: Unmarshaler, tp: Type, val: Ref, o: Option<ContextOptions>): Cell
  {
    if u.fromString || (o.Some? && o.value.fromString) then FromString(u, tp, val, o)
    else ScalarNotFromString(u, tp, val, o)
  }

  /** `processFieldNotFromString` for a scalar. */
  function ScalarNotFromString(u: Unmarshaler, tp: Type, val: Ref, o: Option<ContextOptions>): Cell
  {
    var base := Deref(tp);
    if base == Scalar(KDuration) && val.Text? then SetDuration(u, val.s)
    else if base == Scalar(KDuration) && val.Number? then Err(Panicked)
    else FromPrimitive(u, tp, val, o)
  }

  /** A slice that is filled where no slice can be set: setting it panics. */
  function NotSettable(cell: Done<Option<Target>>): Done<Option<Target>>
  {
    if cell.result.Ok? && cell.result.value.Some? then Done(Err(Panicked), cell.store) else cell
  }

  /**
   `processFieldNotFromString`. For a pointer to a slice, the slice itself is taken for the type of an element,
   so that only lists of nulls are accepted.
   */
  function NotFromString(u: Unmarshaler, tp: Type, val: Ref, around: Option<Valuer<Loc>>, o: Option<ContextOptions>,
                         h: Store):
    Done<Option<Target>>
    decreases tp, 2
  {
    var base := Deref(tp);
    if val.MapAt? && base.Struct? then Recorded(ProcessFields(u, base.fields, Scope(val.loc, around), h))
    else if base.SliceOf? && val.List? then
      if tp.PtrTo? then NotSettable(FillSlice(u, tp.elem, val.items, h)) else FillSlice(u, base.elem, val.items, h)
    else if base.MapOf? && val.MapAt? then
      if tp.PtrTo? then Done(Err(Panicked), h) else FillMap(u, base.elem, val.loc, h)
    else if base.SliceOf? && tp.PtrTo? && (val.Text? || val.Number?) then
      var list := u.lib.decodeList(h, if val.Text? then val.s else val.text);
      Done(Err(if list.None? then BadText else if list.value.0 == [] then Panicked else TypeMismatch), h)
    else if (base.MapOf? || base.SliceOf?) && (val.Text? || val.Number?) then
      var decoded := u.lib.decode(base, if val.Text? then val.s else val.text);
      Done(if decoded.None? then Err(BadText) else Ok(Some(decoded.value)), h)
    else Done(ScalarNotFromString(u, tp, val, o), h)
  }

  /** `processNamedFieldWithoutValue`. */
  function WithoutValue(u: Unmarshaler, tp: Type, o: Option<ContextOptions>, h: Store): Done<Option<Target>>
    decreases tp, 3
  {
    var base := Deref(tp);
    if DefaultOf(o) != "" then FromDefault(u, tp, DefaultOf(o), h)
    else if IsOptional(o) then Done(Ok(None), h)
    else if base.ArrayOf? || base.MapOf? || base.SliceOf? then NotFromString(u, tp, MapAt(EMPTY), None, o, h)
    else if base.Struct? then
      var required := ValueRequired(u, base.fields);
      if required.Err? then Done(Err(required.error), h)
      else if required.value then Done(Err(NotSet), h)
      else NotFromString(u, tp, MapAt(EMPTY), None, o, h)
    else Done(Err(NotSet), h)
  }

  /**
   The default of a field; for a slice it is a list, in brackets for strings and in JSON otherwise. The
   same is tried for an array and for a pointer to a slice, which cannot be set to a slice.
   */
  function FromDefault(u: Unmarshaler, tp: Type, d: string, h: Store): Done<Option<Target>>
    decreases tp, 1
  {
    var base := Deref(tp);
    if base == Scalar(KDuration) then Done(SetDuration(u, d), h)
    else if base.ArrayOf? || base.SliceOf? then
      var cell := DefaultList(u, base.elem, d, h);
      if base.ArrayOf? || tp.PtrTo? then NotSettable(cell) else cell
    else Done(SetFromString(u, base, d), h)
  }

  /** `fillSliceWithDefault`, without its cache. An empty list of strings is a nil slice, which is not set. */
  function DefaultList(u: Unmarshaler, elem: Type, d: string, h: Store): Done<Option<Target>>
    decreases elem, 4
  {
    if Deref(elem) == Scalar(KString) then
      var segments := ParseGroupedSegments(d);
      if segments == [] then Done(Ok(None), h) else FillSlice(u, elem, Texts(segments), h)
    else
      var list := u.lib.decodeList(h, d);
      if list.None? then Done(Err(BadText), h) else FillSlice(u, elem, list.value.0, list.value.1)
  }

  function Texts(texts: seq<string>): seq<Ref>
  {
    seq(|texts|, i requires 0 <= i < |texts| => Text(texts[i]))
  }

  /** `fillSlice`: null elements are skipped, and a list of nulls alone leaves the field untouched. */
  function FillSlice(u: Unmarshaler, elem: Type, items: seq<Ref>, h: Store): Done<Option<Target>>
    decreases elem, 3
  {
    var cells := FillItems(u, elem, items, h);
    Done(if cells.result.Err? then Err(cells.result.error)
         else if items != [] && AllNull(items) then Ok(None)
         else Ok(Some(Items(cells.result.value))),
         cells.store)
  }

  predicate AllNull(items: seq<Ref>)
  {
    forall i :: 0 <= i < |items| ==> items[i].Null?
  }

  function FillItems(u: Unmarshaler, elem: Type, items: seq<Ref>, h: Store): Done<seq<Option<Target>>>
    decreases elem, 2, |items|
  {
    if items == [] then Done(Ok([]), h)
    else
      var n := |items| - 1;
      var cells := FillItems(u, elem, items[..n], h);
      if cells.result.Err? then cells
      else
        Appended(cells.result.value,
                 if items[n].Null? then Done(Ok(None), cells.store) else FillItem(u, elem, items[n], cells.store))
  }

  /** One element of a slice that is not null: `fillStructElement`, `fillSlice` or `fillSliceValue`. */
  function FillItem(u: Unmarshaler, elem: Type, val: Ref, h: Store): Done<Option<Target>>
    decreases elem, 1
  {
    var base := Deref(elem);
    if base.Struct? then if val.MapAt? then UnmarshalBelow(u, base, val.loc, h) else Done(Err(TypeMismatch), h)
    else if base.SliceOf? then if val.List? then FillSlice(u, base.elem, val.items, h) else Done(Err(TypeMismatch), h)
    else if val.MapAt? && base.MapOf? then FillMap(u, base.elem, val.loc, h)
    else Done(ScalarItem(u, base, val), h)
  }

  function ScalarItem(u: Unmarshaler, base: Type, val: Ref): Cell
  {
    if val.Number? then SetFromString(u, base, val.text)
    else if val.Text? then SetFromString(u, base, val.s)
    else
      var same := Assigned(base, val);
      if same.None? then Err(TypeMismatch) else Ok(Some(Leaf(same.value)))
  }

  function UnmarshalBelow(u: Unmarshaler, base: Type, loc: Loc, h: Store): Done<Option<Target>>
    requires base.Struct?
    decreases base, 0
  {
    Recorded(ProcessFields(u, base.fields, Scope(loc, None), h))
  }

  /** `fillMap` and `generateMap`: the values of a map, each on its own, in the order in which its keys come. */
  function FillMap(u: Unmarshaler, elem: Type, loc: Loc, h: Store): Done<Option<Target>>
    decreases elem, 3
  {
    var entries := Get(h, loc);
    Tabled(FillEntries(u, elem, entries, u.lib.order(entries.Keys), h))
  }

  function Tabled(entries: Done<map<string, Target>>): Done<Option<Target>>
  {
    Done(if entries.result.Err? then Err(entries.result.error) else Ok(Some(Table(entries.result.value))),
         entries.store)
  }

  function FillEntries(u: Unmarshaler, elem: Type, entries: Entries, keys: seq<string>,
                       h: Store): Done<map<string, Target>>
    decreases elem, 2, |keys|
  {
    if keys == [] then Done(Ok(map[]), h)
    else
      var n := |keys| - 1;
      var filled := FillEntries(u, elem, entries, keys[..n], h);
      if filled.result.Err? || keys[n] !in entries then filled
      else Added(filled.result.value, keys[n], FillEntry(u, elem, entries[keys[n]], filled.store))
  }

  function Added(filled: map<string, Target>, key: string, cell: Done<Option<Target>>): Done<map<string, Target>>
  {
    Done(if cell.result.Err? then Err(cell.result.error)
         else Ok(if cell.result.value.Some? then filled[key := cell.result.value.value] else filled),
         cell.store)
  }

  function FillEntry(u: Unmarshaler, elem: Type, val: Ref, h: Store): Done<Option<Target>>
    decreases elem, 1
  {
    var base := Deref(elem);
    if base.SliceOf? then
      if val.List? then
        var cell := FillSlice(u, base.elem, val.items, h);
        if cell.result.Ok? && cell.result.value.None? then Done(Ok(Some(Items([]))), cell.store) else cell
      else Done(Err(TypeMismatch), h)
    else if base.Struct? then if val.MapAt? then UnmarshalBelow(u, base, val.loc, h) else Done(Err(TypeMismatch), h)
    else if base.MapOf? then if val.MapAt? then FillMap(u, base.elem, val.loc, h) else Done(Err(TypeMismatch), h)
    else Done(ScalarEntry(u, base, val), h)
  }

  function ScalarEntry(u: Unmarshaler, base: Type, val: Ref): Cell
  {
    if val.Number? then SetFromString(u, base, val.text)
    else if val.Native? then Err(TypeMismatch)
    else
      var same := Assigned(base, val);
      if same.None? then Err(TypeMismatch) else Ok(Some(Leaf(same.value)))
  }
}
