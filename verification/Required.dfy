/**
 What `implicitValueRequiredStruct` (core/mapping/utils.go:190-221) promises about the unmarshaller: a struct
 it does not require a value for can be unmarshalled from nothing. It does not always keep the promise for
 embedded structs with options.
 */
module Required {
  import opened Wrappers
  import opened Strings
  import opened Types
  import opened TagScanner
  import opened Tags
  import opened TagPrinter
  import opened Stores
  import opened Valuers
  import opened SharedLookup
  import opened Unmarshal
  import opened StructLoops

  // ---------- The conditions ----------

  /** No environment variable that a field could be filled from is set. */
  ghost predicate EnvUnset(u: Unmarshaler)
  {
    forall name: string :: u.lib.env(name) == ""
  }

  /** A field that stands for the fields of its struct. */
  predicate Embeds(f: Field)
  {
    f.embedded && Deref(f.tp).Struct?
  }

  /** The defaults can be converted to the types they are for; those of embedded structs are never looked at. */
  ghost predicate DefaultsFit(u: Unmarshaler, fields: seq<Field>)
  {
    forall i :: 0 <= i < |fields| ==> DefaultFits(u, fields[i])
  }

  ghost predicate DefaultFits(u: Unmarshaler, f: Field)
  {
    var parsed := ParseKeyAndOptions(u, f);
    (parsed.Ok? && parsed.value.options.Some? && !Embeds(f) ==>
       var d := parsed.value.options.value.context.default; d != "" ==> AlwaysConverts(u, f.tp, d)) &&
    (Deref(f.tp).Struct? ==> DefaultsFit(u, Deref(f.tp).fields))
  }

  ghost predicate AlwaysConverts(u: Unmarshaler, tp: Type, d: string)
  {
    forall h: Store :: FromDefault(u, tp, d, h).result.Ok?
  }

  /** The options start with `optional=!`. */
  predicate Negated(fo: FieldOptions)
  {
    fo.optionalDep != "" && fo.optionalDep[0] == '!'
  }

  const NOTHING := Scope(EMPTY, None)

  /** The struct can be unmarshalled from nothing. */
  predicate Fills(u: Unmarshaler, fields: seq<Field>, h: Store)
  {
    ProcessFields(u, fields, NOTHING, h).result.Ok?
  }

  predicate FieldFills(u: Unmarshaler, f: Field, h: Store)
  {
    ProcessField(u, f, NOTHING, h).result.Ok?
  }

  /** The options of all fields can be put in the context of no values. */
  predicate Readable(u: Unmarshaler, fields: seq<Field>)
  {
    forall i :: 0 <= i < |fields| ==> ReadableField(u, fields[i])
  }

  predicate ReadableField(u: Unmarshaler, f: Field)
  {
    var parsed := ParseKeyAndOptions(u, f);
    parsed.Ok? && (parsed.value.options.Some? ==>
                   !(Negated(parsed.value.options.value) && parsed.value.options.value.context.optional))
  }

  /** Fields that unmarshalling passes over. */
  predicate Skips(u: Unmarshaler, f: Field)
  {
    var parsed := ParseKeyAndOptions(u, f);
    f.tag.OtherKeys? || (parsed.Ok? && parsed.value.key == "-") || (!f.exported && !Embeds(f))
  }

  /**
   The struct needs nothing, by its tags and types alone: no field is left that could not be read, converted
   from its default, or left out.
   */
  predicate Needless(u: Unmarshaler, fields: seq<Field>)
  {
    forall i :: 0 <= i < |fields| ==> NeedlessField(u, fields[i])
  }

  predicate NeedlessField(u: Unmarshaler, f: Field)
  {
    var parsed := ParseKeyAndOptions(u, f);
    if parsed.Err? || Skips(u, f) then f.tag.OtherKeys? || (!f.embedded && !f.exported) || ReadableField(u, f)
    else
      var fo := parsed.value.options;
      if Embeds(f) then
        if fo.None? || !fo.value.context.optional then Needless(u, Deref(f.tp).fields)
        else !Negated(fo.value) && Readable(u, Deref(f.tp).fields)
      else
        (fo.None? || !Negated(fo.value)) &&
        ((fo.Some? && (fo.value.context.optional || fo.value.context.default != "")) ||
         f.tp.MapOf? ||
         (Deref(f.tp).Struct? && ValueRequired(u, Deref(f.tp).fields) == Ok(false) && Needless(u, Deref(f.tp).fields)))
  }

  /**
   What the analysis fails to see: at every depth that is reached, an embedded struct with options has a
   struct type that needs nothing or, if it is optional, fields with options that can be read.
   */
  predicate EmbeddedNeedless(u: Unmarshaler, fields: seq<Field>)
  {
    forall i :: 0 <= i < |fields| ==> EmbeddedNeedlessField(u, fields[i])
  }

  predicate EmbeddedNeedlessField(u: Unmarshaler, f: Field)
  {
    var parsed := ParseKeyAndOptions(u, f);
    parsed.Ok? && !Skips(u, f) ==>
      match parsed.value.options
      case None => f.tp.Struct? ==> EmbeddedNeedless(u, f.tp.fields)
      case Some(fo) =>
        Embeds(f) ==> if fo.context.optional then Readable(u, Deref(f.tp).fields) else Needless(u, Deref(f.tp).fields)
  }

  // ---------- Fields one at a time ----------

  /** What the analysis asks of each field. */
  predicate Undemanding(u: Unmarshaler, f: Field)
  {
    var parsed := ParseKeyAndOptions(u, f);
    !f.tag.OtherKeys? && parsed.Ok? &&
    match parsed.value.options
    case None => f.tp.Struct? && ValueRequired(u, f.tp.fields) == Ok(false)
    case Some(fo) => (fo.context.optional || fo.context.default != "") && !Negated(fo)
  }

  lemma {:induction false} RequiredFieldwise(u: Unmarshaler, fields: seq<Field>)
    ensures ValueRequired(u, fields) == Ok(false) <==> forall i :: 0 <= i < |fields| ==> Undemanding(u, fields[i])
  {
    if fields != [] {
      RequiredFieldwise(u, fields[1..]);
      RequiredHead(u, fields);
      assert forall i :: 0 <= i < |fields| - 1 ==> fields[1..][i] == fields[i + 1];
    }
  }

  lemma RequiredHead(u: Unmarshaler, fields: seq<Field>)
    requires fields != []
    ensures ValueRequired(u, fields) == Ok(false) <==>
            Undemanding(u, fields[0]) && ValueRequired(u, fields[1..]) == Ok(false)
  {
  }

  /** The memory in which the `i`-th field is processed does not matter, as long as it does not for any single field. */
  lemma {:induction false} FillsFieldwise(u: Unmarshaler, fields: seq<Field>, h: Store)
    requires forall i, g: Store :: 0 <= i < |fields| ==> (FieldFills(u, fields[i], g) <==> FieldFills(u, fields[i], []))
    ensures Fills(u, fields, h) <==> forall i :: 0 <= i < |fields| ==> FieldFills(u, fields[i], [])
  {
    if fields != [] {
      var n := |fields| - 1;
      FillsFieldwise(u, fields[..n], h);
      FillsSnoc(u, fields, h);
      assert forall i :: 0 <= i < n ==> fields[..n][i] == fields[i];
    }
  }

  lemma FillsSnoc(u: Unmarshaler, fields: seq<Field>, h: Store)
    requires fields != []
    ensures var n := |fields| - 1;
            Fills(u, fields, h) <==>
              Fills(u, fields[..n], h) && FieldFills(u, fields[n], ProcessFields(u, fields[..n], NOTHING, h).store)
  {
  }

  // ---------- Nothing to be found ----------

  lemma NothingFound(h: Store, inForce: InForce)
    ensures Found(h, NOTHING, inForce) == Sought(None, h)
  {
    var v := CreateValuer(ValuerOf(NOTHING), Inherits(inForce.options));
    assert Parent(ValuerOf(NOTHING)) == None;
    forall k ensures Find(h, v, k) == Sought(None, h) {
      assert Find(h, ValuerOf(NOTHING), k) == Sought(None, h);
    }
  }

  lemma NothingLooked(h: Store, key: string)
    ensures Looked(h, NOTHING, key) == Sought(None, h)
  {
    assert forall k :: Find(h, ValuerOf(NOTHING), k) == Sought(None, h);
  }

  lemma NothingInContext(fo: FieldOptions, key: string)
    ensures Negated(fo) && fo.context.optional ==> InContext(fo, key, map[]).Err?
    ensures !Negated(fo) || !fo.context.optional ==> InContext(fo, key, map[]) == Ok(fo.context)
  {
  }

  lemma ReadableExactly(u: Unmarshaler, f: Field)
    ensures ParseOptionsWithContext(u, f, map[]).Ok? <==> ReadableField(u, f)
  {
    var parsed := ParseKeyAndOptions(u, f);
    if parsed.Ok? && parsed.value.options.Some? { NothingInContext(parsed.value.options.value, parsed.value.key); }
  }

  // ---------- Single fields ----------

  /** A field with options that does not embed a struct, when there is no value for it. */
  lemma OptionsFromNothing(u: Unmarshaler, f: Field, h: Store)
    requires EnvUnset(u) && !Skips(u, f) && !Embeds(f)
    requires var parsed := ParseKeyAndOptions(u, f); parsed.Ok? && parsed.value.options.Some?
    ensures var fo := ParseKeyAndOptions(u, f).value.options.value;
            FieldFills(u, f, h) <==>
              !(Negated(fo) && fo.context.optional) && WithoutValue(u, f.tp, Some(fo.context), h).result.Ok?
  {
    var parsed := ParseKeyAndOptions(u, f).value;
    var fo := parsed.options.value;
    NothingInContext(fo, parsed.key);
    NothingFound(h, InForce(parsed.key, Some(fo.context)));
    assert Get(h, EMPTY) == map[] && u.lib.env(fo.context.envVar) == "";
    assert ProcessField(u, f, NOTHING, h).result.Ok? <==> ProcessNamed(u, f, NOTHING, h).result.Ok?;
    var po := ParseOptionsWithContext(u, f, map[]);
    if po.Ok? {
      assert po.value == InForce(parsed.key, Some(fo.context));
      assert ProcessNamed(u, f, NOTHING, h) == WithoutValue(u, f.tp, Some(fo.context), h);
    }
  }

  /** A field without options that does not embed a struct. */
  lemma BareFromNothing(u: Unmarshaler, f: Field, h: Store)
    requires !Skips(u, f) && !Embeds(f)
    requires var parsed := ParseKeyAndOptions(u, f); parsed.Ok? && parsed.value.options == None
    ensures ProcessField(u, f, NOTHING, h) == WithoutValue(u, f.tp, None, h)
  {
    NothingFound(h, InForce(ParseKeyAndOptions(u, f).value.key, None));
  }

  /** A struct that nothing is given for. */
  lemma StructWithoutValue(u: Unmarshaler, tp: Type, o: Option<ContextOptions>, h: Store)
    requires Deref(tp).Struct? && DefaultOf(o) == "" && !IsOptional(o)
    ensures WithoutValue(u, tp, o, h).result.Ok? <==>
              ValueRequired(u, Deref(tp).fields) == Ok(false) && Fills(u, Deref(tp).fields, h)
  {
    assert NotFromString(u, tp, MapAt(EMPTY), None, o, h) == Recorded(ProcessFields(u, Deref(tp).fields, NOTHING, h));
  }

  /** An embedded struct that nothing is given for. */
  lemma EmbeddedFromNothing(u: Unmarshaler, f: Field, h: Store)
    requires !Skips(u, f) && Embeds(f) && ParseKeyAndOptions(u, f).Ok?
    ensures var fo := ParseKeyAndOptions(u, f).value.options;
            FieldFills(u, f, h) <==>
              if fo.None? || !fo.value.context.optional then Fills(u, Deref(f.tp).fields, h)
              else !Negated(fo.value) && EmbeddedOptional(u, Deref(f.tp).fields, NOTHING, h).result.Ok?
  {
    var parsed := ParseKeyAndOptions(u, f).value;
    assert Get(h, EMPTY) == map[];
    if parsed.options.Some? { NothingInContext(parsed.options.value, parsed.key); }
    var po := ParseOptionsWithContext(u, f, map[]);
    if po.Ok? {
      assert po.value == InForce(parsed.key, if parsed.options.None? then None else Some(parsed.options.value.context));
      assert ProcessField(u, f, NOTHING, h) ==
             if IsOptional(po.value.options) then EmbeddedOptional(u, Deref(f.tp).fields, NOTHING, h)
             else Recorded(ProcessFields(u, Deref(f.tp).fields, NOTHING, h));
    }
  }

  /** An optional embedded struct is left alone, unless some field's options cannot be read. */
  lemma {:induction false} GatherNothing(u: Unmarshaler, fields: seq<Field>, h: Store)
    ensures GatherEmbedded(u, fields, NOTHING, h).result.Ok? <==> Readable(u, fields)
    ensures var run := GatherEmbedded(u, fields, NOTHING, h);
            Readable(u, fields) ==> run.store == h && !run.result.value.filled
  {
    if fields != [] {
      var n := |fields| - 1;
      GatherNothing(u, fields[..n], h);
      ReadableSnoc(u, fields);
      var g := GatherEmbedded(u, fields[..n], NOTHING, h);
      if g.result.Ok? { GatherFieldNothing(u, g.result.value, fields[n], h); }
    }
  }

  lemma ReadableSnoc(u: Unmarshaler, fields: seq<Field>)
    requires fields != []
    ensures Readable(u, fields) <==> Readable(u, fields[..|fields| - 1]) && ReadableField(u, fields[|fields| - 1])
  {
    assert fields == fields[..|fields| - 1] + [fields[|fields| - 1]];
  }

  lemma GatherFieldNothing(u: Unmarshaler, g: Gathered, f: Field, h: Store)
    ensures var run := GatherField(u, g, f, NOTHING, h);
            run.store == h && (run.result.Ok? <==> ReadableField(u, f)) &&
              (run.result.Ok? ==> run.result.value.filled == g.filled)
  {
    ReadableExactly(u, f);
    assert Get(h, EMPTY) == map[];
    var po := ParseOptionsWithContext(u, f, map[]);
    if po.Ok? { NothingLooked(h, po.value.key); }
  }

  /** A field that is passed over, or whose tag is wrong. */
  lemma SkippedFromNothing(u: Unmarshaler, f: Field, h: Store)
    requires Skips(u, f) || ParseKeyAndOptions(u, f).Err?
    ensures FieldFills(u, f, h) <==>
              f.tag.OtherKeys? || (!f.embedded && !f.exported) || ParseOptionsWithContext(u, f, map[]).Ok?
  {
    assert Get(h, EMPTY) == map[];
    var po := ParseOptionsWithContext(u, f, map[]);
    if f.tag.OtherKeys? {
    } else if !f.embedded {
      assert ProcessField(u, f, NOTHING, h) == ProcessNamed(u, f, NOTHING, h);
      assert f.exported && po.Ok? ==> po.value.key == "-";
    } else if po.Ok? && po.value.key != "-" {
      assert ProcessField(u, f, NOTHING, h) == ProcessNamed(u, f, NOTHING, h);
    }
  }

  /** A tag in which a field depends on another one always makes it optional. */
  lemma {:induction false} DependentIsOptional(n: Numerals, fo: FieldOptions, options: seq<string>)
    requires fo.optionalDep != "" ==> fo.context.optional
    ensures var r := ParseEach(n, fo, options);
            r.Ok? && r.value.optionalDep != "" ==> r.value.context.optional
    decreases options
  {
    if options != [] {
      var r := ParseOption(n, fo, TrimSpace(options[0]));
      if r.Ok? { DependentIsOptional(n, r.value, options[1..]); }
    }
  }

  lemma NegatedIsOptional(u: Unmarshaler, f: Field)
    ensures var parsed := ParseKeyAndOptions(u, f);
            parsed.Ok? && parsed.value.options.Some? && Negated(parsed.value.options.value) ==>
              parsed.value.options.value.context.optional
  {
    var value := if f.tag.Tagged? then TrimSpace(f.tag.text) else "";
    var segments := Segments(value);
    if |segments| > 1 { DependentIsOptional(u.lib.numerals, NO_OPTIONS, segments[1..]); }
  }

  // ---------- What fills from nothing ----------

  /** A field that does not embed a struct, in terms of tags and types. */
  lemma NamedNeedless(u: Unmarshaler, f: Field, h: Store)
    requires EnvUnset(u) && DefaultFits(u, f) && !Skips(u, f) && !Embeds(f) && ParseKeyAndOptions(u, f).Ok?
    requires Deref(f.tp).Struct? ==> (Fills(u, Deref(f.tp).fields, h) <==> Needless(u, Deref(f.tp).fields))
    ensures FieldFills(u, f, h) <==> NeedlessField(u, f)
  {
    var fo := ParseKeyAndOptions(u, f).value.options;
    NegatedIsOptional(u, f);
    var o := if fo.None? then None else Some(fo.value.context);
    if fo.None? { BareFromNothing(u, f, h); } else { OptionsFromNothing(u, f, h); }
    if DefaultOf(o) != "" {
      assert FromDefault(u, f.tp, DefaultOf(o), h).result.Ok?;
    } else if !IsOptional(o) {
      if Deref(f.tp).Struct? { StructWithoutValue(u, f.tp, o, h); } else { NoneButMaps(u, f.tp, o, h); }
    }
  }

  lemma EmbeddedNeeds(u: Unmarshaler, f: Field, h: Store)
    requires !Skips(u, f) && Embeds(f) && ParseKeyAndOptions(u, f).Ok?
    requires Fills(u, Deref(f.tp).fields, h) <==> Needless(u, Deref(f.tp).fields)
    ensures FieldFills(u, f, h) <==> NeedlessField(u, f)
  {
    EmbeddedFromNothing(u, f, h);
    GatherNothing(u, Deref(f.tp).fields, h);
  }

  lemma {:induction false} FieldNeedless(u: Unmarshaler, f: Field, h: Store)
    requires EnvUnset(u) && DefaultFits(u, f)
    ensures FieldFills(u, f, h) <==> NeedlessField(u, f)
    decreases f
  {
    if Deref(f.tp).Struct? { NeedlessExactly(u, Deref(f.tp).fields, h); }
    if ParseKeyAndOptions(u, f).Err? || Skips(u, f) {
      SkippedFromNothing(u, f, h);
      ReadableExactly(u, f);
    } else if Embeds(f) {
      EmbeddedNeeds(u, f, h);
    } else {
      NamedNeedless(u, f, h);
    }
  }

  /**
   For every struct type: with defaults that fit and no environment, it can be unmarshalled from nothing if
   and only if its tags and types leave nothing to be given.
   */
  lemma {:induction false} NeedlessExactly(u: Unmarshaler, fields: seq<Field>, h: Store)
    requires EnvUnset(u) && DefaultsFit(u, fields)
    ensures Fills(u, fields, h) <==> Needless(u, fields)
    decreases fields, 1
  {
    forall i, g: Store | 0 <= i < |fields| ensures FieldFills(u, fields[i], g) <==> NeedlessField(u, fields[i]) {
      FieldNeedless(u, fields[i], g);
    }
    FillsFieldwise(u, fields, h);
  }

  // ---------- When the analysis keeps its promise ----------

  /** For a field of which the analysis asks nothing, only embedded structs are left to look at. */
  lemma UndemandingNeeds(u: Unmarshaler, f: Field)
    requires Undemanding(u, f)
    requires f.tp.Struct? && ParseKeyAndOptions(u, f).value.options == None ==>
               (Needless(u, f.tp.fields) <==> EmbeddedNeedless(u, f.tp.fields))
    ensures NeedlessField(u, f) <==> EmbeddedNeedlessField(u, f)
  {
  }

  lemma {:induction false} PromiseExactly(u: Unmarshaler, fields: seq<Field>)
    requires ValueRequired(u, fields) == Ok(false)
    ensures Needless(u, fields) <==> EmbeddedNeedless(u, fields)
    decreases fields
  {
    RequiredFieldwise(u, fields);
    forall i | 0 <= i < |fields| ensures NeedlessField(u, fields[i]) <==> EmbeddedNeedlessField(u, fields[i]) {
      var f := fields[i];
      assert Undemanding(u, f);
      if f.tp.Struct? && ParseKeyAndOptions(u, f).value.options == None { PromiseExactly(u, f.tp.fields); }
      UndemandingNeeds(u, f);
    }
  }

  /**
   When the analysis keeps its promise. With defaults that fit and no environment, a struct it requires no
   value for can be unmarshalled from nothing if and only if, at every depth, each embedded struct with
   options needs nothing or, if it is optional, has fields whose options can be read.
   */
  lemma FillsFromNothingExactly(u: Unmarshaler, fields: seq<Field>, h: Store)
    requires EnvUnset(u) && DefaultsFit(u, fields)
    requires ValueRequired(u, fields) == Ok(false)
    ensures UnmarshalStruct(u, fields, EMPTY, h).result.Ok? <==> EmbeddedNeedless(u, fields)
  {
    NeedlessExactly(u, fields, h);
    PromiseExactly(u, fields);
  }

  /** No embedded struct carries options. */
  predicate PlainlyEmbedded(u: Unmarshaler, fields: seq<Field>)
  {
    forall i :: 0 <= i < |fields| ==> PlainlyEmbeddedField(u, fields[i])
  }

  predicate PlainlyEmbeddedField(u: Unmarshaler, f: Field)
  {
    var parsed := ParseKeyAndOptions(u, f);
    (parsed.Ok? && parsed.value.options.Some? ==> !Embeds(f)) && (f.tp.Struct? ==> PlainlyEmbedded(u, f.tp.fields))
  }

  lemma {:induction false} PlainlyEmbeddedNeedless(u: Unmarshaler, fields: seq<Field>)
    requires PlainlyEmbedded(u, fields)
    ensures EmbeddedNeedless(u, fields)
    decreases fields
  {
    forall i | 0 <= i < |fields| ensures EmbeddedNeedlessField(u, fields[i]) {
      assert PlainlyEmbeddedField(u, fields[i]);
      if fields[i].tp.Struct? { PlainlyEmbeddedNeedless(u, fields[i].tp.fields); }
    }
  }

  /**
   So a struct that needs no value of its own is unmarshalled from the empty map, through every nested
   struct, when its defaults fit and its embedded structs carry no options.
   */
  lemma NotRequiredFillsFromNothing(u: Unmarshaler, fields: seq<Field>, h: Store)
    requires EnvUnset(u) && DefaultsFit(u, fields) && PlainlyEmbedded(u, fields)
    requires ValueRequired(u, fields) == Ok(false)
    ensures UnmarshalStruct(u, fields, EMPTY, h).result.Ok?
  {
    FillsFromNothingExactly(u, fields, h);
    PlainlyEmbeddedNeedless(u, fields);
  }

  // ---------- Where the analysis is exact ----------

  /**
   Fields that the unmarshaller does not skip, and that are neither maps, nor pointers to structs, nor structs
   whose options do not make them optional, nor optional embedded structs with options that cannot be read.
   */
  predicate Plain(u: Unmarshaler, fields: seq<Field>)
  {
    forall i :: 0 <= i < |fields| ==> PlainField(u, fields[i])
  }

  predicate PlainField(u: Unmarshaler, f: Field)
  {
    var parsed := ParseKeyAndOptions(u, f);
    !Skips(u, f) && !f.tp.MapOf? && !(f.tp.PtrTo? && Deref(f.tp).Struct?) &&
    (f.tp.Struct? ==>
       Plain(u, f.tp.fields) &&
       (parsed.Ok? && parsed.value.options.Some? ==>
          parsed.value.options.value.context.optional && (f.embedded ==> Readable(u, f.tp.fields))))
  }

  lemma PlainDemand(u: Unmarshaler, f: Field)
    requires PlainField(u, f)
    requires f.tp.Struct? ==> (ValueRequired(u, f.tp.fields) == Ok(false) <==> Needless(u, f.tp.fields))
    ensures Undemanding(u, f) <==> NeedlessField(u, f)
  {
    var parsed := ParseKeyAndOptions(u, f);
    NegatedIsOptional(u, f);
  }

  lemma {:induction false} PlainExactly(u: Unmarshaler, fields: seq<Field>)
    requires Plain(u, fields)
    ensures ValueRequired(u, fields) == Ok(false) <==> Needless(u, fields)
    decreases fields
  {
    RequiredFieldwise(u, fields);
    forall i | 0 <= i < |fields| ensures Undemanding(u, fields[i]) <==> NeedlessField(u, fields[i]) {
      assert PlainField(u, fields[i]);
      if fields[i].tp.Struct? { PlainExactly(u, fields[i].tp.fields); }
      PlainDemand(u, fields[i]);
    }
  }

  /** Exactness: on plain fields, the analysis says no if and only if the empty map will do. */
  lemma RequiredExactly(u: Unmarshaler, fields: seq<Field>, h: Store)
    requires EnvUnset(u) && DefaultsFit(u, fields) && Plain(u, fields)
    ensures ValueRequired(u, fields) == Ok(false) <==> UnmarshalStruct(u, fields, EMPTY, h).result.Ok?
  {
    PlainExactly(u, fields);
    NeedlessExactly(u, fields, h);
  }

  // ---------- Structs that are let off and cannot do without a value ----------

  const BARE := Field("A", true, false, Untagged, Scalar(KString))
  const DEFAULT_TAG := "e,default=x"
  const MISLEADING := Field("E", true, true, Tagged(DEFAULT_TAG), Struct([BARE]))

  lemma DefaultParses(n: Numerals, key: string, value: string)
    requires Trimmed(key) && IsValue(value) && value != ""
    ensures DoParse(n, Escape(key) + Written(PrintValue("default", value))) ==
            Parsed(key, Some(NO_OPTIONS.(context := NO_OPTIONS.context.(default := value))))
  {
    var ps := PrintValue("default", value);
    ValueIsClean("default", value);
    SegmentsOfTag(key, ps);
    TakesDefault(n, NO_OPTIONS, value);
    TrimSpaceKeeps(key);
    var segments := [key] + Read(ps);
    assert segments[1..] == Read(ps) && |Read(ps)| > 0;
  }

  lemma DefaultTagText()
    ensures DEFAULT_TAG == Escape("e") + Written(PrintValue("default", "x"))
  {
  }

  lemma MisleadingOptions(u: Unmarshaler)
    ensures ParseKeyAndOptions(u, MISLEADING) ==
            Ok(KeyOptions("e", Some(NO_OPTIONS.(context := NO_OPTIONS.context.(default := "x")))))
  {
    DefaultTagText();
    DefaultParses(u.lib.numerals, "e", "x");
    TrimSpaceKeeps(DEFAULT_TAG);
  }

  lemma BareNeedsValue(u: Unmarshaler, h: Store)
    ensures !Fills(u, [BARE], h)
  {
    BareFromNothing(u, BARE, h);
    assert [BARE][..0] == [] && ProcessFields(u, [], NOTHING, h) == Done(Ok([]), h);
  }

  lemma MisleadingLetOff(u: Unmarshaler)
    ensures ValueRequired(u, [MISLEADING]) == Ok(false)
  {
    MisleadingUndemanding(u);
    var fields := [MISLEADING];
    assert fields[0] == MISLEADING && fields[1..] == [];
    RequiredHead(u, fields);
  }

  lemma MisleadingUndemanding(u: Unmarshaler)
    ensures Undemanding(u, MISLEADING)
  {
    MisleadingOptions(u);
  }

  lemma MisleadingFails(u: Unmarshaler, h: Store)
    ensures !FieldFills(u, MISLEADING, h)
  {
    MisleadingOptions(u);
    EmbeddedFromNothing(u, MISLEADING, h);
    BareNeedsValue(u, h);
  }

  /** Embedding a struct that lacks a value, with a default of its own: needs no value, and cannot do without. */
  lemma AnalysisMissesEmbeddedDefault(u: Unmarshaler, h: Store)
    ensures ValueRequired(u, [MISLEADING]) == Ok(false) && UnmarshalStruct(u, [MISLEADING], EMPTY, h).result.Err?
  {
    MisleadingLetOff(u);
    MisleadingFails(u, ProcessFields(u, [MISLEADING][..0], NOTHING, h).store);
    FillsSnoc(u, [MISLEADING], h);
  }
}
