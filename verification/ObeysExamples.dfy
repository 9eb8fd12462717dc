/** Fields that escape their options or their range although unmarshalling succeeds. */
module ObeysExamples {
  import opened Wrappers
  import opened Strings
  import opened Types
  import opened TagScanner
  import opened Tags
  import opened TagPrinter
  import opened Stores
  import opened Valuers
  import opened SharedLookup
  import opened Unmarshal
  import opened Obeys

  // ---------- Durations ----------

  /** A duration is set from its text whatever the options and the range are, and a number brings it down. */
  lemma DurationUnchecked(u: Unmarshaler, tp: Type, s: string, o: Option<ContextOptions>)
    requires Deref(tp) == Scalar(KDuration) && !TakesText(u, o)
    ensures ScalarWithValue(u, tp, Text(s), o).Ok? <==> u.lib.parseDuration(s).Some?
    ensures ScalarWithValue(u, tp, Number(s), o) == Err(Panicked)
  {
  }

  /** So a duration of one second passes where the only option is two seconds. */
  lemma DurationOutsideOptions(u: Unmarshaler)
    requires !u.fromString && u.lib.parseDuration("1s") == Some(1_000_000_000)
    ensures var o := Some(NO_OPTIONS.context.(options := ["2s"]));
            !InOptions("1s", OptionsOf(o)) &&
            ScalarWithValue(u, Scalar(KDuration), Text("1s"), o) == Ok(Some(Leaf(Num(1_000_000_000.0))))
  {
    assert "1s"[0] != "2s"[0];
  }

  // ---------- Pointers to slices ----------

  lemma {:induction false} NullsFillNothing(u: Unmarshaler, elem: Type, items: seq<Ref>, h: Store)
    requires AllNull(items)
    ensures FillItems(u, elem, items, h).result.Ok?
  {
    if items != [] { NullsFillNothing(u, elem, items[..|items| - 1], h); }
  }

  /** A field that is a pointer to a slice takes no value but a list of nulls, which leaves it empty. */
  lemma SlicePointerExactly(u: Unmarshaler, elem: Type, val: Ref, around: Valuer<Loc>, o: Option<ContextOptions>,
                            h: Store)
    requires !elem.PtrTo? && !val.Null?
    ensures var run := WithValue(u, PtrTo(SliceOf(elem)), val, around, o, h).result;
            (run.Ok? <==> val.List? && val.items != [] && AllNull(val.items)) && (run.Ok? ==> run.value == None)
  {
    var tp := PtrTo(SliceOf(elem));
    assert Deref(tp) == SliceOf(elem);
    assert WithValue(u, tp, val, around, o, h) == NotFromString(u, tp, val, Some(around), o, h);
    if val.List? {
      assert NotFromString(u, tp, val, Some(around), o, h) == NotSettable(FillSlice(u, tp.elem, val.items, h));
      if AllNull(val.items) { NullsFillNothing(u, tp.elem, val.items, h); }
    }
  }

  // ---------- Dependent fields ----------

  /** A dependent field that has a value is set to any number of its kind, whatever range its tag gives. */
  lemma DependentRangeIgnored(u: Unmarshaler, f: Field, s: Scope, h: Store, fo: FieldOptions, key: string, text: string)
    requires f.exported && !f.embedded && f.tp.Scalar? && f.tp.kind.KInt? && !f.tag.OtherKeys?
    requires ParseKeyAndOptions(u, f) == Ok(KeyOptions(key, Some(fo))) && key != "-" && ReadKeys(key) == [key]
    requires Dependent(fo) && fo.context.options == [] && fo.context.envVar == ""
    requires Consistent(fo, key, Get(h, s.level)) && Bound(Get(h, s.level), key) == Some(Number(text))
    requires u.lib.parseInt(text, f.tp.kind.bits).Some?
    ensures ProcessField(u, f, s, h) == Done(Ok(Some(Leaf(Num(u.lib.parseInt(text, f.tp.kind.bits).value as real)))), h)
  {
    ContextDemandedHere(u, f, s, h, fo, key);
    var o := Demanded(Some(fo), key, Get(h, s.level));
    FoundPlain(h, s, key, o);
    NamedCases(u, f, s, h);
    NumberUnchecked(u, f.tp, text, o);
  }

  lemma ContextDemandedHere(u: Unmarshaler, f: Field, s: Scope, h: Store, fo: FieldOptions, key: string)
    requires !f.embedded && !f.tag.OtherKeys? && ParseKeyAndOptions(u, f) == Ok(KeyOptions(key, Some(fo)))
    requires Consistent(fo, key, Get(h, s.level))
    ensures ParseOptionsWithContext(u, f, Get(h, s.level)) == Ok(InForce(key, Demanded(Some(fo), key, Get(h, s.level))))
    ensures ProcessField(u, f, s, h) == ProcessNamed(u, f, s, h)
  {
    ContextExactly(fo, key, Get(h, s.level));
  }

  /** A simple key that is not inherited is looked up at the field's own level. */
  lemma FoundPlain(h: Store, s: Scope, key: string, o: Option<ContextOptions>)
    requires ReadKeys(key) == [key] && !Inherits(o)
    ensures Found(h, s, InForce(key, o)) == Sought(Bound(Get(h, s.level), key), h)
  {
    FindPlain(h, ValuerOf(s), key);
    FindPlain(h, CreateValuer(ValuerOf(s), false), key);
    assert Nearest(CreateValuer(ValuerOf(s), false)) == Nearest(ValuerOf(s)) == Nearest(MapValuer(s.level)) == s.level;
  }

  lemma NumberUnchecked(u: Unmarshaler, tp: Type, s: string, o: Option<ContextOptions>)
    requires tp.Scalar? && tp.kind.KInt? && u.lib.parseInt(s, tp.kind.bits).Some?
    requires OptionsOf(o) == [] && RangeOf(o) == None
    ensures ScalarWithValue(u, tp, Number(s), o) == Ok(Some(Leaf(Num(u.lib.parseInt(s, tp.kind.bits).value as real))))
  {
  }

  /** `a,optional=b,range=[0:1]`, as a tag and as the options it stands for. */
  const ZERO_TO_ONE := NumberRange(0.0, true, 1.0, true)
  const RANGED := FieldOptions(ContextOptions(false, false, true, [], "", "", Some(ZERO_TO_ONE)), "b")

  function RangedField(n: Numerals): Field
  {
    Field("A", true, false, Tagged(PrintTag(n, "a", RANGED)), Scalar(KInt(0)))
  }

  lemma RangedTag(n: Numerals)
    requires Writes(n, 0.0) && Writes(n, 1.0)
    ensures var tag := PrintTag(n, "a", RANGED); tag != "" && TrimSpace(tag) == tag
  {
    var group := PrintRange(n, Some(ZERO_TO_ONE));
    var dependent := PrintOptional(RANGED);
    assert PrintAll(n, RANGED) == dependent + group == [dependent[0], group[0]];
    var ps := [dependent[0], group[0]];
    assert ps[1..] == group && group[1..] == [];
    assert Written(group) == [SEPARATOR] + group[0].written;
    PlainIsEscaped("a");
    var tag := PrintTag(n, "a", RANGED);
    assert tag[0] == 'a' && tag[|tag| - 1] == group[0].written[|group[0].written| - 1] == ']';
    TrimSpaceKeeps(tag);
  }

  /** With both fields given, 5 is accepted into a field that is to be between 0 and 1. */
  lemma DependentOutOfRange(u: Unmarshaler)
    requires Writes(u.lib.numerals, 0.0) && Writes(u.lib.numerals, 1.0)
    requires !u.fromString && u.lib.parseInt("5", 0) == Some(5)
    ensures var f, h := RangedField(u.lib.numerals), [map["a" := Number("5"), "b" := Number("5")]];
            ParseKeyAndOptions(u, f) == Ok(KeyOptions("a", Some(RANGED))) && !WithinRange(5.0, RANGED.context.range) &&
            ProcessField(u, f, Scope(0, None), h) == Done(Ok(Some(Leaf(Num(5.0)))), h)
  {
    var f, h := RangedField(u.lib.numerals), [map["a" := Number("5"), "b" := Number("5")]];
    RangedTag(u.lib.numerals);
    TagRoundTrip(u.lib.numerals, "a", RANGED);
    assert ParseKeyAndOptions(u, f) == Ok(KeyOptions("a", Some(RANGED)));
    SplitNone("a", '.');
    assert NonEmpty(["a"]) == ["a"] by { assert ["a"][1..] == []; }
    DependentRangeIgnored(u, f, Scope(0, None), h, RANGED, "a", "5");
  }
}
