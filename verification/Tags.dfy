/**
 The struct-tag language: `key,option,option=value,...` (core/mapping/utils.go:153-171 and 251-439) and
 the options of a field (core/mapping/fieldoptions.go:7-31).
 */
module Tags {
  import opened Wrappers
  import opened Strings
  import opened TagScanner

  datatype NumberRange = NumberRange(left: real, leftInclude: bool, right: real, rightInclude: bool)

  /** `fieldOptionsWithContext`: the options once it is decided whether the field is optional. */
  datatype ContextOptions = ContextOptions(
    inherit: bool, fromString: bool, optional: bool, options: seq<string>,
    default: string, envVar: string, range: Option<NumberRange>)

  /** `fieldOptions`: the options as written, where being optional may depend on another field. */
  datatype FieldOptions = FieldOptions(context: ContextOptions, optionalDep: string)

  const NO_OPTIONS := FieldOptions(ContextOptions(false, false, false, [], "", "", None), "")

  /** strconv's conversions between numbers and their texts, which are not modelled. */
  datatype Numerals = Numerals(parse: string -> Option<real>, format: real -> string)

  /** The number is formatted as a plain word that is parsed back. */
  predicate Writes(n: Numerals, x: real)
  {
    n.parse(n.format(x)) == Some(x) && n.format(x) != "" && PlainWord(n.format(x))
  }

  /** There are conversions that write any two numbers. */
  lemma NumeralsFor(x: real, y: real) returns (n: Numerals)
    ensures Writes(n, x) && Writes(n, y)
  {
    n := Numerals(s => if s == "0" then Some(x) else if s == "1" then Some(y) else None,
                  z => if z == x then "0" else "1");
  }

  predicate PlainWord(s: string)
  {
    forall c :: c in s ==> !Special(c) && c != EQUAL && c != ':' && !IsSpace(c)
  }

  datatype TagError = WrongOptional | WrongTagValue | WrongNumberRange

  const EQUAL := '='
  const OPTIONS_BAR := '|'

  /** math.MaxFloat64, what an absent end of a range stands for. */
  const MAX_FLOAT64: real := 179769313486231570814527423731704356798070567525844996598917476803157260780028538760589558632766878171540458953514382464234321326889464182768467546703537516986049910576551282076245490090389328944075868508455133942304583236903222948165808559332123347774797926204144723168738177180919299881250404026184124858368.0

  // ---------- Parsing ----------

  /** `parseNumberRange`: `[1:5)`, `(:5]` and so on. */
  function ParseNumberRange(n: Numerals, str: string): Option<NumberRange>
  {
    if |str| < 2 || !IsOpening(str[0]) || !IsClosing(str[|str| - 1]) then None
    else
      var leftInclude, rightInclude := str[0] == '[', str[|str| - 1] == ']';
      var fields := Split(str[1..|str| - 1], ':');
      if |fields| != 2 || (fields[0] == "" && fields[1] == "") then None
      else
        var left := if fields[0] == "" then Some(-MAX_FLOAT64) else n.parse(fields[0]);
        var right := if fields[1] == "" then Some(MAX_FLOAT64) else n.parse(fields[1]);
        if left.None? || right.None? then None
        else if left.value > right.value then None
        else if left.value == right.value && (!leftInclude || !rightInclude) then None
        else Some(NumberRange(left.value, leftInclude, right.value, rightInclude))
  }

  /** `parseGroupedSegments`: the list between the brackets goes through the scanner a second time. */
  function ParseGroupedSegments(val: string): seq<string>
  {
    Segments(TrimRight(TrimLeft(val, IsOpening), IsClosing))
  }

  function ParseOptions(val: string): seq<string>
  {
    if val == "" then []
    else if val[0] == '[' then ParseGroupedSegments(val)
    else Split(val, OPTIONS_BAR)
  }

  function ParseProperty(option: string): Option<string>
  {
    var segs := Split(option, EQUAL);
    if |segs| == 2 then Some(TrimSpace(segs[1])) else None
  }

  datatype OptionKind = Inherit | FromString | Optional | Options | Default | Env | Range | Unknown

  /** Which case of the switch in `parseOption` an option falls under. */
  function KindOf(option: string): OptionKind
  {
    if option == "inherit" then Inherit
    else if option == "string" then FromString
    else if HasPrefix(option, "optional") then Optional
    else if HasPrefix(option, "options") then Options
    else if HasPrefix(option, "default") then Default
    else if HasPrefix(option, "env") then Env
    else if HasPrefix(option, "range") then Range
    else Unknown
  }

  /** `parseOption`: what one option of the tag does to the options read so far. */
  function ParseOption(n: Numerals, fo: FieldOptions, option: string): Result<FieldOptions, TagError>
  {
    var c := fo.context;
    match KindOf(option)
    case Inherit => Ok(fo.(context := c.(inherit := true)))
    case FromString => Ok(fo.(context := c.(fromString := true)))
    case Optional =>
      var segs := Split(option, EQUAL);
      if |segs| == 1 then Ok(fo.(context := c.(optional := true)))
      else if |segs| == 2 then Ok(FieldOptions(c.(optional := true), segs[1]))
      else Err(WrongOptional)
    case Options =>
      var val := ParseProperty(option);
      if val.None? then Err(WrongTagValue) else Ok(fo.(context := c.(options := ParseOptions(val.value))))
    case Default =>
      var val := ParseProperty(option);
      if val.None? then Err(WrongTagValue) else Ok(fo.(context := c.(default := val.value)))
    case Env =>
      var val := ParseProperty(option);
      if val.None? then Err(WrongTagValue) else Ok(fo.(context := c.(envVar := val.value)))
    case Range =>
      var val := ParseProperty(option);
      if val.None? then Err(WrongTagValue)
      else
        var nr := ParseNumberRange(n, val.value);
        if nr.None? then Err(WrongNumberRange) else Ok(fo.(context := c.(range := nr)))
    case Unknown => Ok(fo)
  }

  function ParseEach(n: Numerals, fo: FieldOptions, options: seq<string>): Result<FieldOptions, TagError>
    decreases options
  {
    if options == [] then Ok(fo)
    else
      var r := ParseOption(n, fo, TrimSpace(options[0]));
      if r.Err? then r else ParseEach(n, r.value, options[1..])
  }

  /** The outcome of `doParseKeyAndOptions`, which indexes `segments[0]` without looking. */
  datatype Parsed = Parsed(key: string, options: Option<FieldOptions>) | Failed(error: TagError) | Panics

  function Interpret(n: Numerals, segments: seq<string>): Parsed
  {
    if segments == [] then Panics
    else
      var key := TrimSpace(segments[0]);
      if |segments| == 1 then Parsed(key, None)
      else
        var r := ParseEach(n, NO_OPTIONS, segments[1..]);
        if r.Err? then Failed(r.error) else Parsed(key, Some(r.value))
  }

  function DoParse(n: Numerals, value: string): Parsed
  {
    Interpret(n, Segments(value))
  }

  /** `doParseKeyAndOptions`, with its loop over the options. */
  method DoParseKeyAndOptions(n: Numerals, value: string) returns (r: Parsed)
    ensures r == DoParse(n, value)
  {
    var segments := ParseSegments(value);
    if segments == [] {
      return Panics;
    }
    var key := TrimSpace(segments[0]);
    var options := segments[1..];
    if |options| == 0 {
      return Parsed(key, None);
    }
    var fieldOpts := NO_OPTIONS;
    var i := 0;
    while i < |options|
      invariant 0 <= i <= |options|
      invariant ParseEach(n, NO_OPTIONS, options) == ParseEach(n, fieldOpts, options[i..])
    {
      var option := TrimSpace(options[i]);
      var step := ParseOption(n, fieldOpts, option);
      assert options[i..][0] == options[i] && options[i..][1..] == options[i + 1..];
      if step.Err? {
        return Failed(step.error);
      }
      fieldOpts := step.value;
      i := i + 1;
    }
    return Parsed(key, Some(fieldOpts));
  }

  /**
   When a tag brings `doParseKeyAndOptions` down: it has no separator and nothing but spaces is left of it
   once escapes are taken away, as in a tag that is a single backslash.
   */
  lemma PanicsExactly(n: Numerals, value: string)
    ensures DoParse(n, value).Panics? <==>
            (forall i: nat :: i < |value| ==> !IsSeparator(value, i)) &&
            (forall c :: c in Unescaped(value, 0, |value|) ==> IsSpace(c))
  {
    SegmentsAreBetweenSeparators(value);
    BeforeFirstSeparator(value, |value|);
    TrimSpaceEmpty(Unescaped(value, SegmentStart(value, |value|), |value|));
  }

  lemma {:induction false} BeforeFirstSeparator(val: string, i: nat)
    requires i <= |val|
    ensures SegmentsBefore(val, i) == [] <==> forall k: nat :: k < i ==> !IsSeparator(val, k)
    ensures SegmentsBefore(val, i) == [] ==> SegmentStart(val, i) == 0
  {
    if i > 0 {
      BeforeFirstSeparator(val, i - 1);
    }
  }

  lemma BackslashPanics(n: Numerals)
    ensures DoParse(n, "\\").Panics?
  {
    var s := Next(START, '\\');
    assert "\\"[1..] == "" && Run(START, "\\") == Run(s, "");
  }

  // ---------- Order of the options ----------

  /** Equal, or failures both. */
  ghost predicate Agree(a: Result<FieldOptions, TagError>, b: Result<FieldOptions, TagError>)
  {
    a == b || (a.Err? && b.Err?)
  }

  function Both(n: Numerals, fo: FieldOptions, a: string, b: string): Result<FieldOptions, TagError>
  {
    var r := ParseOption(n, fo, a);
    if r.Err? then r else ParseOption(n, r.value, b)
  }

  ghost predicate Independent(a: string, b: string)
  {
    KindOf(TrimSpace(a)) != KindOf(TrimSpace(b)) || KindOf(TrimSpace(a)) == Unknown
  }

  lemma FlagCommutes(n: Numerals, fo: FieldOptions, a: string, b: string)
    requires KindOf(a) in {Inherit, FromString, Unknown} && (KindOf(a) != KindOf(b) || KindOf(a) == Unknown)
    ensures Agree(Both(n, fo, a, b), Both(n, fo, b, a))
  {
  }

  lemma OptionalCommutes(n: Numerals, fo: FieldOptions, a: string, b: string)
    requires KindOf(a) == Optional != KindOf(b)
    ensures Agree(Both(n, fo, a, b), Both(n, fo, b, a))
  {
  }

  lemma PropertyCommutes(n: Numerals, fo: FieldOptions, a: string, b: string)
    requires KindOf(a) in {Options, Default, Env} && KindOf(a) != KindOf(b)
    ensures Agree(Both(n, fo, a, b), Both(n, fo, b, a))
  {
  }

  lemma RangeCommutes(n: Numerals, fo: FieldOptions, a: string, b: string)
    requires KindOf(a) == Range != KindOf(b)
    ensures Agree(Both(n, fo, a, b), Both(n, fo, b, a))
  {
  }

  lemma OptionsCommute(n: Numerals, fo: FieldOptions, a: string, b: string)
    requires KindOf(a) != KindOf(b) || KindOf(a) == Unknown
    ensures Agree(Both(n, fo, a, b), Both(n, fo, b, a))
  {
    if KindOf(a) in {Inherit, FromString, Unknown} {
      FlagCommutes(n, fo, a, b);
    } else if KindOf(a) == Optional {
      OptionalCommutes(n, fo, a, b);
    } else if KindOf(a) == Range {
      RangeCommutes(n, fo, a, b);
    } else {
      PropertyCommutes(n, fo, a, b);
    }
  }

  /** Of options of different kinds, any one can be read first. */
  lemma {:induction false} ReadFirst(n: Numerals, fo: FieldOptions, options: seq<string>, i: nat)
    requires i < |options|
    requires forall j, k :: 0 <= j < k < |options| ==> Independent(options[j], options[k])
    ensures Agree(ParseEach(n, fo, options), ParseEach(n, fo, [options[i]] + Without(options, i)))
    decreases i
  {
    if i == 0 {
      assert [options[0]] + Without(options, 0) == options;
    } else {
      var a, b := TrimSpace(options[0]), TrimSpace(options[i]);
      var rest := options[1..];
      var others := Without(rest, i - 1);
      assert rest[i - 1] == options[i];
      assert Independent(options[0], options[i]);
      OptionsCommute(n, fo, a, b);
      assert Without(options, i)[1..] == others && Without(options, i)[0] == options[0];
      assert ([options[i]] + Without(options, i))[1..] == Without(options, i);
      assert ([options[i]] + others)[1..] == others;
      var first := ParseOption(n, fo, a);
      if first.Ok? {
        ReadFirst(n, first.value, rest, i - 1);
      }
    }
  }

  /** Taking one element away keeps the rest, in the multiset and in being independent. */
  lemma WithoutKeeps(a: seq<string>, i: nat)
    requires i < |a|
    ensures multiset(a) == multiset{a[i]} + multiset(Without(a, i))
    ensures (forall j, k :: 0 <= j < k < |a| ==> Independent(a[j], a[k])) ==>
              forall j, k :: 0 <= j < k < |a| - 1 ==> Independent(Without(a, i)[j], Without(a, i)[k])
  {
    assert a == a[..i] + [a[i]] + a[i + 1..];
    forall j | 0 <= j < |a| - 1 ensures Without(a, i)[j] == a[if j < i then j else j + 1] {
    }
  }

  /** Reordering options of different kinds changes neither the result nor whether there is one. */
  lemma {:induction false} ReorderOptions(n: Numerals, fo: FieldOptions, a: seq<string>, b: seq<string>)
    requires multiset(a) == multiset(b)
    requires forall j, k :: 0 <= j < k < |a| ==> Independent(a[j], a[k])
    ensures Agree(ParseEach(n, fo, a), ParseEach(n, fo, b))
    decreases |b|
  {
    if b == [] {
      assert |multiset(a)| == |multiset(b)|;
    } else {
      assert b[0] in multiset(a);
      var i: nat :| i < |a| && a[i] == b[0];
      ReadFirst(n, fo, a, i);
      WithoutKeeps(a, i);
      OthersKeep(a, b, i);
      var others := Without(a, i);
      assert ([a[i]] + others)[1..] == others;
      var first := ParseOption(n, fo, TrimSpace(b[0]));
      if first.Ok? {
        ReorderOptions(n, first.value, others, b[1..]);
      }
    }
  }

  lemma OthersKeep(a: seq<string>, b: seq<string>, i: nat)
    requires multiset(a) == multiset(b) && b != [] && i < |a| && a[i] == b[0]
    ensures multiset(Without(a, i)) == multiset(b[1..])
  {
    assert a == a[..i] + [a[i]] + a[i + 1..] && b == [b[0]] + b[1..];
    assert multiset(b) == multiset{b[0]} + multiset(b[1..]);
    assert multiset(Without(a, i)) == multiset(b) - multiset{b[0]};
  }
}
