/** A printer for struct tags, and the proof that the tag parser undoes it. */
module TagPrinter {
  import opened Wrappers
  import opened Strings
  import opened TagScanner
  import opened Tags

  /** An option as it is written in a tag, and as it reads after the scanner has gone over it. */
  datatype Printed = Printed(written: string, read: string)

  /** A property whose value is escaped; an absent value is not written. */
  function PrintValue(name: string, value: string): seq<Printed>
  {
    if value == "" then [] else [Printed(name + [EQUAL] + Escape(value), name + [EQUAL] + value)]
  }

  /** A property whose value is a bracketed group: the scanner leaves it alone. */
  function PrintGroup(name: string, opening: char, body: string, closing: char): seq<Printed>
  {
    var text := name + [EQUAL] + ([opening] + body + [closing]);
    [Printed(text, text)]
  }

  function PrintFlag(name: string, on: bool): seq<Printed>
  {
    if on then [Printed(name, name)] else []
  }

  function PrintOptional(fo: FieldOptions): seq<Printed>
  {
    if fo.optionalDep == "" then PrintFlag("optional", fo.context.optional) else PrintValue("optional", fo.optionalDep)
  }

  function PrintOptions(options: seq<string>): seq<Printed>
  {
    if options == [] then [] else PrintGroup("options", '[', Listed(options), ']')
  }

  function PrintRange(n: Numerals, range: Option<NumberRange>): seq<Printed>
  {
    if range.None? then []
    else
      var r := range.value;
      PrintGroup("range", if r.leftInclude then '[' else '(', n.format(r.left) + ":" + n.format(r.right),
                 if r.rightInclude then ']' else ')')
  }

  function PrintAll(n: Numerals, fo: FieldOptions): seq<Printed>
  {
    PrintFlag("inherit", fo.context.inherit) + PrintFlag("string", fo.context.fromString) + PrintOptional(fo) +
    PrintOptions(fo.context.options) + PrintValue("default", fo.context.default) +
    PrintValue("env", fo.context.envVar) + PrintRange(n, fo.context.range)
  }

  function PrintTag(n: Numerals, key: string, fo: FieldOptions): string
  {
    Escape(key) + Written(PrintAll(n, fo))
  }

  function Written(ps: seq<Printed>): string
  {
    if ps == [] then "" else [SEPARATOR] + ps[0].written + Written(ps[1..])
  }

  function Read(ps: seq<Printed>): seq<string>
  {
    if ps == [] then [] else [ps[0].read] + Read(ps[1..])
  }

  // ---------- What can be printed ----------

  predicate IsValue(s: string) { Trimmed(s) && EQUAL !in s }

  predicate IsElement(s: string) { IsValue(s) && forall c :: c in s ==> !IsOpening(c) && !IsClosing(c) }

  predicate Printable(n: Numerals, fo: FieldOptions)
  {
    fo != NO_OPTIONS &&
    (fo.optionalDep != "" ==> fo.context.optional) && IsValue(fo.optionalDep) &&
    (forall e :: e in fo.context.options ==> IsElement(e)) &&
    IsValue(fo.context.default) && IsValue(fo.context.envVar) &&
    (fo.context.range.Some? ==> PrintableRange(n, fo.context.range.value))
  }

  /** A range that is not empty, between numbers that can be written. */
  predicate PrintableRange(n: Numerals, r: NumberRange)
  {
    Writes(n, r.left) && Writes(n, r.right) &&
    (r.left < r.right || (r.left == r.right && r.leftInclude && r.rightInclude))
  }

  // ---------- The scanner reads what was written ----------

  /** The scanner turns the written form of an option into its read form, opening and closing its own groups. */
  ghost predicate Transparent(p: Printed)
  {
    forall s: Scan :: !s.escaped && !s.grouped ==> Run(s, p.written) == s.(buf := s.buf + p.read)
  }

  ghost predicate Clean(p: Printed)
  {
    Transparent(p) && Trimmed(p.read) && p.read != ""
  }

  ghost predicate AllClean(ps: seq<Printed>)
  {
    forall p :: p in ps ==> Clean(p)
  }

  predicate IsName(s: string)
  {
    s != "" && forall c :: c in s ==> 'a' <= c <= 'z'
  }

  lemma {:induction false} PlainIsEscaped(s: string)
    requires forall c :: c in s ==> !Special(c)
    ensures Escape(s) == s
  {
    if s != "" {
      PlainIsEscaped(s[1..]);
    }
  }

  lemma {:induction false} EscapeAppend(a: string, b: string)
    ensures Escape(a + b) == Escape(a) + Escape(b)
  {
    if a == "" {
      assert a + b == b;
    } else {
      EscapeAppend(a[1..], b);
      assert (a + b)[0] == a[0] && (a + b)[1..] == a[1..] + b;
      var head := if Special(a[0]) then [ESCAPE, a[0]] else [a[0]];
      assert head + (Escape(a[1..]) + Escape(b)) == (head + Escape(a[1..])) + Escape(b);
    }
  }

  lemma EscapedIsTransparent(text: string)
    ensures Transparent(Printed(Escape(text), text))
  {
    forall s: Scan | !s.escaped && !s.grouped ensures Run(s, Escape(text)) == s.(buf := s.buf + text) {
      RunEscaped(s, text);
    }
  }

  lemma NameIsPlain(name: string)
    requires IsName(name)
    ensures Escape(name) == name && Escape(name + [EQUAL]) == name + [EQUAL]
    ensures !IsSpace(name[0]) && Trimmed(name)
  {
    assert forall i :: 0 <= i < |name| ==> name[i] in name;
    PlainIsEscaped(name);
    PlainIsEscaped(name + [EQUAL]);
  }

  lemma ValueIsClean(name: string, value: string)
    requires IsName(name) && Trimmed(value)
    ensures AllClean(PrintValue(name, value))
  {
    if value == "" { return; }
    var p := PrintValue(name, value)[0];
    NameIsPlain(name);
    EscapeAppend(name + [EQUAL], value);
    assert p.written == Escape(p.read);
    EscapedIsTransparent(p.read);
    assert p.read[0] == name[0] && p.read[|p.read| - 1] == value[|value| - 1];
  }

  lemma FlagIsClean(name: string, on: bool)
    requires IsName(name)
    ensures AllClean(PrintFlag(name, on))
  {
    NameIsPlain(name);
    EscapedIsTransparent(name);
    var p := Printed(name, name);
    assert Transparent(p) && Clean(p);
    assert forall q :: q in PrintFlag(name, on) ==> q == p;
  }

  /** Inside a group the scanner copies everything but closing brackets blindly. */
  lemma {:induction false} RunGroup(s: Scan, body: string)
    requires !s.escaped && s.grouped
    requires forall c :: c in body ==> !IsOpening(c) && !IsClosing(c)
    ensures Run(s, body) == s.(buf := s.buf + body)
    decreases body
  {
    if body == "" {
      assert s.buf + body == s.buf;
    } else {
      RunGroup(s.(buf := s.buf + [body[0]]), body[1..]);
      assert s.buf + [body[0]] + body[1..] == s.buf + body;
    }
  }

  lemma RunWholeGroup(s: Scan, head: string, opening: char, body: string, closing: char)
    requires !s.escaped && !s.grouped && IsOpening(opening) && IsClosing(closing) && Escape(head) == head
    requires forall c :: c in body ==> !IsOpening(c) && !IsClosing(c)
    ensures Run(s, head + [opening] + body + [closing]) == s.(buf := s.buf + head + [opening] + body + [closing])
  {
    RunEscaped(s, head);
    RunSnoc(s, head, opening);
    var inside := s.(buf := s.buf + head + [opening], grouped := true);
    RunAppend(s, head + [opening], body);
    RunGroup(inside, body);
    RunSnoc(s, head + [opening] + body, closing);
  }

  lemma GroupIsTransparent(head: string, opening: char, body: string, closing: char)
    requires IsOpening(opening) && IsClosing(closing) && Escape(head) == head
    requires forall c :: c in body ==> !IsOpening(c) && !IsClosing(c)
    ensures var text := head + ([opening] + body + [closing]); Transparent(Printed(text, text))
  {
    var text := head + ([opening] + body + [closing]);
    assert text == head + [opening] + body + [closing];
    forall s: Scan | !s.escaped && !s.grouped ensures Run(s, text) == s.(buf := s.buf + text) {
      RunWholeGroup(s, head, opening, body, closing);
      assert s.buf + head + [opening] + body + [closing] == s.buf + text;
    }
  }

  lemma GroupIsClean(name: string, opening: char, body: string, closing: char)
    requires IsName(name) && IsOpening(opening) && IsClosing(closing)
    requires forall c :: c in body ==> !IsOpening(c) && !IsClosing(c)
    ensures Clean(PrintGroup(name, opening, body, closing)[0])
  {
    var p := PrintGroup(name, opening, body, closing)[0];
    NameIsPlain(name);
    GroupIsTransparent(name + [EQUAL], opening, body, closing);
    assert p.read[0] == name[0] && p.read[|p.read| - 1] == closing;
  }

  /** The list printed for `options=` has no brackets, so that the group around it stays one group. */
  lemma {:induction false} EscapeHasNoBrackets(e: string)
    requires IsElement(e) || forall c :: c in e ==> !IsOpening(c) && !IsClosing(c) && c != EQUAL
    ensures forall c :: c in Escape(e) ==> !IsOpening(c) && !IsClosing(c) && c != EQUAL
  {
    if e != "" {
      EscapeHasNoBrackets(e[1..]);
    }
  }

  lemma {:induction false} JoinHasNoBrackets(texts: seq<string>)
    requires forall e :: e in texts ==> IsElement(e)
    ensures forall c :: c in Join(texts) || c in Listed(texts) ==> !IsOpening(c) && !IsClosing(c) && c != EQUAL
  {
    if texts != [] {
      EscapeHasNoBrackets(texts[0]);
      if |texts| > 1 { JoinHasNoBrackets(texts[1..]); }
    }
  }

  lemma OptionsAreClean(options: seq<string>)
    requires forall e :: e in options ==> IsElement(e)
    ensures AllClean(PrintOptions(options))
  {
    if options != [] {
      JoinHasNoBrackets(options);
      GroupIsClean("options", '[', Listed(options), ']');
    }
  }

  lemma RangeIsClean(n: Numerals, range: Option<NumberRange>)
    requires range.Some? ==> PrintableRange(n, range.value)
    ensures AllClean(PrintRange(n, range))
  {
    if range.Some? {
      var r := range.value;
      var body := n.format(r.left) + ":" + n.format(r.right);
      assert forall c :: c in body ==> c in n.format(r.left) || c == ':' || c in n.format(r.right);
      GroupIsClean("range", if r.leftInclude then '[' else '(', body, if r.rightInclude then ']' else ')');
    }
  }

  lemma AppendClean(a: seq<Printed>, b: seq<Printed>)
    requires AllClean(a) && AllClean(b)
    ensures AllClean(a + b)
  {
  }

  lemma PrintedIsClean(n: Numerals, fo: FieldOptions)
    requires Printable(n, fo)
    ensures AllClean(PrintAll(n, fo))
  {
    var c := fo.context;
    var a1, a2, a3 := PrintFlag("inherit", c.inherit), PrintFlag("string", c.fromString), PrintOptional(fo);
    var a4, a5, a6 := PrintOptions(c.options), PrintValue("default", c.default), PrintValue("env", c.envVar);
    FlagIsClean("inherit", c.inherit);
    FlagIsClean("string", c.fromString);
    FlagIsClean("optional", c.optional);
    ValueIsClean("optional", fo.optionalDep);
    OptionsAreClean(c.options);
    ValueIsClean("default", c.default);
    ValueIsClean("env", c.envVar);
    RangeIsClean(n, c.range);
    AppendClean(a1, a2);
    AppendClean(a1 + a2, a3);
    AppendClean(a1 + a2 + a3, a4);
    AppendClean(a1 + a2 + a3 + a4, a5);
    AppendClean(a1 + a2 + a3 + a4 + a5, a6);
    AppendClean(a1 + a2 + a3 + a4 + a5 + a6, PrintRange(n, c.range));
  }

  /** Scanning one option: the buffer before it becomes a segment, and the option the new buffer. */
  lemma ReadOne(s: Scan, p: Printed)
    requires !s.escaped && !s.grouped && Trimmed(s.buf) && Clean(p)
    ensures Run(s, [SEPARATOR] + p.written) == Scan(s.segments + [s.buf], p.read, false, false)
  {
    var cut := Next(s, SEPARATOR);
    TrimSpaceKeeps(s.buf);
    RunAppend(s, [SEPARATOR], p.written);
    RunSnoc(s, "", SEPARATOR);
    assert "" + [SEPARATOR] == [SEPARATOR];
    assert Run(s, [SEPARATOR]) == cut;
    assert Run(cut, p.written) == cut.(buf := "" + p.read);
    assert "" + p.read == p.read;
  }

  /** The scanner after the key and the options. */
  ghost function After(s: Scan, ps: seq<Printed>): Scan
    decreases ps
  {
    if ps == [] then s else After(Scan(s.segments + [s.buf], ps[0].read, false, false), ps[1..])
  }

  lemma {:induction false} RunWritten(s: Scan, ps: seq<Printed>)
    requires !s.escaped && !s.grouped && Trimmed(s.buf) && AllClean(ps)
    ensures Run(s, Written(ps)) == After(s, ps)
    decreases ps
  {
    if ps != [] {
      var p := ps[0];
      assert p in ps && Clean(p);
      ReadOne(s, p);
      RunAppend(s, [SEPARATOR] + p.written, Written(ps[1..]));
      AllCleanRest(ps);
      RunWritten(Scan(s.segments + [s.buf], p.read, false, false), ps[1..]);
    }
  }

  lemma AllCleanRest(ps: seq<Printed>)
    requires AllClean(ps) && ps != []
    ensures AllClean(ps[1..])
  {
  }

  lemma {:induction false} AfterSegments(s: Scan, ps: seq<Printed>)
    ensures After(s, ps).segments + [After(s, ps).buf] == s.segments + [s.buf] + Read(ps)
    ensures ps != [] ==> After(s, ps).buf == ps[|ps| - 1].read
    decreases ps
  {
    if ps != [] {
      var next := Scan(s.segments + [s.buf], ps[0].read, false, false);
      AfterSegments(next, ps[1..]);
      assert next.segments + [next.buf] + Read(ps[1..]) == s.segments + [s.buf] + Read(ps);
    }
  }

  lemma FinishKeeps(s: Scan)
    requires Trimmed(s.buf) && s.buf != ""
    ensures Finish(s) == s.segments + [s.buf]
  {
    TrimSpaceKeeps(s.buf);
  }

  lemma RunTag(key: string, ps: seq<Printed>)
    requires Trimmed(key) && AllClean(ps)
    ensures Run(START, Escape(key) + Written(ps)) == After(START.(buf := key), ps)
  {
    RunAppend(START, Escape(key), Written(ps));
    RunEscaped(START, key);
    assert START.buf + key == key;
    RunWritten(START.(buf := key), ps);
  }

  /** The segments of a printed tag are its key and the read forms of its options. */
  lemma SegmentsOfTag(key: string, ps: seq<Printed>)
    requires Trimmed(key) && AllClean(ps) && ps != []
    ensures Segments(Escape(key) + Written(ps)) == [key] + Read(ps)
  {
    var s := START.(buf := key);
    RunTag(key, ps);
    AfterSegments(s, ps);
    LastIsClean(ps);
    FinishKeeps(After(s, ps));
    assert s.segments + [s.buf] == [key];
  }

  lemma LastIsClean(ps: seq<Printed>)
    requires AllClean(ps) && ps != []
    ensures Trimmed(ps[|ps| - 1].read) && ps[|ps| - 1].read != ""
  {
    assert Clean(ps[|ps| - 1]);
  }

  // ---------- The options are read back ----------

  lemma {:induction false} ParseEachAppend(n: Numerals, fo: FieldOptions, a: seq<string>, b: seq<string>)
    requires ParseEach(n, fo, a).Ok?
    ensures ParseEach(n, fo, a + b) == ParseEach(n, ParseEach(n, fo, a).value, b)
    decreases a
  {
    if a == [] {
      assert a + b == b;
    } else {
      assert (a + b)[0] == a[0] && (a + b)[1..] == a[1..] + b;
      ParseEachAppend(n, ParseOption(n, fo, TrimSpace(a[0])).value, a[1..], b);
    }
  }

  lemma {:induction false} ReadAppend(a: seq<Printed>, b: seq<Printed>)
    ensures Read(a + b) == Read(a) + Read(b)
  {
    if a == [] {
      assert a + b == b;
    } else {
      assert (a + b)[0] == a[0] && (a + b)[1..] == a[1..] + b;
      ReadAppend(a[1..], b);
    }
  }

  /** `from` becomes `to` when the options in `ps` are read. */
  ghost predicate Takes(n: Numerals, from: FieldOptions, ps: seq<Printed>, to: FieldOptions)
  {
    ParseEach(n, from, Read(ps)) == Ok(to)
  }

  lemma TakesAppend(n: Numerals, f: FieldOptions, a: seq<Printed>, g: FieldOptions, b: seq<Printed>, h: FieldOptions)
    requires Takes(n, f, a, g) && Takes(n, g, b, h)
    ensures Takes(n, f, a + b, h)
  {
    ReadAppend(a, b);
    ParseEachAppend(n, f, Read(a), Read(b));
  }

  lemma TakesOne(n: Numerals, f: FieldOptions, p: Printed, g: FieldOptions)
    requires Trimmed(p.read) && ParseOption(n, f, p.read) == Ok(g)
    ensures Takes(n, f, [p], g)
  {
  }

  lemma TakesInherit(n: Numerals, f: FieldOptions, on: bool)
    requires !f.context.inherit
    ensures Takes(n, f, PrintFlag("inherit", on), f.(context := f.context.(inherit := on)))
  {
  }

  lemma TakesFromString(n: Numerals, f: FieldOptions, on: bool)
    requires !f.context.fromString
    ensures Takes(n, f, PrintFlag("string", on), f.(context := f.context.(fromString := on)))
  {
  }

  lemma TakesOptional(n: Numerals, f: FieldOptions, fo: FieldOptions)
    requires !f.context.optional && f.optionalDep == "" && IsValue(fo.optionalDep)
    requires fo.optionalDep != "" ==> fo.context.optional
    ensures Takes(n, f, PrintOptional(fo),
                  FieldOptions(f.context.(optional := fo.context.optional), fo.optionalDep))
  {
    if fo.optionalDep != "" {
      TakesDependent(n, f, fo.optionalDep);
    } else if fo.context.optional {
      NameIsPlain("optional");
      SplitNone("optional", EQUAL);
      TakesOne(n, f, Printed("optional", "optional"), f.(context := f.context.(optional := true)));
    }
  }

  /** The read form of a property, its kind and its value. */
  lemma PropertyIsRead(name: string, value: string)
    requires IsName(name) && IsValue(value)
    ensures var option := name + [EQUAL] + value;
            Split(option, EQUAL) == [name, value] && ParseProperty(option) == Some(value) &&
            HasPrefix(option, name) && option[|name|] == EQUAL && (value != "" ==> Trimmed(option))
  {
    var option := name + [EQUAL] + value;
    SplitOnce(name, value, EQUAL);
    TrimSpaceKeeps(value);
    NameIsPlain(name);
    assert option[0] == name[0];
    if value != "" { assert option[|option| - 1] == value[|value| - 1]; }
  }

  lemma TakesDependent(n: Numerals, f: FieldOptions, dep: string)
    requires IsValue(dep) && dep != ""
    ensures Takes(n, f, PrintValue("optional", dep), FieldOptions(f.context.(optional := true), dep))
  {
    PropertyIsRead("optional", dep);
    var option := "optional" + [EQUAL] + dep;
    assert KindOf(option) == Optional;
    TakesOne(n, f, Printed("optional" + [EQUAL] + Escape(dep), option),
             FieldOptions(f.context.(optional := true), dep));
  }

  lemma TakesDefault(n: Numerals, f: FieldOptions, value: string)
    requires IsValue(value) && f.context.default == ""
    ensures Takes(n, f, PrintValue("default", value), f.(context := f.context.(default := value)))
  {
    if value != "" {
      PropertyIsRead("default", value);
      var option := "default" + [EQUAL] + value;
      assert option[0] == 'd' && KindOf(option) == Default;
      TakesOne(n, f, Printed("default" + [EQUAL] + Escape(value), option), f.(context := f.context.(default := value)));
    }
  }

  lemma TakesEnv(n: Numerals, f: FieldOptions, value: string)
    requires IsValue(value) && f.context.envVar == ""
    ensures Takes(n, f, PrintValue("env", value), f.(context := f.context.(envVar := value)))
  {
    if value != "" {
      PropertyIsRead("env", value);
      var option := "env" + [EQUAL] + value;
      assert option[0] == 'e' && KindOf(option) == Env;
      TakesOne(n, f, Printed("env" + [EQUAL] + Escape(value), option), f.(context := f.context.(envVar := value)));
    }
  }

  /** The second pass strips the brackets and undoes the escapes that the first pass left in the group. */
  lemma GroupedSegmentsBack(options: seq<string>)
    requires options != [] && forall e :: e in options ==> IsElement(e)
    ensures ParseOptions(['['] + Listed(options) + [']']) == options
  {
    var body := Listed(options);
    var val := ['['] + body + [']'];
    JoinHasNoBrackets(options);
    ListedNonEmpty(options);
    assert val[1..] == body + [']'] && body[0] in body && !IsOpening(body[0]);
    assert TrimLeft(val[1..], IsOpening) == val[1..];
    assert TrimLeft(val, IsOpening) == body + [']'];
    assert (body + [']'])[..|body|] == body && body[|body| - 1] in body;
    assert TrimRight(body, IsClosing) == body;
    assert TrimRight(body + [']'], IsClosing) == body;
    SegmentsOfListed(options);
  }

  lemma {:induction false} ListedNonEmpty(texts: seq<string>)
    requires texts != []
    ensures Listed(texts) != ""
  {
  }

  lemma TakesOptions(n: Numerals, f: FieldOptions, options: seq<string>)
    requires f.context.options == [] && forall e :: e in options ==> IsElement(e)
    ensures Takes(n, f, PrintOptions(options), f.(context := f.context.(options := options)))
  {
    if options != [] {
      var body := Listed(options);
      var value := ['['] + body + [']'];
      JoinHasNoBrackets(options);
      PropertyIsRead("options", value);
      GroupedSegmentsBack(options);
      var option := "options" + [EQUAL] + value;
      assert option[6] == 's' && KindOf(option) == Options;
      TakesOne(n, f, Printed(option, option), f.(context := f.context.(options := options)));
    }
  }

  lemma RangeBack(n: Numerals, r: NumberRange)
    requires PrintableRange(n, r)
    ensures var l, u := n.format(r.left), n.format(r.right);
            var value := [if r.leftInclude then '[' else '('] + (l + ":" + u) + [if r.rightInclude then ']' else ')'];
            ParseNumberRange(n, value) == Some(r) && IsValue(value)
  {
    var l, u := n.format(r.left), n.format(r.right);
    var value := [if r.leftInclude then '[' else '('] + (l + ":" + u) + [if r.rightInclude then ']' else ')'];
    assert value[1..|value| - 1] == l + ":" + u;
    assert l + ":" + u == l + [':'] + u;
    SplitOnce(l, u, ':');
  }

  lemma TakesRange(n: Numerals, f: FieldOptions, range: Option<NumberRange>)
    requires f.context.range == None && (range.Some? ==> PrintableRange(n, range.value))
    ensures Takes(n, f, PrintRange(n, range), f.(context := f.context.(range := range)))
  {
    if range.Some? {
      var r := range.value;
      var value := [if r.leftInclude then '[' else '('] + (n.format(r.left) + ":" + n.format(r.right)) +
                   [if r.rightInclude then ']' else ')'];
      RangeBack(n, r);
      PropertyIsRead("range", value);
      var option := "range" + [EQUAL] + value;
      assert option[0] == 'r' && KindOf(option) == Range;
      TakesOne(n, f, Printed(option, option), f.(context := f.context.(range := range)));
    }
  }

  /** Reading all printed options, in the order they are printed, gives back the options. */
  lemma TakesAll(n: Numerals, fo: FieldOptions)
    requires Printable(n, fo)
    ensures Takes(n, NO_OPTIONS, PrintAll(n, fo), fo)
  {
    var c := fo.context;
    var f1 := FieldOptions(NO_OPTIONS.context.(inherit := c.inherit), "");
    var f2 := FieldOptions(f1.context.(fromString := c.fromString), "");
    var f3 := FieldOptions(f2.context.(optional := c.optional), fo.optionalDep);
    var f4 := f3.(context := f3.context.(options := c.options));
    var f5 := f4.(context := f4.context.(default := c.default));
    var f6 := f5.(context := f5.context.(envVar := c.envVar));
    var a1, a2, a3 := PrintFlag("inherit", c.inherit), PrintFlag("string", c.fromString), PrintOptional(fo);
    var a4, a5, a6, a7 := PrintOptions(c.options), PrintValue("default", c.default), PrintValue("env", c.envVar),
                          PrintRange(n, c.range);
    TakesInherit(n, NO_OPTIONS, c.inherit);
    TakesFromString(n, f1, c.fromString);
    TakesAppend(n, NO_OPTIONS, a1, f1, a2, f2);
    TakesOptional(n, f2, fo);
    TakesAppend(n, NO_OPTIONS, a1 + a2, f2, a3, f3);
    TakesOptions(n, f3, c.options);
    TakesAppend(n, NO_OPTIONS, a1 + a2 + a3, f3, a4, f4);
    TakesDefault(n, f4, c.default);
    TakesAppend(n, NO_OPTIONS, a1 + a2 + a3 + a4, f4, a5, f5);
    TakesEnv(n, f5, c.envVar);
    TakesAppend(n, NO_OPTIONS, a1 + a2 + a3 + a4 + a5, f5, a6, f6);
    TakesRange(n, f6, c.range);
    TakesAppend(n, NO_OPTIONS, a1 + a2 + a3 + a4 + a5 + a6, f6, a7, fo);
  }

  /**
   The printer and `doParseKeyAndOptions` undo each other, for every trimmed key, whatever characters it
   has, and every printable set of options.
   */
  lemma TagRoundTrip(n: Numerals, key: string, fo: FieldOptions)
    requires Trimmed(key) && Printable(n, fo)
    ensures DoParse(n, PrintTag(n, key, fo)) == Parsed(key, Some(fo))
  {
    var ps := PrintAll(n, fo);
    PrintedIsClean(n, fo);
    TakesAll(n, fo);
    assert ps != [];
    SegmentsOfTag(key, ps);
    TrimSpaceKeeps(key);
    var segments := [key] + Read(ps);
    assert segments[1..] == Read(ps) && |Read(ps)| > 0;
  }
}
