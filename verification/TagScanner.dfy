/**
 `parseSegments` (core/mapping/utils.go:441-488): the scanner that cuts a struct tag at its commas,
 minding backslash escapes and bracketed groups.
 */
module TagScanner {
  import opened Strings

  const SEPARATOR := ','
  const ESCAPE := '\\'

  predicate IsOpening(c: char) { c == '(' || c == '[' }

  predicate IsClosing(c: char) { c == ')' || c == ']' }

  /** The state of the loop: the finished segments, the buffer and the two flags. */
  datatype Scan = Scan(segments: seq<string>, buf: string, escaped: bool, grouped: bool)

  const START := Scan([], "", false, false)

  function Next(s: Scan, ch: char): Scan
  {
    if s.escaped then s.(buf := s.buf + [ch], escaped := false)
    else if ch == SEPARATOR && !s.grouped then s.(segments := s.segments + [TrimSpace(s.buf)], buf := "")
    else if ch == ESCAPE && !s.grouped then s.(escaped := true)
    else s.(buf := s.buf + [ch], grouped := if IsOpening(ch) then true else if IsClosing(ch) then false else s.grouped)
  }

  function Run(s: Scan, text: string): Scan
    decreases text
  {
    if text == "" then s else Run(Next(s, text[0]), text[1..])
  }

  function Finish(s: Scan): seq<string>
  {
    if TrimSpace(s.buf) == "" then s.segments else s.segments + [TrimSpace(s.buf)]
  }

  /** The value `parseSegments` returns. */
  function Segments(val: string): seq<string>
  {
    Finish(Run(START, val))
  }

  /** The loop over the characters, as the source has it. */
  method ParseSegments(val: string) returns (segments: seq<string>)
    ensures segments == Segments(val)
  {
    segments := [];
    var escaped, grouped := false, false;
    var buf := "";
    for i := 0 to |val|
      invariant Scan(segments, buf, escaped, grouped) == Run(START, val[..i])
    {
      var ch := val[i];
      RunSnoc(START, val[..i], ch);
      assert val[..i + 1] == val[..i] + [ch];
      if escaped {
        buf := buf + [ch];
        escaped := false;
        continue;
      }
      match ch
      case ',' =>
        if grouped {
          buf := buf + [ch];
        } else {
          segments := segments + [TrimSpace(buf)];
          buf := "";
        }
      case '\\' =>
        if grouped {
          buf := buf + [ch];
        } else {
          escaped := true;
        }
      case '(' =>
        buf := buf + [ch];
        grouped := true;
      case '[' =>
        buf := buf + [ch];
        grouped := true;
      case ')' =>
        buf := buf + [ch];
        grouped := false;
      case ']' =>
        buf := buf + [ch];
        grouped := false;
      case _ =>
        buf := buf + [ch];
    }
    assert val[..|val|] == val;
    var last := TrimSpace(buf);
    if |last| > 0 {
      segments := segments + [last];
    }
  }

  lemma {:induction false} RunAppend(s: Scan, a: string, b: string)
    ensures Run(s, a + b) == Run(Run(s, a), b)
    decreases a
  {
    if a == "" {
      assert a + b == b;
    } else {
      RunAppend(Next(s, a[0]), a[1..], b);
      assert (a + b)[1..] == a[1..] + b;
    }
  }

  lemma RunSnoc(s: Scan, a: string, ch: char)
    ensures Run(s, a + [ch]) == Next(Run(s, a), ch)
  {
    RunAppend(s, a, [ch]);
    var t := Run(s, a);
    assert [ch][1..] == "" && Run(Next(t, ch), "") == Next(t, ch);
  }

  // ---------- Round trip of a list ----------

  predicate Special(c: char) { c == SEPARATOR || c == ESCAPE || IsOpening(c) || IsClosing(c) }

  function Escape(text: string): string
  {
    if text == "" then ""
    else if Special(text[0]) then [ESCAPE, text[0]] + Escape(text[1..])
    else [text[0]] + Escape(text[1..])
  }

  function Join(texts: seq<string>): string
  {
    if texts == [] then ""
    else if |texts| == 1 then Escape(texts[0])
    else Escape(texts[0]) + [SEPARATOR] + Join(texts[1..])
  }

  /** An escaped text passes through the scanner unchanged, opening no group and ending no segment. */
  lemma {:induction false} RunEscaped(s: Scan, text: string)
    requires !s.escaped && !s.grouped
    ensures Run(s, Escape(text)) == s.(buf := s.buf + text)
    decreases text
  {
    if text == "" {
      assert s.buf + text == s.buf;
    } else {
      var head := if Special(text[0]) then [ESCAPE, text[0]] else [text[0]];
      var after := s.(buf := s.buf + [text[0]]);
      RunAppend(s, head, Escape(text[1..]));
      assert Run(s, head) == after by {
        if Special(text[0]) {
          assert head[1..] == [text[0]] && head[1..][1..] == "";
          assert Run(Next(s, ESCAPE), [text[0]]) == Run(Next(Next(s, ESCAPE), text[0]), "");
        } else {
          assert head[1..] == "";
        }
      }
      RunEscaped(after, text[1..]);
      assert s.buf + [text[0]] + text[1..] == s.buf + text;
    }
  }

  lemma {:induction false} RunJoined(s: Scan, texts: seq<string>)
    requires !s.escaped && !s.grouped && s.buf == ""
    requires texts != [] && forall t :: t in texts ==> Trimmed(t)
    ensures Run(s, Join(texts)) == s.(segments := s.segments + texts[..|texts| - 1], buf := texts[|texts| - 1])
    decreases texts
  {
    var t := texts[0];
    RunEscaped(s, t);
    assert "" + t == t;
    if |texts| > 1 {
      var filled := s.(buf := t);
      var next := s.(segments := s.segments + [t]);
      RunAppend(s, Escape(t) + [SEPARATOR], Join(texts[1..]));
      RunSnoc(s, Escape(t), SEPARATOR);
      TrimSpaceKeeps(t);
      assert Run(s, Escape(t) + [SEPARATOR]) == next;
      RunJoined(next, texts[1..]);
      assert s.segments + [t] + texts[1..][..|texts[1..]| - 1] == s.segments + texts[..|texts| - 1];
      assert texts[1..][|texts[1..]| - 1] == texts[|texts| - 1];
    } else {
      assert s.segments + texts[..0] == s.segments;
    }
  }

  /** The text that stands for a list: an empty last element needs a comma after it, or it would be dropped. */
  function Listed(texts: seq<string>): string
  {
    if texts != [] && texts[|texts| - 1] == "" then Join(texts) + [SEPARATOR] else Join(texts)
  }

  /** Escaping and joining is undone by the scanner, for every list of trimmed texts. */
  lemma SegmentsOfListed(texts: seq<string>)
    requires forall t :: t in texts ==> Trimmed(t)
    ensures Segments(Listed(texts)) == texts
  {
    if texts != [] {
      RunJoined(START, texts);
      var last := texts[|texts| - 1];
      var joined := Run(START, Join(texts));
      assert joined == Scan(texts[..|texts| - 1], last, false, false);
      assert texts[..|texts| - 1] + [last] == texts;
      TrimSpaceKeeps(last);
      if last == "" {
        RunSnoc(START, Join(texts), SEPARATOR);
        assert Run(START, Listed(texts)) == Scan(texts, "", false, false);
      }
    }
  }

  /** Nothing else comes out of the scanner: its results are exactly the lists of trimmed texts. */
  lemma {:induction false} SegmentsAreTrimmed(val: string)
    ensures forall t :: t in Segments(val) ==> Trimmed(t)
  {
    RunTrimmed(START, val);
    TrimSpaceIsTrimmed(Run(START, val).buf);
  }

  lemma {:induction false} RunTrimmed(s: Scan, text: string)
    requires forall t :: t in s.segments ==> Trimmed(t)
    ensures forall t :: t in Run(s, text).segments ==> Trimmed(t)
    decreases text
  {
    if text != "" {
      TrimSpaceIsTrimmed(s.buf);
      RunTrimmed(Next(s, text[0]), text[1..]);
    }
  }

  // ---------- Which commas separate ----------

  /** The character at `i` is taken literally: an active backslash stands before it. */
  ghost predicate Escaped(val: string, i: nat)
    requires i <= |val|
    decreases i
  {
    i > 0 && val[i - 1] == ESCAPE && !Escaped(val, i - 1) && !Grouped(val, i - 1)
  }

  /** Position `i` is inside an open group: after an opening bracket with no closing one since. */
  ghost predicate Grouped(val: string, i: nat)
    requires i <= |val|
    decreases i
  {
    exists j :: 0 <= j < i && IsOpening(val[j]) && !Escaped(val, j) &&
                forall k :: j < k < i && !Escaped(val, k) ==> !IsClosing(val[k])
  }

  ghost predicate IsSeparator(val: string, i: nat)
    requires i < |val|
  {
    val[i] == SEPARATOR && !Escaped(val, i) && !Grouped(val, i)
  }

  /** The text of `val[..i]` since `from`, without the backslashes that escape. */
  ghost function Unescaped(val: string, from: nat, i: nat): string
    requires from <= i <= |val|
  {
    if from == i then ""
    else if val[i - 1] == ESCAPE && !Escaped(val, i - 1) && !Grouped(val, i - 1) then Unescaped(val, from, i - 1)
    else Unescaped(val, from, i - 1) + [val[i - 1]]
  }

  /** Start of the segment that position `i` belongs to: just after the last separator before it. */
  ghost function SegmentStart(val: string, i: nat): (from: nat)
    requires i <= |val|
    ensures from <= i
    ensures from == 0 || IsSeparator(val, from - 1)
    ensures forall k: nat :: from <= k < i ==> !IsSeparator(val, k)
  {
    if i == 0 then 0 else if IsSeparator(val, i - 1) then i else SegmentStart(val, i - 1)
  }

  /** The segments that end at the separators before `i`, in order. */
  ghost function SegmentsBefore(val: string, i: nat): seq<string>
    requires i <= |val|
  {
    if i == 0 then []
    else if IsSeparator(val, i - 1) then
      SegmentsBefore(val, i - 1) + [TrimSpace(Unescaped(val, SegmentStart(val, i - 1), i - 1))]
    else SegmentsBefore(val, i - 1)
  }

  lemma GroupedStep(val: string, i: nat)
    requires i < |val|
    ensures Grouped(val, i + 1) <==>
            (if Escaped(val, i) then Grouped(val, i)
             else IsOpening(val[i]) || (Grouped(val, i) && !IsClosing(val[i])))
  {
  }

  /** What the flags and buffers of the scanner are to say after the first `i` characters. */
  ghost function Meaning(val: string, i: nat): Scan
    requires i <= |val|
  {
    Scan(SegmentsBefore(val, i), Unescaped(val, SegmentStart(val, i), i), Escaped(val, i), Grouped(val, i))
  }

  lemma NextMeaning(val: string, i: nat)
    requires i < |val|
    ensures Next(Meaning(val, i), val[i]) == Meaning(val, i + 1)
  {
    GroupedStep(val, i);
  }

  lemma {:induction false} ScanMeaning(val: string, i: nat)
    requires i <= |val|
    ensures Run(START, val[..i]) == Meaning(val, i)
  {
    if i == 0 {
      assert val[..0] == "";
    } else {
      ScanMeaning(val, i - 1);
      RunSnoc(START, val[..i - 1], val[i - 1]);
      assert val[..i] == val[..i - 1] + [val[i - 1]];
      NextMeaning(val, i - 1);
    }
  }

  /**
   For every text: a comma separates exactly when it is neither escaped nor inside an open group, and the
   result is the unescaped, trimmed text between consecutive separators, an empty last one being dropped.
   */
  lemma SegmentsAreBetweenSeparators(val: string)
    ensures var last := TrimSpace(Unescaped(val, SegmentStart(val, |val|), |val|));
            Segments(val) == SegmentsBefore(val, |val|) + if last == "" then [] else [last]
  {
    ScanMeaning(val, |val|);
    assert val[..|val|] == val;
  }
}
