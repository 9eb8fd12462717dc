/**
 Names of rotated log files and which of them are outdated (core/logx/rotatelogger.go:89-136 and 158-232).
 Clock readings are calendar fields in one fixed zone.
 */
module RotateNames {
  import opened Strings

  /** What `time.Now()` says, to the second. */
  datatype Instant = Instant(year: nat, month: nat, day: nat, hour: nat, minute: nat, second: nat)

  /** Years have four digits, as in full-date of section 5.6 of RFC 3339. */
  predicate InRange(t: Instant)
  {
    t.year < 10000 && t.month < 100 && t.day < 100 && t.hour < 100 && t.minute < 100 && t.second < 100
  }

  predicate DateBefore(a: Instant, b: Instant)
  {
    a.year < b.year || (a.year == b.year && (a.month < b.month || (a.month == b.month && a.day < b.day)))
  }

  predicate SameDate(a: Instant, b: Instant)
  {
    a.year == b.year && a.month == b.month && a.day == b.day
  }

  predicate Before(a: Instant, b: Instant)
  {
    DateBefore(a, b) ||
    (SameDate(a, b) &&
     (a.hour < b.hour || (a.hour == b.hour && (a.minute < b.minute || (a.minute == b.minute && a.second < b.second)))))
  }

  predicate NotAfter(a: Instant, b: Instant)
  {
    a == b || Before(a, b)
  }

  // ---------- Formatting ----------

  function Digit(d: nat): char
    requires d < 10
  {
    ('0' as int + d) as char
  }

  /** `n` in two digits. */
  function Two(n: nat): (s: string)
    requires n < 100
    ensures |s| == 2
  {
    [Digit(n / 10), Digit(n % 10)]
  }

  /** dateFormat, "2006-01-02". */
  function FormatDate(t: Instant): (s: string)
    requires InRange(t)
    ensures |s| == 10
  {
    Two(t.year / 100) + Two(t.year % 100) + "-" + Two(t.month) + "-" + Two(t.day)
  }

  /** time.RFC3339 with the zone's designator `zone`. */
  function FormatInstant(t: Instant, zone: string): (s: string)
    requires InRange(t)
    ensures |s| == 19 + |zone|
  {
    FormatDate(t) + "T" + Two(t.hour) + ":" + Two(t.minute) + ":" + Two(t.second) + zone
  }

  /** The name of a backup of the daily rule. */
  function DailyName(filename: string, delimiter: string, t: Instant): string
    requires InRange(t)
  {
    filename + delimiter + FormatDate(t)
  }

  lemma TwoOrder(m: nat, n: nat)
    requires m < 100 && n < 100
    ensures Less(Two(m), Two(n)) <==> m < n
    ensures Two(m) == Two(n) <==> m == n
  {
    var a, b := Two(m), Two(n);
    assert a == [a[0]] + [a[1]] && b == [b[0]] + [b[1]];
    LessByParts([a[0]], [a[1]], [b[0]], [b[1]]);
    assert [a[0]][1..] == "" && [b[0]][1..] == "" && [a[1]][1..] == "" && [b[1]][1..] == "";
    assert m == 10 * (m / 10) + m % 10 && n == 10 * (n / 10) + n % 10;
  }

  /** Dates sort as texts as they do in the calendar. */
  lemma DateOrder(a: Instant, b: Instant)
    requires InRange(a) && InRange(b)
    ensures Less(FormatDate(a), FormatDate(b)) <==> DateBefore(a, b)
    ensures FormatDate(a) == FormatDate(b) <==> SameDate(a, b)
  {
    var a1, a2, a3, a4 := Two(a.year / 100), Two(a.year % 100), Two(a.month), Two(a.day);
    var b1, b2, b3, b4 := Two(b.year / 100), Two(b.year % 100), Two(b.month), Two(b.day);
    TwoOrder(a.year / 100, b.year / 100);
    TwoOrder(a.year % 100, b.year % 100);
    TwoOrder(a.month, b.month);
    TwoOrder(a.day, b.day);
    assert FormatDate(a) == a1 + (a2 + ("-" + (a3 + ("-" + a4))));
    assert FormatDate(b) == b1 + (b2 + ("-" + (b3 + ("-" + b4))));
    LessByParts(a1, a2 + ("-" + (a3 + ("-" + a4))), b1, b2 + ("-" + (b3 + ("-" + b4))));
    LessByParts(a2, "-" + (a3 + ("-" + a4)), b2, "-" + (b3 + ("-" + b4)));
    LessAfterPrefix("-", a3 + ("-" + a4), b3 + ("-" + b4));
    LessByParts(a3, "-" + a4, b3, "-" + b4);
    LessAfterPrefix("-", a4, b4);
    LessTotal(FormatDate(a), FormatDate(b));
    LessTotal(a1, b1);
    LessTotal(a2, b2);
    LessTotal(a3, b3);
    LessTotal(a4, b4);
  }

  /** Timestamps to the second tell instants apart. */
  lemma InstantNames(a: Instant, b: Instant, zone: string)
    requires InRange(a) && InRange(b)
    ensures FormatInstant(a, zone) == FormatInstant(b, zone) <==> a == b
  {
    if FormatInstant(a, zone) == FormatInstant(b, zone) {
      var x, y := FormatInstant(a, zone), FormatInstant(b, zone);
      assert x[..10] == FormatDate(a) && y[..10] == FormatDate(b);
      assert x[11..13] == Two(a.hour) && y[11..13] == Two(b.hour);
      assert x[14..16] == Two(a.minute) && y[14..16] == Two(b.minute);
      assert x[17..19] == Two(a.second) && y[17..19] == Two(b.second);
      DateOrder(a, b);
      LessIrreflexive(FormatDate(a));
      TwoOrder(a.hour, b.hour);
      TwoOrder(a.minute, b.minute);
      TwoOrder(a.second, b.second);
    }
  }
}

/** `OutdatedFiles` of the two rules. The names found by the glob pattern are a parameter. */
module Retention {
  import opened Strings
  import opened RotateNames

  const GZIP_EXT := ".gz"

  // ---------- By day ----------

  datatype DailyRule = DailyRule(filename: string, delimiter: string, days: int, gzip: bool)

  function BoundaryName(r: DailyRule, boundary: Instant): string
    requires InRange(boundary)
  {
    DailyName(r.filename, r.delimiter, boundary) + if r.gzip then GZIP_EXT else ""
  }

  /** The names below the boundary, in the order given. */
  function Below(files: seq<string>, boundary: string): seq<string>
  {
    if files == [] then []
    else Below(files[..|files| - 1], boundary) + if Less(files[|files| - 1], boundary) then [files[|files| - 1]] else []
  }

  /** `DailyRotateRule.OutdatedFiles`. */
  method OutdatedByDay(r: DailyRule, files: seq<string>, boundary: Instant) returns (outdates: seq<string>)
    requires InRange(boundary)
    ensures outdates == if r.days <= 0 then [] else Below(files, BoundaryName(r, boundary))
  {
    outdates := [];
    if r.days <= 0 {
      return;
    }
    var boundaryFile := BoundaryName(r, boundary);
    for i := 0 to |files|
      invariant outdates == Below(files[..i], boundaryFile)
    {
      assert files[..i + 1][..i] == files[..i];
      if Less(files[i], boundaryFile) {
        outdates := outdates + [files[i]];
      }
    }
    assert files[..|files|] == files;
  }

  /** A backup as the rule leaves it: the name for a date, compressed or not. A gzip rule only looks at `.gz`. */
  ghost predicate IsBackup(r: DailyRule, file: string, t: Instant)
  {
    InRange(t) && (file == DailyName(r.filename, r.delimiter, t) + GZIP_EXT ||
                   (!r.gzip && file == DailyName(r.filename, r.delimiter, t)))
  }

  /** Comparing names with the boundary's name compares dates, whether or not the backup is compressed. */
  lemma NameOrderIsDateOrder(r: DailyRule, file: string, t: Instant, boundary: Instant)
    requires IsBackup(r, file, t) && InRange(boundary)
    ensures Less(file, BoundaryName(r, boundary)) <==> DateBefore(t, boundary)
  {
    var prefix := r.filename + r.delimiter;
    var ext := file[|DailyName(r.filename, r.delimiter, t)|..];
    var bext := if r.gzip then GZIP_EXT else "";
    assert file == prefix + (FormatDate(t) + ext);
    assert BoundaryName(r, boundary) == prefix + (FormatDate(boundary) + bext);
    LessAfterPrefix(prefix, FormatDate(t) + ext, FormatDate(boundary) + bext);
    LessByParts(FormatDate(t), ext, FormatDate(boundary), bext);
    DateOrder(t, boundary);
    LessIrreflexive(GZIP_EXT);
  }

  /** The daily rule selects exactly the backups dated before the boundary day. */
  lemma {:induction false} SelectsEarlierDates(r: DailyRule, files: seq<string>, boundary: Instant, file: string,
                                               t: Instant)
    requires InRange(boundary) && IsBackup(r, file, t)
    ensures file in Below(files, BoundaryName(r, boundary)) <==> file in files && DateBefore(t, boundary)
  {
    NameOrderIsDateOrder(r, file, t, boundary);
    if files != [] {
      SelectsEarlierDates(r, files[..|files| - 1], boundary, file, t);
      assert files == files[..|files| - 1] + [files[|files| - 1]];
    }
  }

  // ---------- By number and age ----------

  function InsertSorted(x: string, sorted: seq<string>): seq<string>
  {
    if sorted == [] || !Less(sorted[0], x) then [x] + sorted else [sorted[0]] + InsertSorted(x, sorted[1..])
  }

  /** sort.Strings. */
  function SortStrings(files: seq<string>): seq<string>
  {
    if files == [] then [] else InsertSorted(files[0], SortStrings(files[1..]))
  }

  ghost predicate Sorted(files: seq<string>)
  {
    forall i, j :: 0 <= i < j < |files| ==> AtMost(files[i], files[j])
  }

  lemma {:induction false} InsertKeepsNames(x: string, sorted: seq<string>)
    ensures multiset(InsertSorted(x, sorted)) == multiset(sorted) + multiset{x}
  {
    if sorted != [] && Less(sorted[0], x) {
      InsertKeepsNames(x, sorted[1..]);
      assert sorted == [sorted[0]] + sorted[1..];
    }
  }

  lemma SortedCons(x: string, rest: seq<string>)
    requires Sorted(rest) && forall y :: y in rest ==> AtMost(x, y)
    ensures Sorted([x] + rest)
  {
  }

  lemma {:induction false} InsertKeepsSorted(x: string, sorted: seq<string>)
    requires Sorted(sorted)
    ensures Sorted(InsertSorted(x, sorted))
    ensures multiset(InsertSorted(x, sorted)) == multiset(sorted) + multiset{x}
  {
    InsertKeepsNames(x, sorted);
    if sorted == [] || !Less(sorted[0], x) {
      forall y | y in sorted ensures AtMost(x, y) {
        LessTotal(sorted[0], x);
        if Less(x, sorted[0]) && Less(sorted[0], y) { LessTransitive(x, sorted[0], y); }
      }
      SortedCons(x, sorted);
    } else {
      InsertKeepsSorted(x, sorted[1..]);
      var rest := InsertSorted(x, sorted[1..]);
      forall y | y in rest ensures AtMost(sorted[0], y) {
        assert y in multiset(rest);
        assert y == x || y in sorted[1..];
      }
      SortedCons(sorted[0], rest);
    }
  }

  lemma {:induction false} SortStringsSorts(files: seq<string>)
    ensures Sorted(SortStrings(files)) && multiset(SortStrings(files)) == multiset(files)
    ensures |SortStrings(files)| == |files|
  {
    if files != [] {
      SortStringsSorts(files[1..]);
      InsertKeepsSorted(files[0], SortStrings(files[1..]));
      assert files == [files[0]] + files[1..];
    }
    assert |multiset(SortStrings(files))| == |multiset(files)|;
  }

  /** How many of the first names are below the boundary before the first that is not. */
  function LeadingBelow(files: seq<string>, boundary: string): (k: nat)
    ensures k <= |files|
    ensures forall i :: 0 <= i < k ==> Less(files[i], boundary)
    ensures k < |files| ==> !Less(files[k], boundary)
  {
    if files == [] || !Less(files[0], boundary) then 0 else 1 + LeadingBelow(files[1..], boundary)
  }

  /** The index in the sorted list from which on files are kept. */
  function KeepFrom(sorted: seq<string>, maxBackups: int, days: int, boundary: string): (k: nat)
    ensures k <= |sorted|
  {
    var surplus := if maxBackups > 0 && |sorted| > maxBackups then |sorted| - maxBackups else 0;
    if days > 0 then surplus + LeadingBelow(sorted[surplus..], boundary) else surplus
  }

  function Names(files: seq<string>): set<string>
  {
    set f | f in files
  }

  lemma NamesOfOneMore(sorted: seq<string>, i: nat)
    requires i < |sorted|
    ensures Names(sorted[..i + 1]) == Names(sorted[..i]) + {sorted[i]}
  {
    assert sorted[..i + 1] == sorted[..i] + [sorted[i]];
  }

  lemma LeadingBelowIs(files: seq<string>, boundary: string, i: nat)
    requires i <= |files| && (forall j :: 0 <= j < i ==> Less(files[j], boundary))
    requires i < |files| ==> !Less(files[i], boundary)
    ensures LeadingBelow(files, boundary) == i
  {
    var k := LeadingBelow(files, boundary);
    assert !(k < i) && !(i < k);
  }

  /** `SizeLimitRotateRule.OutdatedFiles`. The result has the order of a Go map, that is none. */
  method OutdatedBySize(files: seq<string>, maxBackups: int, days: int, boundary: string)
    returns (outdated: set<string>)
    ensures outdated == Names(SortStrings(files)[..KeepFrom(SortStrings(files), maxBackups, days, boundary)])
  {
    var sorted := SortStrings(files);
    var rest := sorted;
    outdated := {};
    ghost var surplus := 0;
    if maxBackups > 0 && |rest| > maxBackups {
      surplus := |rest| - maxBackups;
      for i := 0 to |rest| - maxBackups
        invariant outdated == Names(sorted[..i])
      {
        outdated := outdated + {rest[i]};
        NamesOfOneMore(sorted, i);
      }
      rest := rest[|rest| - maxBackups..];
    }
    if days > 0 {
      outdated := MarkOld(sorted, surplus, rest, boundary, outdated);
    }
  }

  /** The second loop: names are marked until the first that is not below the boundary. */
  method MarkOld(ghost sorted: seq<string>, ghost surplus: nat, rest: seq<string>, boundary: string,
                 marked: set<string>)
    returns (outdated: set<string>)
    requires surplus <= |sorted| && rest == sorted[surplus..] && marked == Names(sorted[..surplus])
    ensures outdated == Names(sorted[..surplus + LeadingBelow(rest, boundary)])
  {
    outdated := marked;
    var i := 0;
    while i < |rest|
      invariant 0 <= i <= |rest|
      invariant outdated == Names(sorted[..surplus + i])
      invariant forall j :: 0 <= j < i ==> Less(rest[j], boundary)
      decreases |rest| - i
    {
      if !Less(rest[i], boundary) {
        break;
      }
      outdated := outdated + {rest[i]};
      NamesOfOneMore(sorted, surplus + i);
      i := i + 1;
    }
    LeadingBelowIs(rest, boundary, i);
  }

  /** The limits of the rule, on a list of files to keep. */
  ghost predicate WithinLimits(kept: seq<string>, maxBackups: int, days: int, boundary: string)
  {
    (maxBackups > 0 ==> |kept| <= maxBackups) && (days > 0 ==> forall f :: f in kept ==> !Less(f, boundary))
  }

  lemma NotBelowUpwards(a: string, b: string, boundary: string)
    requires AtMost(a, b) && !Less(a, boundary)
    ensures !Less(b, boundary)
  {
    if Less(a, b) && Less(b, boundary) { LessTransitive(a, b, boundary); }
  }

  /** What is kept is the longest suffix of the sorted list within the limits. */
  lemma KeepsLongestSuffix(sorted: seq<string>, maxBackups: int, days: int, boundary: string, j: nat)
    requires Sorted(sorted) && j <= |sorted|
    ensures WithinLimits(sorted[j..], maxBackups, days, boundary) <==> KeepFrom(sorted, maxBackups, days, boundary) <= j
  {
    var k := KeepFrom(sorted, maxBackups, days, boundary);
    var surplus := if maxBackups > 0 && |sorted| > maxBackups then |sorted| - maxBackups else 0;
    if k <= j {
      forall f | f in sorted[j..] && days > 0 ensures !Less(f, boundary) {
        var i :| j <= i < |sorted| && sorted[i] == f;
        assert sorted[surplus..][k - surplus] == sorted[k];
        assert AtMost(sorted[k], sorted[i]);
        NotBelowUpwards(sorted[k], sorted[i], boundary);
      }
    } else if surplus <= j {
      assert sorted[surplus..][j - surplus] == sorted[j] && sorted[j] in sorted[j..];
    }
  }

  ghost predicate Distinct(files: seq<string>)
  {
    forall i, j :: 0 <= i < j < |files| ==> files[i] != files[j]
  }

  lemma {:induction false} DistinctCount(files: seq<string>)
    ensures |Names(files)| <= |files|
    ensures Distinct(files) ==> |Names(files)| == |files|
  {
    if files != [] {
      var initial, last := files[..|files| - 1], files[|files| - 1];
      DistinctCount(initial);
      assert Names(files) == Names(initial) + {last};
      if Distinct(files) { assert last !in Names(initial); }
    }
  }

  /** What is left after deleting the first `k` names is among the others. */
  lemma KeptNames(files: seq<string>, remaining: seq<string>, k: nat)
    requires k <= |SortStrings(files)|
    requires Names(remaining) == Names(files) - Names(SortStrings(files)[..k])
    ensures Names(remaining) <= Names(SortStrings(files)[k..])
  {
    var sorted := SortStrings(files);
    SortStringsSorts(files);
    assert sorted == sorted[..k] + sorted[k..];
    forall f | f in Names(remaining) ensures f in Names(sorted[k..]) {
      assert f in multiset(files) && f in multiset(sorted) && f in sorted;
    }
  }

  lemma SameNames(files: seq<string>)
    ensures Names(SortStrings(files)) == Names(files)
  {
    SortStringsSorts(files);
    forall f ensures f in Names(SortStrings(files)) <==> f in Names(files) {
      assert f in multiset(SortStrings(files)) <==> f in multiset(files);
    }
  }

  lemma FewerNames(a: seq<string>, b: seq<string>)
    requires Distinct(a) && Names(a) <= Names(b)
    ensures |a| <= |b|
  {
    DistinctCount(a);
    DistinctCount(b);
    SubsetCount(Names(a), Names(b));
  }

  /** Once the outdated files are deleted, the same call finds nothing more to delete. */
  lemma DeletingOnceIsEnough(files: seq<string>, remaining: seq<string>, maxBackups: int, days: int, boundary: string)
    requires Distinct(files) && Distinct(remaining)
    requires var sorted := SortStrings(files);
             Names(remaining) == Names(files) - Names(sorted[..KeepFrom(sorted, maxBackups, days, boundary)])
    ensures KeepFrom(SortStrings(remaining), maxBackups, days, boundary) == 0
  {
    var sorted, again := SortStrings(files), SortStrings(remaining);
    var k := KeepFrom(sorted, maxBackups, days, boundary);
    SortStringsSorts(files);
    SortStringsSorts(remaining);
    KeepsLongestSuffix(sorted, maxBackups, days, boundary, k);
    KeptNames(files, remaining, k);
    FewerNames(remaining, sorted[k..]);
    SameNames(remaining);
    FewerWithinLimits(sorted[k..], again, maxBackups, days, boundary);
    assert again[0..] == again;
    KeepsLongestSuffix(again, maxBackups, days, boundary, 0);
  }

  lemma FewerWithinLimits(kept: seq<string>, fewer: seq<string>, maxBackups: int, days: int, boundary: string)
    requires WithinLimits(kept, maxBackups, days, boundary) && |fewer| <= |kept| && Names(fewer) <= Names(kept)
    ensures WithinLimits(fewer, maxBackups, days, boundary)
  {
    forall f | f in fewer ensures f in kept {
      assert f in Names(fewer);
    }
  }

  lemma SubsetCount<T>(a: set<T>, b: set<T>)
    requires a <= b
    ensures |a| <= |b|
  {
    assert b == a + (b - a);
  }
}
