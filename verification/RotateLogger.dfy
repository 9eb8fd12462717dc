/**
 The rotating log file (core/logx/rotatelogger.go:138-163, 222-224, 233-311, 349-375 and 402-415): one
 live file, renamed to a backup and reopened whenever the rule asks for it.
 */
module RotateLogger {
  import opened Strings
  import opened RotateNames

  type Bytes = seq<bv8>

  type Files = map<string, Bytes>

  /** The two rules. A size rule splits the file name into `base` (directory and prefix) and extension. */
  datatype Rule =
    | Daily(filename: string, delimiter: string)
    | SizeLimit(base: string, ext: string, delimiter: string, zone: string, maxSize: int)

  function LiveName(r: Rule): string
  {
    if r.Daily? then r.filename else r.base + r.ext
  }

  /** `BackupFileName` at the given time. */
  function BackupFileName(r: Rule, now: Instant): string
    requires InRange(now)
  {
    if r.Daily? then DailyName(r.filename, r.delimiter, now)
    else r.base + r.delimiter + FormatInstant(now, r.zone) + r.ext
  }

  /** What `MarkRotated` stores. */
  function RotatedMark(r: Rule, now: Instant): string
    requires InRange(now)
  {
    if r.Daily? then FormatDate(now) else FormatInstant(now, r.zone)
  }

  function ShallRotate(r: Rule, rotatedTime: string, size: int, now: Instant): bool
    requires InRange(now)
  {
    if r.Daily? then rotatedTime != "" && FormatDate(now) != rotatedTime
    else r.maxSize > 0 && r.maxSize < size
  }

  lemma BackupIsNotLive(r: Rule, now: Instant)
    requires InRange(now)
    ensures BackupFileName(r, now) != LiveName(r)
  {
    assert |BackupFileName(r, now)| > |LiveName(r)|;
  }

  /** Times for which a rule makes the same backup name: the same day, or the same second. */
  predicate SameStamp(r: Rule, a: Instant, b: Instant)
  {
    if r.Daily? then SameDate(a, b) else a == b
  }

  lemma NamesTellStampsApart(r: Rule, a: Instant, b: Instant)
    requires InRange(a) && InRange(b)
    ensures BackupFileName(r, a) == BackupFileName(r, b) <==> SameStamp(r, a, b)
  {
    var x, y := BackupFileName(r, a), BackupFileName(r, b);
    if r.Daily? {
      DateOrder(a, b);
      assert x[|r.filename + r.delimiter|..] == FormatDate(a) && y[|r.filename + r.delimiter|..] == FormatDate(b);
    } else {
      var n := |r.base + r.delimiter|;
      InstantNames(a, b, r.zone);
      assert x[n..|x| - |r.ext|] == FormatInstant(a, r.zone) && y[n..|y| - |r.ext|] == FormatInstant(b, r.zone);
    }
  }

  /** The clock readings during one write: when it is checked, when the file is reopened, when that is marked. */
  datatype Tick = Tick(check: Instant, reopen: Instant, mark: Instant)

  predicate TickInRange(t: Tick)
  {
    InRange(t.check) && InRange(t.reopen) && InRange(t.mark)
  }

  /** Which of the operating system's calls succeed during one write. */
  datatype Os = Os(close: bool, rename: bool, create: bool)

  const ALL_OK := Os(true, true, true)

  /** The disk and the fields of the logger and its rule. */
  datatype Log = Log(files: Files, rotatedTime: string, backup: string, open: bool, currentSize: int)

  /** An open file is the live one. */
  predicate Consistent(r: Rule, s: Log)
  {
    s.open ==> LiveName(r) in s.files
  }

  /** What `rotate` leaves behind. */
  function Rotate(r: Rule, s: Log, reopen: Instant, os: Os): (s': Log)
    requires InRange(reopen)
  {
    var closed := s.(open := false);
    if s.open && !os.close then closed
    else if LiveName(r) in s.files && s.backup != "" && !os.rename then closed
    else
      var moved := if LiveName(r) in s.files && s.backup != "" then
                     (s.files - {LiveName(r)})[s.backup := s.files[LiveName(r)]]
                   else s.files;
      var renamed := closed.(files := moved, backup := BackupFileName(r, reopen));
      if os.create then renamed.(files := moved[LiveName(r) := []], open := true) else renamed
  }

  predicate RotateSucceeds(r: Rule, s: Log, os: Os)
  {
    (s.open ==> os.close) && (LiveName(r) in s.files && s.backup != "" ==> os.rename) && os.create
  }

  predicate Rotates(r: Rule, s: Log, v: Bytes, t: Tick)
    requires TickInRange(t)
  {
    ShallRotate(r, s.rotatedTime, s.currentSize + |v|, t.check)
  }

  /** What `write` leaves behind. */
  function Write(r: Rule, s: Log, v: Bytes, t: Tick, os: Os): Log
    requires TickInRange(t) && Consistent(r, s)
  {
    var ready :=
      if !Rotates(r, s, v, t) then s
      else
        var rotated := Rotate(r, s, t.reopen, os);
        if RotateSucceeds(r, s, os) then rotated.(rotatedTime := RotatedMark(r, t.mark), currentSize := 0) else rotated;
    if ready.open then
      ready.(files := ready.files[LiveName(r) := ready.files[LiveName(r)] + v], currentSize := ready.currentSize + |v|)
    else ready
  }

  /** The logger as it is: fields updated in place, files changed by the operating system's calls. */
  class Logger {
    const rule: Rule
    var files: Files
    var rotatedTime: string
    var backup: string
    var open: bool
    var currentSize: int

    function View(): Log
      reads this
    {
      Log(files, rotatedTime, backup, open, currentSize)
    }

    predicate Valid()
      reads this
    {
      Consistent(rule, View())
    }

    /** `NewLogger` and `initialize`, for a rule created at `created` and a disk with the given files. */
    constructor (rule: Rule, files: Files, created: Instant, now: Instant)
      requires InRange(created) && InRange(now)
      ensures Valid() && this.rule == rule
      ensures View() == Initial(rule, files, created, now)
    {
      this.rule := rule;
      this.files := files;
      rotatedTime := RotatedMark(rule, created);
      backup := BackupFileName(rule, now);
      open := true;
      currentSize := 0;
      new;
      if LiveName(rule) in files {
        currentSize := |files[LiveName(rule)]|;
      } else {
        this.files := files[LiveName(rule) := []];
      }
    }

    /** `rotate`; the result says whether there was no error. */
    method DoRotate(reopen: Instant, os: Os) returns (ok: bool)
      requires InRange(reopen)
      modifies this
      ensures View() == Rotate(rule, old(View()), reopen, os)
      ensures ok == RotateSucceeds(rule, old(View()), os)
    {
      if open {
        open := false;
        if !os.close {
          return false;
        }
      }
      if LiveName(rule) in files && |backup| > 0 {
        if !os.rename {
          return false;
        }
        files := (files - {LiveName(rule)})[backup := files[LiveName(rule)]];
      }
      backup := BackupFileName(rule, reopen);
      if os.create {
        files := files[LiveName(rule) := []];
        open := true;
      }
      return os.create;
    }

    /** `write`. */
    method DoWrite(v: Bytes, t: Tick, os: Os)
      requires TickInRange(t) && Valid()
      modifies this
      ensures Valid() && View() == Write(rule, old(View()), v, t, os)
    {
      if ShallRotate(rule, rotatedTime, currentSize + |v|, t.check) {
        var ok := DoRotate(t.reopen, os);
        if ok {
          rotatedTime := RotatedMark(rule, t.mark);
          currentSize := 0;
        }
      }
      if open {
        files := files[LiveName(rule) := files[LiveName(rule)] + v];
        currentSize := currentSize + |v|;
      }
    }
  }

  function Initial(r: Rule, files: Files, created: Instant, now: Instant): Log
    requires InRange(created) && InRange(now)
  {
    var live := LiveName(r);
    Log(if live in files then files else files[live := []], RotatedMark(r, created), BackupFileName(r, now), true,
        if live in files then |files[live]| else 0)
  }

  // ---------- Runs ----------

  datatype Event = Event(msg: Bytes, tick: Tick)

  /** The clock does not go backwards, within a write or between writes. */
  predicate Timely(since: Instant, events: seq<Event>)
    decreases events
  {
    events == [] ||
    (var t := events[0].tick;
     TickInRange(t) && NotAfter(since, t.check) && NotAfter(t.check, t.reopen) && NotAfter(t.reopen, t.mark) &&
     Timely(t.mark, events[1..]))
  }

  predicate AllInRange(events: seq<Event>)
  {
    forall e :: e in events ==> TickInRange(e.tick)
  }

  /** The live file is open, its size is known, and its backup name was made at time `at`. */
  predicate Ready(r: Rule, s: Log, at: Instant)
  {
    InRange(at) && s.open && LiveName(r) in s.files && s.currentSize == |s.files[LiveName(r)]| &&
    s.backup == BackupFileName(r, at)
  }

  lemma InitiallyReady(r: Rule, files: Files, created: Instant, now: Instant)
    requires InRange(created) && InRange(now)
    ensures Ready(r, Initial(r, files, created, now), now)
  {
  }

  /** One write in which all calls to the operating system succeed. */
  function Next(r: Rule, s: Log, at: Instant, e: Event): Log
    requires Ready(r, s, at) && TickInRange(e.tick)
  {
    Write(r, s, e.msg, e.tick, ALL_OK)
  }

  predicate Turns(r: Rule, s: Log, e: Event)
    requires TickInRange(e.tick)
  {
    Rotates(r, s, e.msg, e.tick)
  }

  function NextAt(r: Rule, s: Log, at: Instant, e: Event): Instant
    requires TickInRange(e.tick)
  {
    if Turns(r, s, e) then e.tick.reopen else at
  }

  /** What one such write does to the disk; the logger stays ready. */
  lemma Effect(r: Rule, s: Log, at: Instant, e: Event)
    requires Ready(r, s, at) && TickInRange(e.tick)
    ensures Ready(r, Next(r, s, at, e), NextAt(r, s, at, e))
    ensures var live, files := LiveName(r), Next(r, s, at, e).files;
            if Turns(r, s, e) then
              s.backup != live && files.Keys == s.files.Keys + {s.backup} &&
              files[live] == e.msg && files[s.backup] == s.files[live] &&
              forall n :: n in s.files && n != live && n != s.backup ==> files[n] == s.files[n]
            else
              files.Keys == s.files.Keys && files[live] == s.files[live] + e.msg &&
              forall n :: n in s.files && n != live ==> files[n] == s.files[n]
  {
    BackupIsNotLive(r, at);
    BackupIsNotLive(r, e.tick.reopen);
  }

  /** The state after a run in which all calls to the operating system succeed. */
  function Final(r: Rule, s: Log, at: Instant, events: seq<Event>): Log
    requires Ready(r, s, at) && AllInRange(events)
    decreases events
  {
    if events == [] then s
    else (Effect(r, s, at, events[0]); Final(r, Next(r, s, at, events[0]), NextAt(r, s, at, events[0]), events[1..]))
  }

  /** A rotated file: when its name was made, and what it held when it was renamed. */
  datatype Rotated = Rotated(stamp: Instant, content: Bytes)

  /** The file that a write rotates, if it does. */
  function Turned(r: Rule, s: Log, at: Instant, e: Event): seq<Rotated>
    requires Ready(r, s, at) && TickInRange(e.tick)
  {
    if Turns(r, s, e) then [Rotated(at, s.files[LiveName(r)])] else []
  }

  /** The files rotated during a run, in order. */
  function History(r: Rule, s: Log, at: Instant, events: seq<Event>): (h: seq<Rotated>)
    requires Ready(r, s, at) && AllInRange(events)
    ensures forall x :: x in h ==> InRange(x.stamp)
    decreases events
  {
    if events == [] then []
    else
      var e := events[0];
      Effect(r, s, at, e);
      Turned(r, s, at, e) + History(r, Next(r, s, at, e), NextAt(r, s, at, e), events[1..])
  }

  /** Whether a rename in the run hits a name that is already taken, so that a file is lost. */
  predicate Overwrites(r: Rule, s: Log, at: Instant, events: seq<Event>)
    requires Ready(r, s, at) && AllInRange(events)
    decreases events
  {
    events != [] &&
    (var e := events[0];
     Effect(r, s, at, e);
     (Turns(r, s, e) && s.backup in s.files) || Overwrites(r, Next(r, s, at, e), NextAt(r, s, at, e), events[1..]))
  }

  function Messages(events: seq<Event>): Bytes
  {
    if events == [] then [] else events[0].msg + Messages(events[1..])
  }

  function Contents(history: seq<Rotated>): Bytes
  {
    if history == [] then [] else history[0].content + Contents(history[1..])
  }

  /** The backups in `history` are on disk, and the other files are as in `before`. */
  ghost predicate OnDisk(r: Rule, history: seq<Rotated>, before: Files, after: Files)
  {
    (forall x :: x in history ==>
      InRange(x.stamp) && BackupFileName(r, x.stamp) in after && after[BackupFileName(r, x.stamp)] == x.content) &&
    (forall n :: n in before && n != LiveName(r) ==> n in after && after[n] == before[n])
  }

  /** What was renamed, in order, and then the live file: the initial content and everything written since. */
  lemma {:induction false} BytesConserved(r: Rule, s: Log, at: Instant, events: seq<Event>)
    requires Ready(r, s, at) && AllInRange(events)
    ensures LiveName(r) in Final(r, s, at, events).files
    ensures Contents(History(r, s, at, events)) + Final(r, s, at, events).files[LiveName(r)] ==
            s.files[LiveName(r)] + Messages(events)
    decreases events
  {
    var live := LiveName(r);
    if events == [] {
      assert s.files[live] + [] == s.files[live] && [] + s.files[live] == s.files[live];
    } else {
      var e := events[0];
      var next, nextAt := Next(r, s, at, e), NextAt(r, s, at, e);
      Effect(r, s, at, e);
      BytesConserved(r, next, nextAt, events[1..]);
      ContentsOfCons(Turned(r, s, at, e), History(r, next, nextAt, events[1..]), Final(r, s, at, events).files[live]);
      assert Contents(Turned(r, s, at, e)) + next.files[live] == s.files[live] + e.msg by {
        assert Turns(r, s, e) ==> Turned(r, s, at, e)[1..] == [] && s.files[live] + [] == s.files[live];
      }
      Regroup(Contents(Turned(r, s, at, e)), next.files[live], s.files[live], e.msg, Messages(events[1..]));
    }
  }

  lemma Regroup(a: Bytes, b: Bytes, c: Bytes, d: Bytes, rest: Bytes)
    requires a + b == c + d
    ensures a + (b + rest) == c + (d + rest)
  {
    assert a + (b + rest) == (a + b) + rest && c + (d + rest) == (c + d) + rest;
  }

  /**
   As long as no rename overwrites a file, nothing is lost: every rotated file is still on disk under its
   name with what it held, no other file has changed, and in order they hold everything written.
   */
  lemma {:induction false} NothingIsLost(r: Rule, s: Log, at: Instant, events: seq<Event>)
    requires Ready(r, s, at) && AllInRange(events) && !Overwrites(r, s, at, events)
    ensures OnDisk(r, History(r, s, at, events), s.files, Final(r, s, at, events).files)
    ensures LiveName(r) in Final(r, s, at, events).files
    ensures Contents(History(r, s, at, events)) + Final(r, s, at, events).files[LiveName(r)] ==
            s.files[LiveName(r)] + Messages(events)
    decreases events
  {
    BytesConserved(r, s, at, events);
    if events != [] {
      var e := events[0];
      var next, nextAt := Next(r, s, at, e), NextAt(r, s, at, e);
      Effect(r, s, at, e);
      NothingIsLost(r, next, nextAt, events[1..]);
      OnDiskStep(r, s, at, e, History(r, next, nextAt, events[1..]), Final(r, s, at, events).files);
    }
  }

  lemma ContentsOfCons(first: seq<Rotated>, rest: seq<Rotated>, live: Bytes)
    ensures Contents(first + rest) + live == Contents(first) + (Contents(rest) + live)
  {
    ContentsAppend(first, rest);
    Associates(Contents(first), Contents(rest), live);
  }

  lemma Associates(a: Bytes, b: Bytes, c: Bytes)
    ensures (a + b) + c == a + (b + c)
  {
  }

  lemma {:induction false} ContentsAppend(first: seq<Rotated>, rest: seq<Rotated>)
    ensures Contents(first + rest) == Contents(first) + Contents(rest)
  {
    if first == [] {
      assert first + rest == rest;
    } else {
      var all := first + rest;
      ContentsAppend(first[1..], rest);
      assert all[0] == first[0] && all[1..] == first[1..] + rest;
      Associates(first[0].content, Contents(first[1..]), Contents(rest));
    }
  }

  lemma OnDiskStep(r: Rule, s: Log, at: Instant, e: Event, rest: seq<Rotated>, after: Files)
    requires Ready(r, s, at) && TickInRange(e.tick) && (Turns(r, s, e) ==> s.backup !in s.files)
    requires OnDisk(r, rest, Next(r, s, at, e).files, after)
    ensures OnDisk(r, Turned(r, s, at, e) + rest, s.files, after)
  {
    Effect(r, s, at, e);
  }

  /** The names in the history are new to the disk and different from one another. */
  ghost predicate NamesFresh(r: Rule, history: seq<Rotated>, files: Files)
    requires forall x :: x in history ==> InRange(x.stamp)
  {
    NewTo(r, history, files) && Distinct(r, history)
  }

  ghost predicate NewTo(r: Rule, history: seq<Rotated>, files: Files)
    requires forall x :: x in history ==> InRange(x.stamp)
  {
    forall x :: x in history ==> BackupFileName(r, x.stamp) !in files
  }

  ghost predicate Distinct(r: Rule, history: seq<Rotated>)
  {
    forall i, j :: 0 <= i < j < |history| ==> !SameStamp(r, history[i].stamp, history[j].stamp)
  }

  /** A run overwrites a file exactly if a backup name it uses exists beforehand or is used twice. */
  lemma {:induction false} OverwritesExactly(r: Rule, s: Log, at: Instant, events: seq<Event>)
    requires Ready(r, s, at) && AllInRange(events)
    ensures Overwrites(r, s, at, events) <==> !NamesFresh(r, History(r, s, at, events), s.files)
    decreases events
  {
    if events != [] {
      var e, live := events[0], LiveName(r);
      var next, nextAt := Next(r, s, at, e), NextAt(r, s, at, e);
      Effect(r, s, at, e);
      OverwritesExactly(r, next, nextAt, events[1..]);
      var rest := History(r, next, nextAt, events[1..]);
      if Turns(r, s, e) {
        assert History(r, s, at, events) == [Rotated(at, s.files[live])] + rest;
        FreshStep(r, Rotated(at, s.files[live]), rest, s.files, next.files);
      } else {
        assert History(r, s, at, events) == rest;
      }
    }
  }

  lemma DistinctCons(r: Rule, first: Rotated, rest: seq<Rotated>)
    ensures Distinct(r, [first] + rest) <==>
              Distinct(r, rest) && forall x :: x in rest ==> !SameStamp(r, first.stamp, x.stamp)
  {
    var h := [first] + rest;
    assert h[1..] == rest;
    if Distinct(r, h) {
      forall i, j | 0 <= i < j < |rest| ensures !SameStamp(r, rest[i].stamp, rest[j].stamp) {
        assert rest[i] == h[i + 1] && rest[j] == h[j + 1];
      }
      forall x | x in rest ensures !SameStamp(r, first.stamp, x.stamp) {
        var j :| 0 <= j < |rest| && rest[j] == x;
        assert x == h[j + 1] && first == h[0];
      }
    } else {
      var i, j :| 0 <= i < j < |h| && SameStamp(r, h[i].stamp, h[j].stamp);
      assert h[j] == rest[j - 1] && (i > 0 ==> h[i] == rest[i - 1]);
    }
  }

  lemma NewCons(r: Rule, first: Rotated, rest: seq<Rotated>, before: Files, after: Files)
    requires InRange(first.stamp) && after.Keys == before.Keys + {BackupFileName(r, first.stamp)}
    requires forall x :: x in rest ==> InRange(x.stamp)
    ensures NewTo(r, [first] + rest, before) <==> BackupFileName(r, first.stamp) !in before && NewTo(r, rest, before)
    ensures NewTo(r, rest, after) <==>
              NewTo(r, rest, before) && forall x :: x in rest ==> !SameStamp(r, first.stamp, x.stamp)
  {
    assert forall x :: x in [first] + rest <==> x == first || x in rest;
    forall x | x in rest
      ensures BackupFileName(r, x.stamp) == BackupFileName(r, first.stamp) <==> SameStamp(r, first.stamp, x.stamp)
    {
      NamesTellStampsApart(r, x.stamp, first.stamp);
    }
  }

  lemma FreshStep(r: Rule, first: Rotated, rest: seq<Rotated>, before: Files, after: Files)
    requires InRange(first.stamp) && after.Keys == before.Keys + {BackupFileName(r, first.stamp)}
    requires forall x :: x in rest ==> InRange(x.stamp)
    ensures NamesFresh(r, [first] + rest, before) <==>
              BackupFileName(r, first.stamp) !in before && NamesFresh(r, rest, after)
  {
    NewCons(r, first, rest, before, after);
    DistinctCons(r, first, rest);
  }

  // ---------- The daily rule ----------

  /** The daily rule's mark was made on the day of `marked`, no earlier than the backup name, and no later than now. */
  predicate DailyReady(r: Rule, s: Log, at: Instant, marked: Instant, now: Instant)
  {
    r.Daily? && Ready(r, s, at) && InRange(marked) && s.rotatedTime == FormatDate(marked) &&
    !DateBefore(marked, at) && !DateBefore(now, marked)
  }

  /** The dates of the rotated files strictly increase, and none is before the day of `since`. */
  ghost predicate Increasing(history: seq<Rotated>, since: Instant)
  {
    (forall x :: x in history ==> !DateBefore(x.stamp, since)) &&
    (forall i, j :: 0 <= i < j < |history| ==> DateBefore(history[i].stamp, history[j].stamp))
  }

  /** With a clock that does not go backwards, each backup of the daily rule gets a later date than the one before. */
  lemma {:induction false} DailyIncreasing(r: Rule, s: Log, at: Instant, marked: Instant, now: Instant,
                                           events: seq<Event>)
    requires DailyReady(r, s, at, marked, now) && AllInRange(events) && Timely(now, events)
    ensures Increasing(History(r, s, at, events), at)
    decreases events
  {
    if events != [] {
      var e := events[0];
      var next, nextAt := Next(r, s, at, e), NextAt(r, s, at, e);
      Effect(r, s, at, e);
      if Turns(r, s, e) {
        DailyTurns(r, s, at, marked, now, events);
        DailyIncreasing(r, next, nextAt, e.tick.mark, e.tick.mark, events[1..]);
        IncreasingCons(Rotated(at, s.files[LiveName(r)]), nextAt, History(r, next, nextAt, events[1..]));
      } else {
        DailyIncreasing(r, next, at, marked, e.tick.mark, events[1..]);
        assert History(r, s, at, events) == History(r, next, at, events[1..]);
      }
    }
  }

  /** A rotation moves the backup name to a later day, and leaves the rule ready. */
  lemma DailyTurns(r: Rule, s: Log, at: Instant, marked: Instant, now: Instant, events: seq<Event>)
    requires DailyReady(r, s, at, marked, now) && AllInRange(events) && Timely(now, events)
    requires events != [] && Turns(r, s, events[0])
    ensures var e := events[0]; var next := Next(r, s, at, e);
            DateBefore(at, e.tick.reopen) && DailyReady(r, next, e.tick.reopen, e.tick.mark, e.tick.mark)
  {
    Effect(r, s, at, events[0]);
    DateOrder(events[0].tick.check, marked);
  }

  lemma IncreasingCons(first: Rotated, since: Instant, rest: seq<Rotated>)
    requires DateBefore(first.stamp, since) && Increasing(rest, since)
    ensures Increasing([first] + rest, first.stamp)
  {
  }

  /** No backup on disk is dated on or after the day of `at`. */
  ghost predicate NoLaterBackup(r: Rule, files: Files, at: Instant)
  {
    forall t :: InRange(t) && !DateBefore(t, at) ==> BackupFileName(r, t) !in files
  }

  lemma DailyOverwritesNothing(r: Rule, s: Log, at: Instant, marked: Instant, now: Instant, events: seq<Event>)
    requires DailyReady(r, s, at, marked, now) && AllInRange(events) && Timely(now, events)
    requires NoLaterBackup(r, s.files, at)
    ensures !Overwrites(r, s, at, events)
  {
    DailyIncreasing(r, s, at, marked, now, events);
    OverwritesExactly(r, s, at, events);
    var h := History(r, s, at, events);
    forall x | x in h ensures BackupFileName(r, x.stamp) !in s.files {
      assert !DateBefore(x.stamp, at);
    }
    forall i, j | 0 <= i < j < |h| ensures !SameStamp(r, h[i].stamp, h[j].stamp) {
      assert DateBefore(h[i].stamp, h[j].stamp);
    }
  }

  /**
   When a logger with the daily rule is safe. The rule is created at `created` and the logger opened at
   `now`, with no backup dated on or after that day. If midnight falls between the two, the logger rotates
   at once and again the day after, under the same backup name; otherwise no run ever overwrites a file.
   (`later` is any time on a later day: without one there is no second rotation.)
   */
  lemma DailySafeExactly(r: Rule, files: Files, created: Instant, now: Instant, later: Instant)
    requires r.Daily? && InRange(created) && InRange(now) && InRange(later)
    requires NotAfter(created, now) && DateBefore(now, later)
    requires NoLaterBackup(r, files, now)
    ensures var s := Initial(r, files, created, now);
            Ready(r, s, now) &&
            ((forall events :: AllInRange(events) && Timely(now, events) ==> !Overwrites(r, s, now, events)) <==>
             SameDate(created, now))
  {
    var s := Initial(r, files, created, now);
    InitiallyReady(r, files, created, now);
    BackupIsNotLiveAny(r, now);
    if SameDate(created, now) {
      DateOrder(created, now);
      forall events | AllInRange(events) && Timely(now, events) ensures !Overwrites(r, s, now, events) {
        DailyOverwritesNothing(r, s, now, created, now, events);
      }
    } else {
      var e1 := Event([], Tick(now, now, now));
      var e2 := Event([], Tick(later, later, later));
      var events := [e1, e2];
      TwiceTheSameName(r, s, created, now, later);
      assert AllInRange(events) && Timely(now, events) && Overwrites(r, s, now, events);
    }
  }

  lemma BackupIsNotLiveAny(r: Rule, at: Instant)
    ensures forall t :: InRange(t) && !DateBefore(t, at) ==> BackupFileName(r, t) != LiveName(r)
  {
  }

  /** The run that loses a file when the first backup name is dated after the rule's mark. */
  lemma TwiceTheSameName(r: Rule, s: Log, created: Instant, now: Instant, later: Instant)
    requires r.Daily? && InRange(created) && InRange(later) && Ready(r, s, now) && s.rotatedTime == FormatDate(created)
    requires DateBefore(created, now) && DateBefore(now, later)
    ensures var events := [Event([], Tick(now, now, now)), Event([], Tick(later, later, later))];
            AllInRange(events) && Timely(now, events) && Overwrites(r, s, now, events)
  {
    var e1, e2 := Event([], Tick(now, now, now)), Event([], Tick(later, later, later));
    var events := [e1, e2];
    assert events[1..] == [e2] && [e2][1..] == [];
    TurnsAndKeepsName(r, s, now, created, now);
    var next := Next(r, s, now, e1);
    TurnsAndKeepsName(r, next, now, now, later);
    assert Overwrites(r, next, now, [e2]);
  }

  /** A write on a later day than the mark rotates; reopening on the day of `at` makes the same name again. */
  lemma TurnsAndKeepsName(r: Rule, s: Log, at: Instant, mark: Instant, now: Instant)
    requires r.Daily? && Ready(r, s, at) && InRange(now) && InRange(mark)
    requires s.rotatedTime == FormatDate(mark) && DateBefore(mark, now)
    ensures var e := Event([], Tick(now, now, now)); var next := Next(r, s, at, e);
            Turns(r, s, e) && Ready(r, next, now) && s.backup in next.files && next.rotatedTime == FormatDate(now) &&
            next.backup == BackupFileName(r, now)
  {
    DateOrder(mark, now);
    LessIrreflexive(FormatDate(now));
    Effect(r, s, at, Event([], Tick(now, now, now)));
  }

  // ---------- The size rule ----------

  /**
   A size rule overwrites nothing if the times its backup names are made from, at the start and at each
   rotation, fall in distinct seconds, and no backup of those seconds exists beforehand.
   */
  lemma SizeSafeExactly(r: Rule, s: Log, at: Instant, events: seq<Event>)
    requires r.SizeLimit? && Ready(r, s, at) && AllInRange(events)
    ensures var h := History(r, s, at, events);
            Overwrites(r, s, at, events) <==>
              (exists i, j :: 0 <= i < j < |h| && h[i].stamp == h[j].stamp) ||
              (exists i :: 0 <= i < |h| && BackupFileName(r, h[i].stamp) in s.files)
  {
    OverwritesExactly(r, s, at, events);
    TwoAlike(r, History(r, s, at, events));
    OneTaken(r, History(r, s, at, events), s.files);
  }

  lemma TwoAlike(r: Rule, h: seq<Rotated>)
    requires r.SizeLimit?
    ensures Distinct(r, h) <==> !exists i, j :: 0 <= i < j < |h| && h[i].stamp == h[j].stamp
  {
  }

  lemma OneTaken(r: Rule, h: seq<Rotated>, files: Files)
    requires forall x :: x in h ==> InRange(x.stamp)
    ensures NewTo(r, h, files) <==> !exists i :: 0 <= i < |h| && BackupFileName(r, h[i].stamp) in files
  {
  }

  /** With a positive limit, the live file exceeds it after a write only if that write alone does. */
  lemma LiveFileBounded(r: Rule, s: Log, at: Instant, e: Event)
    requires r.SizeLimit? && r.maxSize > 0 && Ready(r, s, at) && TickInRange(e.tick)
    ensures var size := |Next(r, s, at, e).files[LiveName(r)]|;
            size <= r.maxSize || size == |e.msg|
  {
    Effect(r, s, at, e);
  }
}
