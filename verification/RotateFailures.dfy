/**
 The rotating log file when the operating system fails (core/logx/rotatelogger.go:349-375 and 402-415): a
 close, rename or create that fails leaves the logger without an open file, and messages are dropped until
 a rotation succeeds.
 */
module RotateFailures {
  import opened RotateNames
  import opened RotateLogger

  /** One call of `write`, and which system calls succeed during it. */
  datatype Attempt = Attempt(msg: Bytes, tick: Tick, os: Os)

  /** The backup name in place is a name, and not that of the live file. */
  predicate Sane(r: Rule, s: Log)
  {
    Consistent(r, s) && s.backup != "" && s.backup != LiveName(r)
  }

  /** What the live file holds; a failed create after a rename leaves none. */
  function Live(r: Rule, s: Log): Bytes
  {
    if LiveName(r) in s.files then s.files[LiveName(r)] else []
  }

  /** The content that a write moves to the backup: that of the live file, if it gets as far as renaming it. */
  function Moved(r: Rule, s: Log, a: Attempt): Bytes
    requires TickInRange(a.tick)
  {
    if Rotates(r, s, a.msg, a.tick) && (s.open ==> a.os.close) && a.os.rename then Live(r, s) else []
  }

  /** Whether the bytes of a write reach the file. */
  predicate Reaches(r: Rule, s: Log, a: Attempt)
    requires TickInRange(a.tick)
  {
    if Rotates(r, s, a.msg, a.tick) then RotateSucceeds(r, s, a.os) else s.open
  }

  function After(r: Rule, s: Log, a: Attempt): Log
    requires TickInRange(a.tick) && Sane(r, s)
  {
    Write(r, s, a.msg, a.tick, a.os)
  }

  /** A rotation moves the live content away or leaves it, and opens a new file or none. */
  lemma OneRotation(r: Rule, s: Log, reopen: Instant, os: Os)
    requires InRange(reopen) && Sane(r, s)
    ensures var s' := Rotate(r, s, reopen, os);
            Sane(r, s') && (s'.open <==> RotateSucceeds(r, s, os)) &&
            (if (s.open ==> os.close) && os.rename then Live(r, s) else []) + Live(r, s') == Live(r, s)
  {
    BackupIsNotLive(r, reopen);
    var s' := Rotate(r, s, reopen, os);
    if (s.open ==> os.close) && os.rename {
      assert Live(r, s') == [];
    } else {
      assert Live(r, s') == Live(r, s);
    }
  }

  /** The logger when a write comes to the file: after a rotation, if there is one. */
  function Prepared(r: Rule, s: Log, a: Attempt): Log
    requires TickInRange(a.tick)
  {
    if !Rotates(r, s, a.msg, a.tick) then s
    else
      var rotated := Rotate(r, s, a.tick.reopen, a.os);
      if RotateSucceeds(r, s, a.os) then rotated.(rotatedTime := RotatedMark(r, a.tick.mark), currentSize := 0)
      else rotated
  }

  lemma PreparedKeeps(r: Rule, s: Log, a: Attempt)
    requires TickInRange(a.tick) && Sane(r, s)
    ensures var p := Prepared(r, s, a);
            Sane(r, p) && (p.open <==> Reaches(r, s, a)) && Moved(r, s, a) + Live(r, p) == Live(r, s)
  {
    if Rotates(r, s, a.msg, a.tick) {
      OneRotation(r, s, a.tick.reopen, a.os);
    } else {
      assert [] + Live(r, s) == Live(r, s);
    }
  }

  lemma AppendKeeps(r: Rule, s: Log, a: Attempt)
    requires TickInRange(a.tick) && Sane(r, s) && Sane(r, Prepared(r, s, a))
    ensures var p := Prepared(r, s, a);
            Sane(r, After(r, s, a)) && After(r, s, a).open == p.open &&
            Live(r, After(r, s, a)) == Live(r, p) + if p.open then a.msg else []
  {
  }

  /** Whatever fails, one write loses nothing but its own bytes, and those only if no file is open for them. */
  lemma OneWrite(r: Rule, s: Log, a: Attempt)
    requires TickInRange(a.tick) && Sane(r, s)
    ensures Sane(r, After(r, s, a)) && (After(r, s, a).open <==> Reaches(r, s, a))
    ensures Moved(r, s, a) + Live(r, After(r, s, a)) == Live(r, s) + if Reaches(r, s, a) then a.msg else []
  {
    PreparedKeeps(r, s, a);
    AppendKeeps(r, s, a);
    Associates(Moved(r, s, a), Live(r, Prepared(r, s, a)), if Reaches(r, s, a) then a.msg else []);
  }

  predicate AllTimed(attempts: seq<Attempt>)
  {
    forall a :: a in attempts ==> TickInRange(a.tick)
  }

  function FinalAfter(r: Rule, s: Log, attempts: seq<Attempt>): Log
    requires Sane(r, s) && AllTimed(attempts)
    decreases attempts
  {
    if attempts == [] then s
    else (OneWrite(r, s, attempts[0]); FinalAfter(r, After(r, s, attempts[0]), attempts[1..]))
  }

  /** Everything moved to backups during a run, in order. */
  function AllMoved(r: Rule, s: Log, attempts: seq<Attempt>): Bytes
    requires Sane(r, s) && AllTimed(attempts)
    decreases attempts
  {
    if attempts == [] then []
    else (OneWrite(r, s, attempts[0]); Moved(r, s, attempts[0]) + AllMoved(r, After(r, s, attempts[0]), attempts[1..]))
  }

  /** The bytes of the writes that reach the file, in order. */
  function Delivered(r: Rule, s: Log, attempts: seq<Attempt>): Bytes
    requires Sane(r, s) && AllTimed(attempts)
    decreases attempts
  {
    if attempts == [] then []
    else
      OneWrite(r, s, attempts[0]);
      (if Reaches(r, s, attempts[0]) then attempts[0].msg else []) +
        Delivered(r, After(r, s, attempts[0]), attempts[1..])
  }

  /**
   In every run, what was moved and the live file hold the initial content and exactly the writes that reach the
   file.
   */
  lemma {:induction false} ConservedUpToDrops(r: Rule, s: Log, attempts: seq<Attempt>)
    requires Sane(r, s) && AllTimed(attempts)
    ensures AllMoved(r, s, attempts) + Live(r, FinalAfter(r, s, attempts)) == Live(r, s) + Delivered(r, s, attempts)
    decreases attempts
  {
    if attempts != [] {
      var a := attempts[0];
      var next, rest := After(r, s, a), attempts[1..];
      OneWrite(r, s, a);
      ConservedUpToDrops(r, next, rest);
      var kept := if Reaches(r, s, a) then a.msg else [];
      Associates(Moved(r, s, a), AllMoved(r, next, rest), Live(r, FinalAfter(r, next, rest)));
      Regroup(Moved(r, s, a), Live(r, next), Live(r, s), kept, Delivered(r, next, rest));
    }
  }

  /** A logger that has lost its file drops every write until one rotates with success. */
  lemma ClosedDrops(r: Rule, s: Log, a: Attempt)
    requires TickInRange(a.tick) && Sane(r, s) && !s.open
    ensures Reaches(r, s, a) <==>
              Rotates(r, s, a.msg, a.tick) && (LiveName(r) in s.files ==> a.os.rename) && a.os.create
  {
  }
}
