/**
 Recording an exit, draining the exit spool, and settling at startup the runs whose process is
 gone, by one client whose store calls go through.
 */
module Startup {
  import opened ActivityStore
  import opened Options

  datatype Recorded = New | Duplicate | NoRun

  datatype SpoolFile = Unreadable | Readable(entry: Entry)

  datatype ImportReport = ImportReport(imported: nat, duplicates: nat, unmatched: nat, unreadable: nat)

  const NOTHING := ImportReport(0, 0, 0, 0)

  // ---- What each operation does to the database ----

  /** `record_exit` of an exit with a code. */
  function RecordedExit(db: Db, p: Pty, code: int, at: int, via: Via): (res: (Db, Recorded))
    requires PtyUnique(db)
    ensures PtyUnique(res.0)
  {
    var (ended, run) := EndRunByPty(db, p, End(Some(code), Exited, at));
    match run
    case Some(r) =>
      (AddExit(ended, ExitKey(r, db.runs[r]), ExitEvent(r, Some(code), Exited, via, at)), New)
    case None =>
      (db, if RunByPty(db, p).Some? then Duplicate else NoRun)
  }

  /** `adopt_early_exit`: only a run that is open and still waiting for its PTY. */
  function AdoptedExit(db: Db, e: Entry): (res: (Db, Recorded))
    requires PtyUnique(db)
    ensures PtyUnique(res.0)
  {
    if e.run.Some? && IsOpen(db, e.run.value) && db.runs[e.run.value].pty.None? then
      match RunSpawned(db, e.run.value, e.pty)
      case Some(linked) => RecordedExit(linked, e.pty, e.code, e.at, Spool)
      case None => (db, NoRun)
    else
      (db, NoRun)
  }

  /** What the drain does with one readable entry. */
  function Delivered(db: Db, e: Entry): (res: (Db, Recorded))
    requires PtyUnique(db)
    ensures PtyUnique(res.0)
  {
    var (after, recorded) := RecordedExit(db, e.pty, e.code, e.at, Spool);
    if recorded.NoRun? then AdoptedExit(after, e) else (after, recorded)
  }

  function Counted(report: ImportReport, recorded: Recorded): ImportReport {
    match recorded
    case New => report.(imported := report.imported + 1)
    case Duplicate => report.(duplicates := report.duplicates + 1)
    case NoRun => report.(unmatched := report.unmatched + 1)
  }

  /** `import_spool` over the files in their order. */
  function Drained(db: Db, files: seq<SpoolFile>): (res: (Db, ImportReport))
    requires PtyUnique(db)
    ensures PtyUnique(res.0)
    decreases |files|
  {
    if files == [] then (db, NOTHING)
    else
      var (before, report) := Drained(db, files[..|files| - 1]);
      match files[|files| - 1]
      case Unreadable => (before, report.(unreadable := report.unreadable + 1))
      case Readable(e) =>
        var (after, recorded) := Delivered(before, e);
        (after, Counted(report, recorded))
  }

  /** Of the first `n` files, those whose removal fails. */
  function Remaining(files: seq<SpoolFile>, stuck: set<nat>, n: nat): (left: seq<SpoolFile>)
    requires n <= |files|
    ensures forall file :: file in left ==> file in files
    ensures forall i :: i in stuck && i < n ==> files[i] in left
  {
    if n == 0 then [] else Remaining(files, stuck, n - 1) + if n - 1 in stuck then [files[n - 1]] else []
  }

  /** What is left of the files are those at the places in `stuck`, in their order, each once. */
  ghost predicate IsLeft(files: seq<SpoolFile>, stuck: set<nat>, left: seq<SpoolFile>) {
    exists at: seq<nat> :: ArePlaces(files, |files|, stuck, left, at)
  }

  ghost predicate ArePlaces(files: seq<SpoolFile>, n: nat, stuck: set<nat>, left: seq<SpoolFile>, at: seq<nat>)
    requires n <= |files|
  {
    && |at| == |left|
    && (forall j, k :: 0 <= j < k < |at| ==> at[j] < at[k])
    && (forall k :: 0 <= k < |at| ==> at[k] < n && left[k] == files[at[k]])
    && (forall i :: i in at <==> i in stuck && i < n)
  }

  lemma {:induction false} RemainingIsLeft(files: seq<SpoolFile>, stuck: set<nat>, n: nat) returns (at: seq<nat>)
    requires n <= |files|
    ensures ArePlaces(files, n, stuck, Remaining(files, stuck, n), at)
  {
    hide ArePlaces;
    if n == 0 {
      at := [];
      NoPlaces(files, stuck);
    } else {
      var left := Remaining(files, stuck, n - 1);
      var earlier := RemainingIsLeft(files, stuck, n - 1);
      OnePlaceMore(files, n - 1, stuck, left, earlier);
      at := if n - 1 in stuck then earlier + [n - 1] else earlier;
      assert Remaining(files, stuck, n) == if n - 1 in stuck then left + [files[n - 1]] else left;
    }
  }

  lemma NoPlaces(files: seq<SpoolFile>, stuck: set<nat>)
    ensures ArePlaces(files, 0, stuck, [], [])
  {
  }

  lemma OnePlaceMore(files: seq<SpoolFile>, n: nat, stuck: set<nat>, left: seq<SpoolFile>, at: seq<nat>)
    requires n < |files| && ArePlaces(files, n, stuck, left, at)
    ensures n in stuck ==> ArePlaces(files, n + 1, stuck, left + [files[n]], at + [n])
    ensures n !in stuck ==> ArePlaces(files, n + 1, stuck, left, at)
  {
    assert forall i :: i in at ==> i < n;
    assert forall i :: i in at + [n] <==> i in at || i == n;
  }

  function Interruption(r: RunId, at: int): ExitEvent {
    ExitEvent(r, None, Interrupted, Reconcile, at)
  }

  /** The keys of the events `end_interrupted` writes. */
  ghost function KeysOf(db: Db, gone: set<RunId>): set<Key>
    requires gone <= db.runs.Keys
  {
    set r | r in gone :: ExitKey(r, db.runs[r])
  }

  /** The events of `gone` have been written, except where their key was taken. */
  ghost predicate Written(db: Db, exits: map<Key, ExitEvent>, gone: set<RunId>, now: int)
    requires gone <= db.runs.Keys
  {
    && exits.Keys == db.exits.Keys + KeysOf(db, gone)
    && (forall k :: k in db.exits ==> exits[k] == db.exits[k])
    && (forall r :: r in gone && ExitKey(r, db.runs[r]) !in db.exits ==> exits[ExitKey(r, db.runs[r])] == Interruption(r, now))
  }

  /** `end_interrupted`: the store ends them at `endedAt`, the events are written at `now`. */
  ghost predicate IsReconciled(db: Db, after: Db, alive: set<Pty>, endedAt: int, now: int) {
    var gone := GoneRuns(db, alive, endedAt - PENDING_GRACE);
    after.runs == EndInterruptedRuns(db, gone, endedAt).runs && Written(db, after.exits, gone, now)
  }

  // ---- The operations ----

  class Profile {
    var db: Db
    var spool: seq<SpoolFile>

    constructor (db: Db, spool: seq<SpoolFile>)
      ensures this.db == db && this.spool == spool
    {
      this.db := db;
      this.spool := spool;
    }

    method RecordExit(p: Pty, code: int, at: int, via: Via) returns (recorded: Recorded)
      requires PtyUnique(db)
      modifies this`db
      ensures (db, recorded) == RecordedExit(old(db), p, code, at, via)
    {
      var (ended, run) := EndRunByPty(db, p, End(Some(code), Exited, at));
      match run {
        case Some(r) =>
          var key := ExitKey(r, db.runs[r]);
          db := AddExit(ended, key, ExitEvent(r, Some(code), Exited, via, at));
          return New;
        case None =>
          var known := RunByPty(db, p);
          return if known.Some? then Duplicate else NoRun;
      }
    }

    method AdoptEarlyExit(e: Entry) returns (recorded: Recorded)
      requires PtyUnique(db)
      modifies this`db
      ensures (db, recorded) == AdoptedExit(old(db), e)
    {
      if e.run.None? || !IsOpen(db, e.run.value) || db.runs[e.run.value].pty.Some? {
        return NoRun;
      }
      var linked := RunSpawned(db, e.run.value, e.pty);
      if linked.None? {
        return NoRun;
      }
      db := linked.value;
      recorded := RecordExit(e.pty, e.code, e.at, Spool);
    }

    /** `stuck`: the files, by their place in the listing, whose removal fails. */
    method ImportSpool(stuck: set<nat>) returns (report: ImportReport)
      requires PtyUnique(db)
      modifies this
      ensures (db, report) == Drained(old(db), old(spool))
      ensures spool == Remaining(old(spool), stuck, |old(spool)|)
      ensures IsLeft(old(spool), stuck, spool)
      ensures stuck == {} ==> spool == []
    {
      report := NOTHING;
      var files := spool;
      var left := [];
      for i := 0 to |files|
        invariant PtyUnique(db)
        invariant (db, report) == Drained(old(db), files[..i])
        invariant left == Remaining(files, stuck, i)
      {
        assert files[..i + 1][..i] == files[..i];
        match files[i] {
          case Unreadable =>
            report := report.(unreadable := report.unreadable + 1);
          case Readable(e) =>
            var recorded := RecordExit(e.pty, e.code, e.at, Spool);
            if recorded == NoRun {
              recorded := AdoptEarlyExit(e);
            }
            report := Counted(report, recorded);
        }
        if i in stuck {
          left := left + [files[i]];
        }
      }
      spool := left;
      assert files[..|files|] == files;
      ghost var at := RemainingIsLeft(files, stuck, |files|);
      assert left != [] ==> at[0] in at;
    }

    method EndInterrupted(alive: set<Pty>, endedAt: int, now: int) returns (count: nat)
      requires PtyUnique(db)
      modifies this`db
      ensures IsReconciled(old(db), db, alive, endedAt, now)
      ensures count == |GoneRuns(old(db), alive, endedAt - PENDING_GRACE)|
    {
      ghost var before := db;
      var gone := GoneRuns(db, alive, endedAt - PENDING_GRACE);
      var keys := map r | r in gone :: ExitKey(r, db.runs[r]);
      db := EndInterruptedRuns(db, gone, endedAt);
      WriteInterruptions(before, keys, now);
      return |gone|;
    }

    /** The loop of `end_interrupted`: one event for each run that was just ended. */
    method WriteInterruptions(ghost before: Db, keys: map<RunId, Key>, now: int)
      requires PtyUnique(before) && keys.Keys <= before.runs.Keys && db.exits == before.exits
      requires forall r :: r in keys ==> keys[r] == ExitKey(r, before.runs[r])
      modifies this`db
      ensures db.runs == old(db.runs) && Written(before, db.exits, keys.Keys, now)
    {
      var left := keys.Keys;
      ghost var done: set<RunId> := {};
      ghost var runs := db.runs;
      while left != {}
        invariant left == keys.Keys - done && done <= keys.Keys
        invariant db.runs == runs
        invariant Written(before, db.exits, done, now)
        decreases left
      {
        var r :| r in left;
        WriteOne(before, db.exits, done, r, now);
        ghost var more := done + {r};
        db := AddExit(db, keys[r], Interruption(r, now));
        assert Written(before, db.exits, more, now);
        left := left - {r};
        done := more;
      }
    }

    /** The order that `start` keeps: the spool first, then the runs whose process is gone. */
    method Start(stuck: set<nat>, alive: set<Pty>, endedAt: int, now: int) returns (report: ImportReport)
      requires PtyUnique(db)
      modifies this
      ensures IsStarted(old(db), old(spool), db, alive, endedAt, now)
      ensures report == Drained(old(db), old(spool)).1
      ensures IsLeft(old(spool), stuck, spool)
    {
      report := ImportSpool(stuck);
      var _ := EndInterrupted(alive, endedAt, now);
    }
  }

  lemma WriteOne(db: Db, exits: map<Key, ExitEvent>, done: set<RunId>, r: RunId, now: int)
    requires PtyUnique(db) && done <= db.runs.Keys && r in db.runs && r !in done
    requires Written(db, exits, done, now)
    ensures var key := ExitKey(r, db.runs[r]);
            Written(db, if key in exits then exits else exits[key := Interruption(r, now)], done + {r}, now)
  {
    var key := ExitKey(r, db.runs[r]);
    assert KeysOf(db, done + {r}) == KeysOf(db, done) + {key};
    forall q | q in done ensures ExitKey(q, db.runs[q]) != key {
      assert db.runs[q].pty.Some? ==> db.runs[q].pty != db.runs[r].pty;
    }
  }

  /** What `start` leaves in the database, given what was there. */
  ghost predicate IsStarted(db: Db, files: seq<SpoolFile>, after: Db, alive: set<Pty>, endedAt: int, now: int)
    requires PtyUnique(db)
  {
    IsReconciled(Drained(db, files).0, after, alive, endedAt, now)
  }
}
