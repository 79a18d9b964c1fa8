/**
 What startup decides for each run, what the drain's report counts, and that draining the same
 files again changes nothing.
 */
module StartupOutcome {
  import opened ActivityStore
  import opened Options
  import opened Startup

  predicate IsFor(file: SpoolFile, p: Pty) {
    file.Readable? && file.entry.pty == p
  }

  predicate IsNaming(file: SpoolFile, r: RunId) {
    file.Readable? && file.entry.run == Some(r)
  }

  /** The entry of the first file that satisfies `test`. */
  ghost function First(files: seq<SpoolFile>, test: SpoolFile -> bool): (found: Option<Entry>)
    ensures found.None? <==> forall i :: 0 <= i < |files| && files[i].Readable? ==> !test(files[i])
    ensures found.Some? ==>
              exists i :: 0 <= i < |files| && files[i] == Readable(found.value) && test(files[i])
                       && forall j :: 0 <= j < i && files[j].Readable? ==> !test(files[j])
    decreases |files|
  {
    if files == [] then None
    else
      var n := |files| - 1;
      var earlier := First(files[..n], test);
      if earlier.Some? then earlier
      else if files[n].Readable? && test(files[n]) then Some(files[n].entry)
      else None
  }

  function Exit(e: Entry): Option<End> {
    Some(End(Some(e.code), Exited, e.at))
  }

  // ---- One entry ----

  lemma DeliveredRow(db: Db, e: Entry, r: RunId)
    requires PtyUnique(db) && r in db.runs
    ensures var run := db.runs[r];
            var d := Delivered(db, e).0;
            && d.runs.Keys == db.runs.Keys
            && (run.end.Some? ==> d.runs[r] == run)
            && (run.end.None? && run.pty == Some(e.pty) ==> d.runs[r] == run.(end := Exit(e)))
            && (run.end.None? && run.pty.Some? && run.pty != Some(e.pty) ==> d.runs[r] == run)
            && (run.end.None? && run.pty.None? ==>
                  d.runs[r] == run || (e.run == Some(r) && d.runs[r] == Run(Some(e.pty), run.startedAt, Exit(e))))
  {
    RecordedRow(db, e.pty, e.code, e.at, r);
    if RecordedExit(db, e.pty, e.code, e.at, Spool).1.NoRun? {
      AdoptedRow(db, e, r);
    }
  }

  lemma RecordedRow(db: Db, p: Pty, code: int, at: int, r: RunId)
    requires PtyUnique(db) && r in db.runs
    ensures var (d, recorded) := RecordedExit(db, p, code, at, Spool);
            && d.runs.Keys == db.runs.Keys
            && d.runs[r] == (if db.runs[r].end.None? && db.runs[r].pty == Some(p)
                             then db.runs[r].(end := Some(End(Some(code), Exited, at))) else db.runs[r])
            && (recorded.New? <==> exists q :: HasPty(db, q, p) && IsOpen(db, q))
            && (recorded.NoRun? <==> forall q :: !HasPty(db, q, p))
            && (!recorded.New? ==> d == db)
  {
    assert HasPty(db, r, p) <==> db.runs[r].pty == Some(p);
    var known := RunByPty(db, p);
    assert known.Some? ==> HasPty(db, known.value, p);
  }

  lemma AdoptedRow(db: Db, e: Entry, r: RunId)
    requires PtyUnique(db) && r in db.runs
    requires forall q :: !HasPty(db, q, e.pty)
    ensures var (d, recorded) := AdoptedExit(db, e);
            && d.runs.Keys == db.runs.Keys
            && d.runs[r] == (if db.runs[r].end.None? && db.runs[r].pty.None? && e.run == Some(r)
                             then Run(Some(e.pty), db.runs[r].startedAt, Exit(e)) else db.runs[r])
            && (recorded.New? <==> e.run.Some? && IsOpen(db, e.run.value) && db.runs[e.run.value].pty.None?)
            && (!recorded.New? ==> d == db)
  {
    assert !HasPty(db, r, e.pty);
    if e.run.Some? && IsOpen(db, e.run.value) && db.runs[e.run.value].pty.None? {
      var linked := RunSpawned(db, e.run.value, e.pty).value;
      assert HasPty(linked, e.run.value, e.pty) && IsOpen(linked, e.run.value);
      RecordedRow(linked, e.pty, e.code, e.at, r);
    }
  }

  // ---- The whole drain ----

  /** An ended run stays as it ended, and a linked one is ended by the first entry for its PTY. */
  lemma {:induction false} DrainedLinked(db: Db, files: seq<SpoolFile>, r: RunId)
    requires PtyUnique(db) && r in db.runs && (db.runs[r].pty.Some? || db.runs[r].end.Some?)
    ensures var run := db.runs[r];
            var d := Drained(db, files).0;
            && d.runs.Keys == db.runs.Keys
            && d.runs[r] ==
               if run.end.Some? then run
               else match First(files, f => IsFor(f, run.pty.value))
                    case Some(e) => run.(end := Exit(e))
                    case None => run
    decreases |files|
  {
    if files != [] {
      var n := |files| - 1;
      DrainedLinked(db, files[..n], r);
      if files[n].Readable? {
        DeliveredRow(Drained(db, files[..n]).0, files[n].entry, r);
      }
    }
  }

  ghost predicate IsWaiting(db: Db, r: RunId) {
    IsOpen(db, r) && db.runs[r].pty.None?
  }

  /**
   The entry that adopts a waiting run: the first that names it and whose PTY no run has by then,
   neither from before nor from an earlier entry.
   */
  ghost function Adopting(db: Db, files: seq<SpoolFile>, r: RunId): (found: Option<Entry>)
    ensures found.Some? ==> exists i :: 0 <= i < |files| && files[i] == Readable(found.value) && IsNaming(files[i], r)
    decreases |files|, 0
  {
    if files == [] then None
    else
      var n := |files| - 1;
      var earlier := Adopting(db, files[..n], r);
      if earlier.Some? then earlier
      else if IsNaming(files[n], r) && !IsTaken(db, files[..n], files[n].entry.pty) then Some(files[n].entry)
      else None
  }

  /** A run has the PTY: from before, or because one of the entries adopted it. */
  ghost predicate IsTaken(db: Db, files: seq<SpoolFile>, p: Pty)
    decreases |files|, 2
  {
    (exists q :: HasPty(db, q, p)) || exists q :: q in db.runs && IsAdopted(db, files, q, p)
  }

  ghost predicate IsAdopted(db: Db, files: seq<SpoolFile>, q: RunId, p: Pty)
    decreases |files|, 1
  {
    IsWaiting(db, q) && Adopting(db, files, q).Some? && Adopting(db, files, q).value.pty == p
  }

  lemma DeliveredKeys(db: Db, e: Entry)
    requires PtyUnique(db)
    ensures Delivered(db, e).0.runs.Keys == db.runs.Keys
  {
  }

  lemma {:induction false} DrainedKeys(db: Db, files: seq<SpoolFile>)
    requires PtyUnique(db)
    ensures Drained(db, files).0.runs.Keys == db.runs.Keys
    decreases |files|
  {
    if files != [] {
      var n := |files| - 1;
      DrainedKeys(db, files[..n]);
      if files[n].Readable? {
        DeliveredKeys(Drained(db, files[..n]).0, files[n].entry);
      }
    }
  }

  /** `IsTaken` says which PTYs are linked once the files are drained. */
  lemma {:induction false} TakenIff(db: Db, files: seq<SpoolFile>, p: Pty)
    requires PtyUnique(db)
    ensures (exists q :: HasPty(Drained(db, files).0, q, p)) <==> IsTaken(db, files, p)
    decreases |files|, 1
  {
    var d := Drained(db, files).0;
    DrainedKeys(db, files);
    forall q | q in db.runs ensures HasPty(d, q, p) <==> HasPty(db, q, p) || IsAdopted(db, files, q, p) {
      if IsWaiting(db, q) {
        DrainedPending(db, files, q);
      } else {
        DrainedLinked(db, files, q);
      }
    }
    if q :| HasPty(d, q, p) {
      assert q in db.runs;
    }
    if q :| q in db.runs && IsAdopted(db, files, q, p) {
      assert HasPty(d, q, p);
    }
    if q :| HasPty(db, q, p) {
      assert HasPty(d, q, p);
    }
  }

  /** A waiting run is ended by the entry that adopts it, and by nothing else. */
  lemma {:induction false} DrainedPending(db: Db, files: seq<SpoolFile>, r: RunId)
    requires PtyUnique(db) && IsWaiting(db, r)
    ensures var run := db.runs[r];
            r in Drained(db, files).0.runs
            && Drained(db, files).0.runs[r] ==
               match Adopting(db, files, r)
               case Some(e) => Run(Some(e.pty), run.startedAt, Exit(e))
               case None => run
    decreases |files|, 0
  {
    hide IsTaken;
    if files != [] {
      var n := |files| - 1;
      DrainedPending(db, files[..n], r);
      if files[n].Readable? {
        var e := files[n].entry;
        TakenIff(db, files[..n], e.pty);
        DeliveredTo(Drained(db, files[..n]).0, e, r);
      }
    }
  }

  lemma DeliveredTo(db: Db, e: Entry, r: RunId)
    requires PtyUnique(db) && r in db.runs
    ensures r in Delivered(db, e).0.runs
    ensures !IsWaiting(db, r) && (db.runs[r].end.Some? || db.runs[r].pty != Some(e.pty)) ==> Delivered(db, e).0.runs[r] == db.runs[r]
    ensures IsWaiting(db, r) ==>
              Delivered(db, e).0.runs[r] == (if e.run == Some(r) && !(exists q :: HasPty(db, q, e.pty))
                                             then Run(Some(e.pty), db.runs[r].startedAt, Exit(e)) else db.runs[r])
  {
    DeliveredRow(db, e, r);
    RecordedRow(db, e.pty, e.code, e.at, r);
    if RecordedExit(db, e.pty, e.code, e.at, Spool).1.NoRun? {
      AdoptedRow(db, e, r);
    }
  }

  /** Whether the daemon's labels hold together: one run to a PTY, and the PTY's own. */
  ghost predicate LabelsAgree(db: Db, files: seq<SpoolFile>, r: RunId) {
    forall i :: 0 <= i < |files| && IsNaming(files[i], r) ==>
      && (forall q :: !HasPty(db, q, files[i].entry.pty))
      && forall j :: 0 <= j < |files| && IsFor(files[j], files[i].entry.pty) ==> IsNaming(files[j], r)
  }

  /** Where they do, the first entry that names a waiting run adopts it. */
  lemma {:induction false} FirstNamingAdopts(db: Db, files: seq<SpoolFile>, r: RunId)
    requires IsWaiting(db, r) && LabelsAgree(db, files, r)
    ensures Adopting(db, files, r) == First(files, f => IsNaming(f, r))
    decreases |files|
  {
    if files != [] {
      var n := |files| - 1;
      assert LabelsAgree(db, files[..n], r);
      FirstNamingAdopts(db, files[..n], r);
      if IsNaming(files[n], r) && Adopting(db, files[..n], r).None? {
        NotYetTaken(db, files, r);
      }
    }
  }

  lemma NotYetTaken(db: Db, files: seq<SpoolFile>, r: RunId)
    requires files != [] && LabelsAgree(db, files, r) && IsNaming(files[|files| - 1], r) && Adopting(db, files[..|files| - 1], r).None?
    ensures !IsTaken(db, files[..|files| - 1], files[|files| - 1].entry.pty)
  {
    var n := |files| - 1;
    var p := files[n].entry.pty;
    forall q | q in db.runs ensures !IsAdopted(db, files[..n], q, p) {
      if Adopting(db, files[..n], q).Some? && Adopting(db, files[..n], q).value.pty == p {
        AdoptsByName(db, files[..n], q, p, r);
      }
    }
  }

  lemma AdoptsByName(db: Db, files: seq<SpoolFile>, q: RunId, p: Pty, r: RunId)
    requires Adopting(db, files, q).Some? && Adopting(db, files, q).value.pty == p
    requires forall i :: 0 <= i < |files| && IsFor(files[i], p) ==> IsNaming(files[i], r)
    ensures q == r
  {
    var i :| 0 <= i < |files| && files[i] == Readable(Adopting(db, files, q).value) && IsNaming(files[i], q);
    assert IsFor(files[i], p);
  }

  // ---- Startup ----

  /** What startup decides for a run that the spool says nothing of. */
  ghost function Reckoned(run: Run, alive: set<Pty>, endedAt: int): Option<End> {
    match run.pty
    case Some(p) => if p in alive then None else Some(End(None, Interrupted, endedAt))
    case None => if endedAt - run.startedAt > 60_000 then Some(End(None, Interrupted, endedAt)) else None
  }

  /**
   Startup leaves ended runs alone; it ends a linked run that the spool names as exited, with its
   first entry's code at the daemon's time; it calls interrupted those whose process is neither
   in the spool nor alive; and it leaves the others open.
   */
  lemma StartupSettlesLinked(db: Db, files: seq<SpoolFile>, after: Db, alive: set<Pty>, endedAt: int, now: int, r: RunId)
    requires PtyUnique(db) && IsStarted(db, files, after, alive, endedAt, now)
    requires r in db.runs && (db.runs[r].pty.Some? || db.runs[r].end.Some?)
    ensures r in after.runs && after.runs[r].pty == db.runs[r].pty
    ensures after.runs[r].end ==
            if db.runs[r].end.Some? then db.runs[r].end
            else match First(files, f => IsFor(f, db.runs[r].pty.value))
                 case Some(e) => Exit(e)
                 case None => Reckoned(db.runs[r], alive, endedAt)
  {
    DrainedLinked(db, files, r);
  }

  /** The same for a run still waiting for its PTY, by the entry that adopts it. */
  lemma StartupSettlesPending(db: Db, files: seq<SpoolFile>, after: Db, alive: set<Pty>, endedAt: int, now: int, r: RunId)
    requires PtyUnique(db) && IsStarted(db, files, after, alive, endedAt, now) && IsWaiting(db, r)
    ensures r in after.runs
    ensures after.runs[r].end ==
            match Adopting(db, files, r)
            case Some(e) => Exit(e)
            case None => Reckoned(db.runs[r], alive, endedAt)
  {
    DrainedPending(db, files, r);
  }

  /** Where a run has one process, and its entries carry its label, that is the first entry naming it. */
  lemma StartupSettlesLabelled(db: Db, files: seq<SpoolFile>, after: Db, alive: set<Pty>, endedAt: int, now: int, r: RunId)
    requires PtyUnique(db) && IsStarted(db, files, after, alive, endedAt, now) && IsWaiting(db, r) && LabelsAgree(db, files, r)
    ensures r in after.runs
    ensures after.runs[r].end ==
            match First(files, f => IsNaming(f, r))
            case Some(e) => Exit(e)
            case None => Reckoned(db.runs[r], alive, endedAt)
  {
    StartupSettlesPending(db, files, after, alive, endedAt, now, r);
    FirstNamingAdopts(db, files, r);
  }

  // ---- Draining again ----

  /** An entry with nothing left to say: no open run has its PTY, and its label names none that waits. */
  ghost predicate Inert(db: Db, e: Entry) {
    && (forall q :: HasPty(db, q, e.pty) ==> !IsOpen(db, q))
    && ((exists q :: HasPty(db, q, e.pty))
        || (e.run.Some? ==> e.run.value !in db.runs || db.runs[e.run.value].end.Some? || db.runs[e.run.value].pty.Some?))
  }

  lemma InertIsIgnored(db: Db, e: Entry)
    requires PtyUnique(db) && Inert(db, e)
    ensures Delivered(db, e).0 == db && !Delivered(db, e).1.New?
  {
  }

  lemma DeliveredIsInert(db: Db, e: Entry)
    requires PtyUnique(db)
    ensures Inert(Delivered(db, e).0, e)
  {
    var d := Delivered(db, e).0;
    forall q | q in db.runs ensures HasPty(d, q, e.pty) ==> !IsOpen(d, q) {
      DeliveredRow(db, e, q);
    }
    DeliveredKeys(db, e);
    if forall q :: !HasPty(d, q, e.pty) {
      forall q | HasPty(db, q, e.pty) ensures HasPty(d, q, e.pty) {
        DeliveredRow(db, e, q);
      }
      if e.run.Some? && e.run.value in db.runs {
        AdoptedRow(db, e, e.run.value);
        assert !HasPty(d, e.run.value, e.pty);
      }
    } else {
      var q :| HasPty(d, q, e.pty);
    }
  }

  lemma InertStays(db: Db, e: Entry, other: Entry)
    requires PtyUnique(db) && Inert(db, e)
    ensures Inert(Delivered(db, other).0, e)
  {
    var d := Delivered(db, other).0;
    DeliveredKeys(db, other);
    forall q | q in db.runs
      ensures HasPty(db, q, e.pty) ==> HasPty(d, q, e.pty)
      ensures HasPty(d, q, e.pty) ==> !IsOpen(d, q)
      ensures Some(q) == e.run && (db.runs[q].end.Some? || db.runs[q].pty.Some?) ==> d.runs[q].end.Some? || d.runs[q].pty.Some?
    {
      DeliveredRow(db, other, q);
      assert !IsOpen(db, q) || !HasPty(db, q, e.pty);
    }
  }

  lemma {:induction false} DrainedIsInert(db: Db, files: seq<SpoolFile>, i: nat)
    requires PtyUnique(db) && i < |files| && files[i].Readable?
    ensures Inert(Drained(db, files).0, files[i].entry)
    decreases |files|
  {
    var n := |files| - 1;
    var before := Drained(db, files[..n]).0;
    if i == n {
      DeliveredIsInert(before, files[n].entry);
    } else {
      DrainedIsInert(db, files[..n], i);
      if files[n].Readable? {
        InertStays(before, files[i].entry, files[n].entry);
      }
    }
  }

  /**
   Draining files whose entries were all drained before — another client read them first, or
   their removal failed — changes nothing and records nothing as new.
   */
  lemma {:induction false} DrainingAgainIsHarmless(db: Db, files: seq<SpoolFile>, again: seq<SpoolFile>)
    requires PtyUnique(db)
    requires forall file :: file in again && file.Readable? ==> file in files
    ensures var d := Drained(db, files).0;
            Drained(d, again).0 == d && Drained(d, again).1.imported == 0
    decreases |again|
  {
    if again != [] {
      var n := |again| - 1;
      DrainingAgainIsHarmless(db, files, again[..n]);
      if again[n].Readable? {
        assert again[n] in again;
        var i :| 0 <= i < |files| && files[i] == again[n];
        DrainedIsInert(db, files, i);
        InertIsIgnored(Drained(db, files).0, again[n].entry);
      }
    }
  }

  /** So files whose removal failed do no harm: the next drain finds nothing new in them. */
  lemma StuckFilesAreHarmless(db: Db, files: seq<SpoolFile>, stuck: set<nat>)
    requires PtyUnique(db)
    ensures var d := Drained(db, files).0;
            var left := Remaining(files, stuck, |files|);
            Drained(d, left).0 == d && Drained(d, left).1.imported == 0
  {
    DrainingAgainIsHarmless(db, files, Remaining(files, stuck, |files|));
  }

  // ---- What the report counts ----

  ghost function EndedRuns(db: Db): set<RunId> {
    set r | r in db.runs && db.runs[r].end.Some?
  }

  lemma DeliveredEnds(db: Db, e: Entry)
    requires PtyUnique(db)
    ensures var (d, recorded) := Delivered(db, e);
            |EndedRuns(d)| == |EndedRuns(db)| + if recorded.New? then 1 else 0
  {
    var (d, recorded) := Delivered(db, e);
    DeliveredKeys(db, e);
    if recorded.New? {
      var r: RunId := if exists q: RunId :: HasPty(db, q, e.pty) && IsOpen(db, q) then
        var q: RunId :| HasPty(db, q, e.pty) && IsOpen(db, q); q
      else e.run.value;
      OneEnded(db, e, r);
    }
  }

  lemma OneEnded(db: Db, e: Entry, r: RunId)
    requires PtyUnique(db) && Delivered(db, e).1.New?
    requires if exists q :: HasPty(db, q, e.pty) && IsOpen(db, q) then HasPty(db, r, e.pty) && IsOpen(db, r)
             else e.run == Some(r)
    ensures |EndedRuns(Delivered(db, e).0)| == |EndedRuns(db)| + 1
  {
    var d := Delivered(db, e).0;
    DeliveredKeys(db, e);
    assert r in db.runs && r !in EndedRuns(db);
    hide Delivered;
    forall q | q in db.runs ensures q in EndedRuns(d) <==> q in EndedRuns(db) || q == r {
      EndsOnly(db, e, r, q);
    }
    assert EndedRuns(d) == EndedRuns(db) + {r};
  }

  lemma EndsOnly(db: Db, e: Entry, r: RunId, q: RunId)
    requires PtyUnique(db) && Delivered(db, e).1.New? && q in db.runs
    requires if exists q :: HasPty(db, q, e.pty) && IsOpen(db, q) then HasPty(db, r, e.pty) && IsOpen(db, r)
             else e.run == Some(r)
    ensures q in Delivered(db, e).0.runs
    ensures Delivered(db, e).0.runs[q].end.Some? <==> db.runs[q].end.Some? || q == r
  {
    RecordedRow(db, e.pty, e.code, e.at, q);
    if RecordedExit(db, e.pty, e.code, e.at, Spool).1.NoRun? {
      AdoptedRow(db, e, q);
    } else {
      assert HasPty(db, q, e.pty) && q != r ==> !HasPty(db, r, e.pty);
    }
  }

  /** The report accounts for every file, and `imported` for every run that ended. */
  lemma {:induction false} ReportAccounts(db: Db, files: seq<SpoolFile>)
    requires PtyUnique(db)
    ensures var (d, report) := Drained(db, files);
            && report.imported + report.duplicates + report.unmatched + report.unreadable == |files|
            && |EndedRuns(d)| == |EndedRuns(db)| + report.imported
    decreases |files|
  {
    if files != [] {
      var n := |files| - 1;
      ReportAccounts(db, files[..n]);
      if files[n].Readable? {
        DeliveredEnds(Drained(db, files[..n]).0, files[n].entry);
      }
    }
  }

  /** What `record_exit` and the adoption after it answer, by who has the PTY. */
  lemma DeliveredAnswers(db: Db, e: Entry)
    requires PtyUnique(db)
    ensures var recorded := Delivered(db, e).1;
            && (recorded.Duplicate? <==> (exists q :: HasPty(db, q, e.pty)) && !exists q :: HasPty(db, q, e.pty) && IsOpen(db, q))
            && (recorded.NoRun? <==> (forall q :: !HasPty(db, q, e.pty)) && !(e.run.Some? && IsWaiting(db, e.run.value)))
  {
    if r: RunId :| HasPty(db, r, e.pty) {
      RecordedRow(db, e.pty, e.code, e.at, r);
    } else if e.run.Some? && e.run.value in db.runs {
      AdoptedRow(db, e, e.run.value);
    }
  }

  /** The answer that the file at place `i` gets. */
  ghost function AnswerAt(db: Db, files: seq<SpoolFile>, i: nat): Recorded
    requires PtyUnique(db) && i < |files| && files[i].Readable?
  {
    Delivered(Drained(db, files[..i]).0, files[i].entry).1
  }

  ghost function Answered(db: Db, files: seq<SpoolFile>, answer: Recorded): set<nat>
    requires PtyUnique(db)
  {
    set i | 0 <= i < |files| && files[i].Readable? && AnswerAt(db, files, i) == answer
  }

  ghost function Unread(files: seq<SpoolFile>): set<nat> {
    set i | 0 <= i < |files| && files[i].Unreadable?
  }

  lemma AnswerStays(db: Db, files: seq<SpoolFile>, i: nat)
    requires PtyUnique(db) && i < |files| - 1 && files[i].Readable?
    ensures AnswerAt(db, files[..|files| - 1], i) == AnswerAt(db, files, i)
  {
    hide Delivered, Drained;
    assert files[..|files| - 1][..i] == files[..i];
  }

  lemma OneMoreAnswered(db: Db, files: seq<SpoolFile>, answer: Recorded)
    requires PtyUnique(db) && files != []
    ensures var n := |files| - 1;
            |Answered(db, files, answer)| == |Answered(db, files[..n], answer)|
              + if files[n].Readable? && AnswerAt(db, files, n) == answer then 1 else 0
  {
    hide AnswerAt, PtyUnique;
    var n := |files| - 1;
    forall i: nat | i < n && files[i].Readable? ensures AnswerAt(db, files[..n], i) == AnswerAt(db, files, i) {
      AnswerStays(db, files, i);
    }
    var earlier := Answered(db, files[..n], answer);
    if files[n].Readable? && AnswerAt(db, files, n) == answer {
      assert Answered(db, files, answer) == earlier + {n};
    } else {
      assert Answered(db, files, answer) == earlier;
    }
  }

  lemma OneMoreUnread(files: seq<SpoolFile>)
    requires files != []
    ensures |Unread(files)| == |Unread(files[..|files| - 1])| + if files[|files| - 1].Unreadable? then 1 else 0
  {
    var n := |files| - 1;
    if files[n].Unreadable? {
      assert Unread(files) == Unread(files[..n]) + {n};
    } else {
      assert Unread(files) == Unread(files[..n]);
    }
  }

  /** Each of the report's counts is the number of files that get that answer, or cannot be read. */
  lemma {:induction false} ReportCounts(db: Db, files: seq<SpoolFile>)
    requires PtyUnique(db)
    ensures Drained(db, files).1 ==
            ImportReport(|Answered(db, files, New)|, |Answered(db, files, Duplicate)|, |Answered(db, files, NoRun)|, |Unread(files)|)
    decreases |files|
  {
    if files == [] {
      assert Unread([]) == {};
    } else {
      hide Delivered, Answered, Unread, PtyUnique;
      ReportCounts(db, files[..|files| - 1]);
      OneMoreAnswered(db, files, New);
      OneMoreAnswered(db, files, Duplicate);
      OneMoreAnswered(db, files, NoRun);
      OneMoreUnread(files);
    }
  }

  // ---- The events beside the rows ----

  ghost predicate Says(db: Db, k: Key, x: ExitEvent) {
    && x.run in db.runs && db.runs[x.run].end.Some?
    && db.runs[x.run].end.value.code == x.code && db.runs[x.run].end.value.reason == x.reason
    && (k == ByRun(x.run) || (k.ByPty? && HasPty(db, x.run, k.pty)))
  }

  ghost predicate HasEvent(db: Db, r: RunId) {
    exists k :: k in db.exits && db.exits[k].run == r
  }

  /** Every run that ended has one event, which says what its row says, and no open run has any. */
  ghost predicate Books(db: Db) {
    && PtyUnique(db)
    && (forall k :: k in db.exits ==> Says(db, k, db.exits[k]))
    && (forall k1, k2 :: k1 in db.exits && k2 in db.exits && db.exits[k1].run == db.exits[k2].run ==> k1 == k2)
    && (forall r :: r in db.runs && db.runs[r].end.Some? && !db.runs[r].end.value.reason.SpawnFailed? ==> HasEvent(db, r))
  }

  lemma OpenKeyIsFresh(db: Db, r: RunId)
    requires Books(db) && IsOpen(db, r)
    ensures ExitKey(r, db.runs[r]) !in db.exits
  {
    var k := ExitKey(r, db.runs[r]);
    assert k in db.exits ==> Says(db, k, db.exits[k]);
  }

  /** Ending an open run and writing its event in one keeps the books. */
  lemma BooksEnded(db: Db, r: RunId, end: End, x: ExitEvent)
    requires Books(db) && IsOpen(db, r) && x.run == r && x.code == end.code && x.reason == end.reason
    ensures Books(AddExit(EndRun(db, r, end), ExitKey(r, db.runs[r]), x))
  {
    var key := ExitKey(r, db.runs[r]);
    var d := AddExit(EndRun(db, r, end), key, x);
    OpenKeyIsFresh(db, r);
    forall k | k in d.exits ensures Says(d, k, d.exits[k]) {
      assert k == key || Says(db, k, db.exits[k]);
    }
    forall q | q in d.runs && d.runs[q].end.Some? && !d.runs[q].end.value.reason.SpawnFailed? ensures HasEvent(d, q) {
      if q == r {
        assert d.exits[key].run == r;
      } else {
        var k :| k in db.exits && db.exits[k].run == q;
        assert k in d.exits;
      }
    }
  }

  lemma BooksLinked(db: Db, r: RunId, p: Pty)
    requires Books(db) && IsOpen(db, r) && db.runs[r].pty.None? && RunSpawned(db, r, p).Some?
    ensures Books(RunSpawned(db, r, p).value)
  {
    var d := RunSpawned(db, r, p).value;
    forall k | k in d.exits ensures Says(d, k, d.exits[k]) {
      assert Says(db, k, db.exits[k]);
    }
    forall q | q in d.runs && d.runs[q].end.Some? && !d.runs[q].end.value.reason.SpawnFailed? ensures HasEvent(d, q) {
      var k :| k in db.exits && db.exits[k].run == q;
      assert k in d.exits;
    }
  }

  lemma BooksRecorded(db: Db, p: Pty, code: int, at: int, via: Via)
    requires Books(db)
    ensures Books(RecordedExit(db, p, code, at, via).0)
  {
    var end := End(Some(code), Exited, at);
    var run := EndRunByPty(db, p, end).1;
    if run.Some? {
      BooksEnded(db, run.value, end, ExitEvent(run.value, Some(code), Exited, via, at));
    }
  }

  lemma BooksDelivered(db: Db, e: Entry)
    requires Books(db)
    ensures Books(Delivered(db, e).0)
  {
    BooksRecorded(db, e.pty, e.code, e.at, Spool);
    var (d, recorded) := RecordedExit(db, e.pty, e.code, e.at, Spool);
    if recorded.NoRun? && e.run.Some? && IsOpen(d, e.run.value) && d.runs[e.run.value].pty.None? && RunSpawned(d, e.run.value, e.pty).Some? {
      BooksLinked(d, e.run.value, e.pty);
      BooksRecorded(RunSpawned(d, e.run.value, e.pty).value, e.pty, e.code, e.at, Spool);
    }
  }

  lemma {:induction false} BooksDrained(db: Db, files: seq<SpoolFile>)
    requires Books(db)
    ensures Books(Drained(db, files).0)
    decreases |files|
  {
    if files != [] {
      var n := |files| - 1;
      BooksDrained(db, files[..n]);
      if files[n].Readable? {
        BooksDelivered(Drained(db, files[..n]).0, files[n].entry);
      }
    }
  }

  lemma BooksReconciled(db: Db, after: Db, alive: set<Pty>, endedAt: int, now: int)
    requires Books(db) && IsReconciled(db, after, alive, endedAt, now)
    ensures Books(after)
  {
    var gone := GoneRuns(db, alive, endedAt - PENDING_GRACE);
    forall r | r in gone ensures ExitKey(r, db.runs[r]) !in db.exits && after.exits[ExitKey(r, db.runs[r])] == Interruption(r, now) {
      OpenKeyIsFresh(db, r);
    }
    forall k | k in after.exits
      ensures Says(after, k, after.exits[k])
      ensures k in db.exits || exists r :: r in gone && k == ExitKey(r, db.runs[r])
    {
      if k in db.exits {
        assert Says(db, k, db.exits[k]);
      } else {
        assert k in KeysOf(db, gone);
      }
    }
    forall r | r in after.runs && after.runs[r].end.Some? && !after.runs[r].end.value.reason.SpawnFailed? ensures HasEvent(after, r) {
      if r in gone {
        assert after.exits[ExitKey(r, db.runs[r])].run == r;
      } else {
        var k :| k in db.exits && db.exits[k].run == r;
        assert k in after.exits;
      }
    }
    OneEventEach(db, after, gone, now);
  }

  lemma OneEventEach(db: Db, after: Db, gone: set<RunId>, now: int)
    requires Books(db) && gone <= db.runs.Keys && Written(db, after.exits, gone, now)
    requires forall r :: r in gone ==> IsOpen(db, r)
    ensures forall k1, k2 :: k1 in after.exits && k2 in after.exits && after.exits[k1].run == after.exits[k2].run ==> k1 == k2
  {
    forall k | k in after.exits
      ensures if k in db.exits then after.exits[k].run !in gone
              else after.exits[k].run in gone && k == ExitKey(after.exits[k].run, db.runs[after.exits[k].run])
    {
      if k in db.exits {
        assert Says(db, k, db.exits[k]);
      } else {
        assert k in KeysOf(db, gone);
      }
    }
  }

  /** What startup writes of a run that it ends: the entry's exit by the spool, or its own interruption. */
  ghost predicate IsReported(db: Db, r: RunId, now: int)
    requires r in db.runs && db.runs[r].end.Some?
  {
    var end := db.runs[r].end.value;
    exists k :: k in db.exits && db.exits[k] ==
      if end.reason.Exited? then ExitEvent(r, end.code, Exited, Spool, end.at) else ExitEvent(r, None, Interrupted, Reconcile, now)
  }

  lemma DeliveredReported(db: Db, e: Entry, r: RunId, now: int)
    requires Books(db) && IsOpen(db, r) && r in Delivered(db, e).0.runs && Delivered(db, e).0.runs[r].end.Some?
    ensures IsReported(Delivered(db, e).0, r, now) && Delivered(db, e).0.runs[r].end.value.reason.Exited?
  {
    var d := Delivered(db, e).0;
    var (first, recorded) := RecordedExit(db, e.pty, e.code, e.at, Spool);
    var x := ExitEvent(r, Some(e.code), Exited, Spool, e.at);
    DeliveredRow(db, e, r);
    OpenKeyIsFresh(db, r);
    if recorded.NoRun? {
      BooksLinked(db, r, e.pty);
      OpenKeyIsFresh(RunSpawned(db, r, e.pty).value, r);
      assert d.exits[ByPty(e.pty)] == x;
    } else {
      assert d.exits[ByPty(e.pty)] == x;
    }
  }

  lemma DeliveredKeepsReports(db: Db, e: Entry, r: RunId, now: int)
    requires PtyUnique(db) && r in db.runs && db.runs[r].end.Some? && IsReported(db, r, now)
    ensures r in Delivered(db, e).0.runs && Delivered(db, e).0.runs[r] == db.runs[r] && IsReported(Delivered(db, e).0, r, now)
  {
    DeliveredRow(db, e, r);
    var k :| k in db.exits && db.exits[k] ==
      (var end := db.runs[r].end.value;
       if end.reason.Exited? then ExitEvent(r, end.code, Exited, Spool, end.at) else ExitEvent(r, None, Interrupted, Reconcile, now));
    assert k in Delivered(db, e).0.exits && Delivered(db, e).0.exits[k] == db.exits[k];
  }

  lemma {:induction false} DrainedReported(db: Db, files: seq<SpoolFile>, r: RunId, now: int)
    requires Books(db) && IsOpen(db, r)
    ensures r in Drained(db, files).0.runs
    ensures Drained(db, files).0.runs[r].end.Some? ==>
              IsReported(Drained(db, files).0, r, now) && Drained(db, files).0.runs[r].end.value.reason.Exited?
    decreases |files|
  {
    hide Books, IsReported;
    BooksAreUnique(db);
    if files != [] {
      var n := |files| - 1;
      var before := Drained(db, files[..n]).0;
      BooksDrained(db, files[..n]);
      DrainedReported(db, files[..n], r, now);
      DrainedKeys(db, files);
      BooksAreUnique(before);
      if files[n].Readable? {
        if before.runs[r].end.Some? {
          DeliveredKeepsReports(before, files[n].entry, r, now);
        } else if Delivered(before, files[n].entry).0.runs[r].end.Some? {
          DeliveredReported(before, files[n].entry, r, now);
        }
      }
    }
  }

  lemma BooksAreUnique(db: Db)
    requires Books(db)
    ensures PtyUnique(db)
  {
  }

  /** For every run that startup ends it writes one event: the exit with the entry's time, or the interruption with its own. */
  lemma StartupReports(db: Db, files: seq<SpoolFile>, after: Db, alive: set<Pty>, endedAt: int, now: int, r: RunId)
    requires Books(db) && IsStarted(db, files, after, alive, endedAt, now) && IsOpen(db, r)
    requires r in after.runs && after.runs[r].end.Some?
    ensures IsReported(after, r, now)
  {
    var d := Drained(db, files).0;
    BooksDrained(db, files);
    DrainedReported(db, files, r, now);
    if d.runs[r].end.Some? {
      var end := d.runs[r].end.value;
      var k :| k in d.exits && d.exits[k] == ExitEvent(r, end.code, Exited, Spool, end.at);
      assert after.exits[k] == d.exits[k];
    } else {
      OpenKeyIsFresh(d, r);
      assert after.exits[ExitKey(r, d.runs[r])] == ExitEvent(r, None, Interrupted, Reconcile, now);
    }
  }

  /** Startup keeps the books: one event for each run it ends, agreeing with the row. */
  lemma StartupKeepsBooks(db: Db, files: seq<SpoolFile>, after: Db, alive: set<Pty>, endedAt: int, now: int)
    requires Books(db) && IsStarted(db, files, after, alive, endedAt, now)
    ensures Books(after)
  {
    BooksDrained(db, files);
    BooksReconciled(Drained(db, files).0, after, alive, endedAt, now);
  }
}
