/**
 The run table and the `process.exited` rows of the activity database, as values, with the
 store operations that touch them. An operation that the database may refuse (`attempt` in the
 source) is refused by its caller: the functions here say what a call that goes through does.
 */
module ActivityStore {
  import opened Options

  type RunId = nat
  type Pty = nat

  datatype Reason = Exited | Interrupted | SpawnFailed

  datatype Via = Live | Settle | Spool | Reconcile

  datatype End = End(code: Option<int>, reason: Reason, at: int)

  /** A row of `agent_runs`: written before the spawn, linked to its PTY afterwards. */
  datatype Run = Run(pty: Option<Pty>, startedAt: int, end: Option<End>)

  /** The source key of a `process.exited` event. */
  datatype Key = ByPty(pty: Pty) | ByRun(run: RunId)

  datatype ExitEvent = ExitEvent(run: RunId, code: Option<int>, reason: Reason, via: Via, at: int)

  /** One exit in the daemon's spool. `run`: the run its label names. */
  datatype Entry = Entry(pty: Pty, run: Option<RunId>, code: int, at: int)

  /** `PENDING_GRACE_MS`. */
  const PENDING_GRACE := 60_000

  datatype Db = Db(runs: map<RunId, Run>, exits: map<Key, ExitEvent>)

  /** `pty_session_id` is UNIQUE. */
  ghost predicate PtyUnique(db: Db) {
    forall r1, r2 ::
      r1 in db.runs && r2 in db.runs && db.runs[r1].pty.Some? && db.runs[r1].pty == db.runs[r2].pty
      ==> r1 == r2
  }

  predicate IsOpen(db: Db, r: RunId) {
    r in db.runs && db.runs[r].end.None?
  }

  predicate HasPty(db: Db, r: RunId, p: Pty) {
    r in db.runs && db.runs[r].pty == Some(p)
  }

  /** Ended as a run that was spawned. */
  predicate HasEnded(db: Db, r: RunId) {
    r in db.runs && db.runs[r].end.Some? && !db.runs[r].end.value.reason.SpawnFailed?
  }

  /** Ended because its spawn was taken to have failed. */
  predicate IsRefused(db: Db, r: RunId) {
    r in db.runs && db.runs[r].end.Some? && db.runs[r].end.value.reason.SpawnFailed?
  }

  /** `run_by_pty`. */
  function RunByPty(db: Db, p: Pty): (found: Option<RunId>)
    requires PtyUnique(db)
    ensures found.Some? ==> HasPty(db, found.value, p)
    ensures found.None? ==> forall r :: !HasPty(db, r, p)
  {
    if exists r :: r in db.runs && HasPty(db, r, p) then
      var r :| r in db.runs && HasPty(db, r, p);
      Some(r)
    else
      None
  }

  function AddRun(db: Db, r: RunId, now: int): Db {
    db.(runs := db.runs[r := Run(None, now, None)])
  }

  /** `run_spawned`: refused when another run has the PTY, nothing to do for an unknown run. */
  function RunSpawned(db: Db, r: RunId, p: Pty): (after: Option<Db>)
    requires PtyUnique(db)
    ensures after.Some? ==> PtyUnique(after.value)
    ensures after.None? <==> exists other :: other != r && HasPty(db, other, p) && r in db.runs
  {
    if r !in db.runs then
      Some(db)
    else if exists other :: other in db.runs && other != r && HasPty(db, other, p) then
      None
    else
      Some(db.(runs := db.runs[r := db.runs[r].(pty := Some(p))]))
  }

  /** `end_run`: ends an open run and leaves any other alone. */
  function EndRun(db: Db, r: RunId, end: End): (after: Db)
    ensures PtyUnique(db) ==> PtyUnique(after)
  {
    if IsOpen(db, r) then db.(runs := db.runs[r := db.runs[r].(end := Some(end))]) else db
  }

  /** `end_run_by_pty`: ends the open run behind a PTY and says which it was. */
  function EndRunByPty(db: Db, p: Pty, end: End): (res: (Db, Option<RunId>))
    requires PtyUnique(db)
    ensures PtyUnique(res.0)
    ensures res.1.Some? <==> exists r :: HasPty(db, r, p) && IsOpen(db, r)
    ensures res.1.Some? ==> HasPty(db, res.1.value, p) && IsOpen(db, res.1.value)
    ensures res.0 == if res.1.Some? then EndRun(db, res.1.value, end) else db
  {
    var found := RunByPty(db, p);
    if found.Some? && IsOpen(db, found.value) then
      (EndRun(db, found.value, end), found)
    else
      (db, None)
  }

  /** What `end_interrupted_runs` takes: open, and unlinked too long or linked to no live PTY. */
  predicate IsGone(run: Run, alive: set<Pty>, cutoff: int) {
    && run.end.None?
    && match run.pty
       case None => run.startedAt < cutoff
       case Some(p) => p !in alive
  }

  function GoneRuns(db: Db, alive: set<Pty>, cutoff: int): set<RunId> {
    set r | r in db.runs && IsGone(db.runs[r], alive, cutoff)
  }

  /** `end_interrupted_runs`, ending every run in `gone` at `now`. */
  function EndInterruptedRuns(db: Db, gone: set<RunId>, now: int): (after: Db)
    ensures PtyUnique(db) ==> PtyUnique(after)
    ensures after.runs.Keys == db.runs.Keys && after.exits == db.exits
  {
    db.(runs := map r | r in db.runs ::
      if r in gone then db.runs[r].(end := Some(End(None, Interrupted, now))) else db.runs[r])
  }

  function ExitKey(r: RunId, run: Run): Key {
    match run.pty
    case Some(p) => ByPty(p)
    case None => ByRun(r)
  }

  /** `add_event` for a `process.exited` row: a key seen before is ignored. */
  function AddExit(db: Db, key: Key, exit: ExitEvent): Db {
    if key in db.exits then db else db.(exits := db.exits[key := exit])
  }
}
