/**
 Launchers, the daemon, draining clients, live listeners and reconcilers, interleaved at every
 call they make on the store, the host or the spool. Any of these calls may fail, and the answer to
 a spawn may be lost although the host goes on to start the process. A schedule is any sequence of
 steps; a step that its thread is not ready for changes nothing, so every sequence is a schedule.
 */
module ExitProtocol {
  import opened ActivityStore
  import opened Options

  /** A process in the host. `kept`: its exit has been put in the spool, or refused by it. */
  datatype Proc = Proc(run: Option<RunId>, code: Option<int>, kept: bool)

  datatype Thread = Launcher(run: RunId) | Client(id: nat)

  /** What a thread goes back to once `record_exit` returns. */
  datatype Then = Return | Drain(entry: Entry, adopted: bool)

  /** Where a thread stands: the call it makes next. */
  datatype Pc =
    | Idle
    | Begun                                                        // host.spawn
    | Refused                                                      // end_run
    | Started(pty: Pty)                                            // run_spawned
    | Linked(pty: Pty)                                             // host.info
    | Ending(pty: Pty, code: int, at: int, via: Via, next: Then)   // end_run_by_pty
    | Writing(key: Key, exit: ExitEvent, next: Then)               // add_event
    | Asking(pty: Pty, next: Then)                                 // run_by_pty
    | Looking(entry: Entry)                                        // store.run
    | Attaching(entry: Entry)                                      // run_spawned
    | Removing(entry: Entry)                                       // remove_file
    | Discarding(pty: Pty)                                         // remove_file, of what could not be read
    | Listed(alive: set<Pty>)                                      // end_interrupted_runs
    | Closing(gone: map<RunId, Key>)                               // add_event, one by one
    | Finished
    | Dead

  /**
   `unanswered`: the runs whose spawn the host may still carry out, although nobody waits for its
   answer. `forgotten`: the sessions the host was told to remove.
   */
  datatype Sys = Sys(
    db: Db, procs: map<Pty, Proc>, unanswered: set<RunId>, forgotten: set<Pty>, spool: map<Pty, Entry>,
    threads: map<Thread, Pc>)

  const START := Sys(Db(map[], map[]), map[], {}, {}, map[], map[])

  /** `ok` is false where the call fails. */
  datatype Step =
    | Begin(run: RunId, now: int, ok: bool)
    | Spawn(run: RunId, pty: Pty, ok: bool)
    | SpawnUnanswered(run: RunId)
    | StartLate(run: RunId, pty: Pty)
    | SpawnUnrecorded(pty: Pty)
    | EndRefused(run: RunId, now: int, ok: bool)
    | Link(run: RunId, ok: bool)
    | AskHost(run: RunId, now: int, ok: bool)
    | ProcessExits(pty: Pty, code: int)
    | Forget(pty: Pty)
    | Keep(pty: Pty, at: int, labelled: bool, ok: bool)
    | Deliver(client: nat, pty: Pty, via: Via, now: int)
    | Take(client: nat, pty: Pty)
    | TakeUnread(client: nat, pty: Pty)
    | EndByPty(thread: Thread, ok: bool)
    | Write(thread: Thread, ok: bool)
    | AskRun(thread: Thread, ok: bool)
    | LookUp(thread: Thread, ok: bool)
    | Attach(thread: Thread, ok: bool)
    | Remove(thread: Thread, ok: bool)
    | ListAlive(client: nat, ok: bool)
    | EndGone(client: nat, now: int, ok: bool)
    | WriteGone(client: nat, run: RunId, now: int, ok: bool)
    | Crash(thread: Thread)

  function At(s: Sys, t: Thread): Pc {
    if t in s.threads then s.threads[t] else Idle
  }

  function Goto(s: Sys, t: Thread, pc: Pc): Sys {
    s.(threads := s.threads[t := pc])
  }

  /** `record_exit` has returned; `noRun` when it found no run. */
  function Resume(t: Thread, next: Then, noRun: bool): Pc {
    match next
    case Return => if t.Launcher? then Finished else Idle
    case Drain(e, adopted) =>
      if noRun && !adopted && e.run.Some? then Looking(e) else Removing(e)
  }

  function Next(s: Sys, step: Step): (u: Sys)
    requires PtyUnique(s.db)
    ensures PtyUnique(u.db)
  {
    match step
    case Begin(r, now, ok) => DoBegin(s, r, now, ok)
    case Spawn(r, p, ok) => DoSpawn(s, r, p, ok)
    case SpawnUnanswered(r) => if At(s, Launcher(r)).Begun? then Goto(Unanswer(s, r), Launcher(r), Refused) else s
    case StartLate(r, p) => DoStartLate(s, r, p)
    case SpawnUnrecorded(p) => if p in s.procs then s else s.(procs := s.procs[p := Proc(None, None, false)])
    case EndRefused(r, now, ok) => DoEndRefused(s, r, now, ok)
    case Link(r, ok) => DoLink(s, r, ok)
    case AskHost(r, now, ok) => DoAskHost(s, r, now, ok)
    case ProcessExits(p, code) => DoProcessExits(s, p, code)
    case Forget(p) => if p in s.procs then s.(forgotten := s.forgotten + {p}) else s
    case Keep(p, at, labelled, ok) => DoKeep(s, p, at, labelled, ok)
    case Deliver(c, p, via, now) => DoDeliver(s, c, p, via, now)
    case Take(c, p) => DoTake(s, c, p)
    case TakeUnread(c, p) => if At(s, Client(c)).Idle? && p in s.spool then Goto(s, Client(c), Discarding(p)) else s
    case EndByPty(t, ok) => DoEndByPty(s, t, ok)
    case Write(t, ok) => DoWrite(s, t, ok)
    case AskRun(t, ok) => DoAskRun(s, t, ok)
    case LookUp(t, ok) => DoLookUp(s, t, ok)
    case Attach(t, ok) => DoAttach(s, t, ok)
    case Remove(t, ok) => DoRemove(s, t, ok)
    case ListAlive(c, ok) => if At(s, Client(c)).Idle? then Goto(s, Client(c), Listed(Listing(s, ok))) else s
    case EndGone(c, now, ok) => DoEndGone(s, c, now, ok)
    case WriteGone(c, r, now, ok) => DoWriteGone(s, c, r, now, ok)
    case Crash(t) => Goto(if t.Launcher? && At(s, t).Begun? then Unanswer(s, t.run) else s, t, Dead)
  }

  /** Where a schedule leads. */
  function After(s: Sys, steps: seq<Step>): (u: Sys)
    requires PtyUnique(s.db)
    ensures PtyUnique(u.db)
    decreases |steps|
  {
    if steps == [] then s else Next(After(s, steps[..|steps| - 1]), steps[|steps| - 1])
  }

  // ---- The launcher: `start_recorded` ----

  function DoBegin(s: Sys, r: RunId, now: int, ok: bool): Sys {
    if At(s, Launcher(r)).Idle? && r !in s.db.runs && ok then
      Goto(s.(db := AddRun(s.db, r, now)), Launcher(r), Begun)
    else
      s
  }

  function DoSpawn(s: Sys, r: RunId, p: Pty, ok: bool): Sys {
    if !At(s, Launcher(r)).Begun? || p in s.procs then s
    else if !ok then Goto(s, Launcher(r), Refused)
    else Goto(s.(procs := s.procs[p := Proc(Some(r), None, false)]), Launcher(r), Started(p))
  }

  /** The request is out, and its answer goes to nobody: late, or lost with the connection or the launcher. */
  function Unanswer(s: Sys, r: RunId): Sys {
    s.(unanswered := s.unanswered + {r})
  }

  function DoStartLate(s: Sys, r: RunId, p: Pty): Sys {
    if r in s.unanswered && p !in s.procs then
      s.(procs := s.procs[p := Proc(Some(r), None, false)], unanswered := s.unanswered - {r})
    else
      s
  }

  function DoEndRefused(s: Sys, r: RunId, now: int, ok: bool): Sys {
    if !At(s, Launcher(r)).Refused? then s
    else
      var db := if ok then EndRun(s.db, r, End(None, SpawnFailed, now)) else s.db;
      Goto(s.(db := db), Launcher(r), Finished)
  }

  function DoLink(s: Sys, r: RunId, ok: bool): Sys
    requires PtyUnique(s.db)
  {
    match At(s, Launcher(r))
    case Started(p) =>
      var linked := RunSpawned(s.db, r, p);
      var db := if ok && linked.Some? then linked.value else s.db;
      Goto(s.(db := db), Launcher(r), Linked(p))
    case _ => s
  }

  /** A session the host has forgotten is an error like any other. */
  function DoAskHost(s: Sys, r: RunId, now: int, ok: bool): Sys {
    match At(s, Launcher(r))
    case Linked(p) =>
      if ok && Knows(s, p) && s.procs[p].code.Some? then
        Goto(s, Launcher(r), Ending(p, s.procs[p].code.value, now, Settle, Return))
      else
        Goto(s, Launcher(r), Finished)
    case _ => s
  }

  // ---- The daemon ----

  predicate Knows(s: Sys, p: Pty) {
    p in s.procs && p !in s.forgotten
  }

  /** `host.list`: every session, exited ones too. A call that fails answers with none. */
  function Listing(s: Sys, ok: bool): set<Pty> {
    if ok then s.procs.Keys - s.forgotten else {}
  }

  function DoProcessExits(s: Sys, p: Pty, code: int): Sys {
    if p in s.procs && s.procs[p].code.None? then
      s.(procs := s.procs[p := s.procs[p].(code := Some(code))])
    else
      s
  }

  function DoKeep(s: Sys, p: Pty, at: int, labelled: bool, ok: bool): Sys {
    if p !in s.procs || s.procs[p].code.None? || s.procs[p].kept then s
    else
      var proc := s.procs[p];
      var entry := Entry(p, if labelled && Knows(s, p) then proc.run else None, proc.code.value, at);
      s.(procs := s.procs[p := proc.(kept := true)], spool := if ok then s.spool[p := entry] else s.spool)
  }

  // ---- A client: the live handler, a second settle, and `import_spool` ----

  function DoDeliver(s: Sys, c: nat, p: Pty, via: Via, now: int): Sys {
    if && At(s, Client(c)).Idle? && p in s.procs && s.procs[p].code.Some?
       && ((via.Settle? && Knows(s, p)) || (via.Live? && s.procs[p].kept))
    then
      Goto(s, Client(c), Ending(p, s.procs[p].code.value, now, via, Return))
    else
      s
  }

  function DoTake(s: Sys, c: nat, p: Pty): Sys {
    if At(s, Client(c)).Idle? && p in s.spool then
      var e := s.spool[p];
      Goto(s, Client(c), Ending(e.pty, e.code, e.at, Spool, Drain(e, false)))
    else
      s
  }

  function DoEndByPty(s: Sys, t: Thread, ok: bool): Sys
    requires PtyUnique(s.db)
  {
    match At(s, t)
    case Ending(p, code, at, via, next) =>
      if !ok then Goto(s, t, Resume(t, next, true))
      else
        var (db, ended) := EndRunByPty(s.db, p, End(Some(code), Exited, at));
        if ended.None? then Goto(s, t, Asking(p, next))
        else
          var exit := ExitEvent(ended.value, Some(code), Exited, via, at);
          Goto(s.(db := db), t, Writing(ExitKey(ended.value, s.db.runs[ended.value]), exit, next))
    case _ => s
  }

  function DoWrite(s: Sys, t: Thread, ok: bool): Sys {
    match At(s, t)
    case Writing(key, exit, next) =>
      var db := if ok then AddExit(s.db, key, exit) else s.db;
      Goto(s.(db := db), t, Resume(t, next, false))
    case _ => s
  }

  function DoAskRun(s: Sys, t: Thread, ok: bool): Sys
    requires PtyUnique(s.db)
  {
    match At(s, t)
    case Asking(p, next) => Goto(s, t, Resume(t, next, !ok || RunByPty(s.db, p).None?))
    case _ => s
  }

  function DoLookUp(s: Sys, t: Thread, ok: bool): Sys {
    match At(s, t)
    case Looking(e) =>
      if e.run.Some? && ok && IsOpen(s.db, e.run.value) && s.db.runs[e.run.value].pty.None? then
        Goto(s, t, Attaching(e))
      else
        Goto(s, t, Removing(e))
    case _ => s
  }

  function DoAttach(s: Sys, t: Thread, ok: bool): Sys
    requires PtyUnique(s.db)
  {
    match At(s, t)
    case Attaching(e) =>
      var linked := if e.run.Some? then RunSpawned(s.db, e.run.value, e.pty) else None;
      if ok && linked.Some? then
        Goto(s.(db := linked.value), t, Ending(e.pty, e.code, e.at, Spool, Drain(e, true)))
      else
        Goto(s, t, Removing(e))
    case _ => s
  }

  function DoRemove(s: Sys, t: Thread, ok: bool): Sys {
    match At(s, t)
    case Removing(e) => Goto(s.(spool := if ok then s.spool - {e.pty} else s.spool), t, Idle)
    case Discarding(p) => Goto(s.(spool := if ok then s.spool - {p} else s.spool), t, Idle)
    case _ => s
  }

  // ---- `end_interrupted`, with the list of sessions read earlier ----

  function DoEndGone(s: Sys, c: nat, now: int, ok: bool): Sys {
    match At(s, Client(c))
    case Listed(alive) =>
      if !ok then Goto(s, Client(c), Idle)
      else
        var gone := GoneRuns(s.db, alive, now - PENDING_GRACE);
        var keys := map r | r in gone :: ExitKey(r, s.db.runs[r]);
        Goto(s.(db := EndInterruptedRuns(s.db, gone, now)), Client(c), Closing(keys))
    case _ => s
  }

  function DoWriteGone(s: Sys, c: nat, r: RunId, now: int, ok: bool): Sys {
    match At(s, Client(c))
    case Closing(gone) =>
      if r in gone then
        var exit := ExitEvent(r, None, Interrupted, Reconcile, now);
        var db := if ok then AddExit(s.db, gone[r], exit) else s.db;
        Goto(s.(db := db), Client(c), Closing(gone - {r}))
      else if gone == map[] then Goto(s, Client(c), Idle)
      else s
    case _ => s
  }
}
