/**
 What holds in every schedule, failures and crashes included: a run is ended once and stays as it
 ended, it has at most one `process.exited` event, that event agrees with its row, and a run
 recorded as exited has its own process's real code.
 */
module ExitSafety {
  import opened ActivityStore
  import opened ExitProtocol
  import opened Options

  // ---- The invariant ----

  /** The event says what the row says. */
  ghost predicate Agrees(db: Db, x: ExitEvent) {
    && x.run in db.runs
    && db.runs[x.run].end.Some?
    && var end := db.runs[x.run].end.value;
       end.code == x.code && end.reason == x.reason && !x.reason.SpawnFailed?
       && (x.reason.Exited? ==> end.at == x.at)
  }

  /** The runs a thread has ended and still has to write the event of. */
  ghost function Pending(pc: Pc): set<RunId> {
    match pc
    case Writing(_, exit, _) => {exit.run}
    case Closing(gone) => gone.Keys
    case _ => {}
  }

  ghost predicate IsOf(s: Sys, p: Pty, r: RunId) {
    p in s.procs && s.procs[p].run == Some(r)
  }

  ghost predicate KeyOf(s: Sys, key: Key, r: RunId) {
    match key
    case ByPty(p) => IsOf(s, p, r)
    case ByRun(q) => q == r
  }

  ghost predicate EntryOk(s: Sys, e: Entry) {
    && e.pty in s.procs
    && s.procs[e.pty].kept
    && s.procs[e.pty].code == Some(e.code)
    && (e.run.None? || e.run == s.procs[e.pty].run)
  }

  ghost predicate ThenOk(s: Sys, t: Thread, p: Pty, next: Then) {
    match next
    case Return => true
    case Drain(e, adopted) => t.Client? && e.pty == p && EntryOk(s, e) && (adopted ==> e.run.Some?)
  }

  ghost predicate PcOk(s: Sys, t: Thread, pc: Pc) {
    match pc
    case Begun => t.Launcher? && t.run in s.db.runs
    case Refused => t.Launcher? && t.run in s.db.runs
    case Started(p) => t.Launcher? && IsOf(s, p, t.run)
    case Linked(p) => t.Launcher? && IsOf(s, p, t.run)
    case Ending(p, code, _, via, next) =>
      && p in s.procs && s.procs[p].code == Some(code) && ThenOk(s, t, p, next)
      && (t.Launcher? ==> IsOf(s, p, t.run))
      && !via.Reconcile?
    case Writing(key, exit, next) =>
      && Agrees(s.db, exit) && exit.reason.Exited? && KeyOf(s, key, exit.run)
      && exists p :: IsOf(s, p, exit.run) && ThenOk(s, t, p, next)
    case Asking(p, next) => p in s.procs && ThenOk(s, t, p, next)
    case Looking(e) => t.Client? && EntryOk(s, e) && e.run.Some?
    case Attaching(e) => t.Client? && EntryOk(s, e) && e.run.Some?
    case Removing(e) => t.Client? && EntryOk(s, e)
    case Discarding(p) => t.Client? && p in s.procs && s.procs[p].kept
    case Listed(_) => t.Client?
    case Closing(gone) =>
      && t.Client?
      && forall r :: r in gone ==>
           KeyOf(s, gone[r], r) && r in s.db.runs
           && s.db.runs[r].end.Some? && s.db.runs[r].end.value.code == None && s.db.runs[r].end.value.reason == Interrupted
    case _ => true
  }

  /** A run's PTY is the process it started, and a run starts one process, late or not. */
  ghost predicate Linkage(s: Sys) {
    && PtyUnique(s.db)
    && (forall r :: r in s.db.runs && s.db.runs[r].pty.Some? ==> IsOf(s, s.db.runs[r].pty.value, r))
    && (forall p, q :: p in s.procs && q in s.procs && s.procs[p].run.Some? && s.procs[p].run == s.procs[q].run ==> p == q)
    && (forall p :: p in s.procs && s.procs[p].run.Some? ==>
          && s.procs[p].run.value in s.db.runs
          && !Early(At(s, Launcher(s.procs[p].run.value))))
    && (forall r :: r in s.unanswered ==>
          && r in s.db.runs && !Early(At(s, Launcher(r)))
          && forall p :: p in s.procs ==> s.procs[p].run != Some(r))
  }

  /** The launcher has not asked for a process yet. */
  ghost predicate Early(pc: Pc) {
    pc.Idle? || pc.Begun?
  }

  ghost predicate Threads(s: Sys) {
    && (forall t :: t in s.threads ==> PcOk(s, t, s.threads[t]))
    && (forall p :: p in s.spool ==> s.spool[p].pty == p && EntryOk(s, s.spool[p]))
  }

  /** Every event agrees with its row, and no run has two. */
  ghost predicate Recorded(s: Sys) {
    && (forall k :: k in s.db.exits ==> Agrees(s.db, s.db.exits[k]) && KeyOf(s, k, s.db.exits[k].run))
    && (forall k1, k2 :: k1 in s.db.exits && k2 in s.db.exits && s.db.exits[k1].run == s.db.exits[k2].run ==> k1 == k2)
  }

  /** Whoever ended a run is the only one with its event left to write. */
  ghost predicate WrittenOnce(s: Sys) {
    && (forall t1, t2 :: t1 in s.threads && t2 in s.threads && t1 != t2 ==>
          Pending(s.threads[t1]) !! Pending(s.threads[t2]))
    && (forall t, k :: t in s.threads && k in s.db.exits ==> s.db.exits[k].run !in Pending(s.threads[t]))
  }

  /** A run recorded as exited has the code its process exited with. */
  ghost predicate Real(s: Sys) {
    forall r :: r in s.db.runs && s.db.runs[r].end.Some? && s.db.runs[r].end.value.reason.Exited? ==>
      exists p :: HasPty(s.db, r, p) && p in s.procs && s.procs[p].code.Some? && s.procs[p].code == s.db.runs[r].end.value.code
  }

  ghost predicate Safe(s: Sys) {
    Linkage(s) && Threads(s) && Recorded(s) && WrittenOnce(s) && Real(s)
  }

  // ---- What no step undoes ----

  /** From `s` to `u`, ended runs stay as they ended, links and events stay, and so do exits. */
  ghost predicate Later(s: Sys, u: Sys) {
    && (forall r :: r in s.db.runs ==>
          && r in u.db.runs
          && (s.db.runs[r].end.Some? ==> u.db.runs[r].end == s.db.runs[r].end)
          && (s.db.runs[r].pty.Some? ==> u.db.runs[r].pty == s.db.runs[r].pty))
    && (forall k :: k in s.db.exits ==> k in u.db.exits && u.db.exits[k] == s.db.exits[k])
    && (forall p :: p in s.procs ==>
          && p in u.procs
          && u.procs[p].run == s.procs[p].run
          && (s.procs[p].code.Some? ==> u.procs[p].code == s.procs[p].code)
          && (s.procs[p].kept ==> u.procs[p].kept))
  }

  lemma LaterTransitive(s: Sys, u: Sys, v: Sys)
    requires Later(s, u) && Later(u, v)
    ensures Later(s, v)
  {
  }

  lemma LaterSelf(s: Sys)
    ensures Later(s, s)
  {
  }

  lemma IsUnique(s: Sys)
    requires Safe(s)
    ensures PtyUnique(s.db)
  {
  }

  lemma SameLater(s: Sys, u: Sys)
    requires u.db == s.db && u.procs == s.procs
    ensures Later(s, u)
  {
  }

  lemma PcStays(s: Sys, u: Sys, t: Thread, pc: Pc)
    requires Later(s, u) && PcOk(s, t, pc)
    ensures PcOk(u, t, pc)
  {
    match pc
    case Writing(key, exit, next) =>
      var p :| IsOf(s, p, exit.run) && ThenOk(s, t, p, next);
      assert IsOf(u, p, exit.run) && ThenOk(u, t, p, next);
    case _ =>
  }

  /** Only thread `t` moved, and the spool gained no entry that is not in order. */
  ghost predicate Moved(s: Sys, u: Sys, t: Thread) {
    && t in u.threads
    && u.threads == s.threads[t := u.threads[t]]
    && forall p :: p in u.spool ==> p in s.spool && u.spool[p] == s.spool[p]
  }

  lemma ThreadsStay(s: Sys, u: Sys, t: Thread)
    requires Threads(s) && Later(s, u) && Moved(s, u, t) && PcOk(u, t, u.threads[t])
    ensures Threads(u)
  {
    forall t' | t' in u.threads ensures PcOk(u, t', u.threads[t']) {
      if t' != t {
        PcStays(s, u, t', s.threads[t']);
      }
    }
  }

  /** The links are as they were, and no launcher went back before its spawn. */
  ghost predicate SameLinks(s: Sys, u: Sys) {
    && u.db.runs.Keys == s.db.runs.Keys
    && (forall r :: r in s.db.runs ==> u.db.runs[r].pty == s.db.runs[r].pty)
    && u.procs.Keys == s.procs.Keys
    && (forall p :: p in s.procs ==> u.procs[p].run == s.procs[p].run)
    && (forall t :: t in u.threads && t.Launcher? && (t !in s.threads || u.threads[t] != s.threads[t]) ==>
          !Early(u.threads[t]))
    && s.threads.Keys <= u.threads.Keys
    && u.unanswered == s.unanswered
  }

  lemma LinkageStays(s: Sys, u: Sys)
    requires Linkage(s) && SameLinks(s, u)
    ensures Linkage(u)
  {
  }

  lemma RealStays(s: Sys, u: Sys)
    requires Real(s) && Later(s, u)
    requires forall r :: r in u.db.runs && u.db.runs[r].end.Some? && u.db.runs[r].end.value.reason.Exited? ==>
               r in s.db.runs && s.db.runs[r].end == u.db.runs[r].end
    ensures Real(u)
  {
    forall r | r in u.db.runs && u.db.runs[r].end.Some? && u.db.runs[r].end.value.reason.Exited?
      ensures exists p :: HasPty(u.db, r, p) && p in u.procs && u.procs[p].code.Some? && u.procs[p].code == u.db.runs[r].end.value.code
    {
      var p :| HasPty(s.db, r, p) && p in s.procs && s.procs[p].code.Some? && s.procs[p].code == s.db.runs[r].end.value.code;
      assert HasPty(u.db, r, p);
    }
  }

  /** Nothing was written and nobody has more to write. */
  lemma WritesStay(s: Sys, u: Sys, t: Thread)
    requires Recorded(s) && WrittenOnce(s) && Later(s, u) && Moved(s, u, t)
    requires u.db.exits == s.db.exits
    requires Pending(u.threads[t]) <= Pending(At(s, t))
    ensures Recorded(u) && WrittenOnce(u)
  {
    forall k | k in u.db.exits ensures KeyOf(u, k, u.db.exits[k].run) {
      assert KeyOf(s, k, s.db.exits[k].run);
    }
  }

  /** A step of one thread that ends no run as exited and writes no event. */
  lemma StepStays(s: Sys, u: Sys, t: Thread)
    requires Safe(s) && Later(s, u) && Moved(s, u, t) && PcOk(u, t, u.threads[t])
    requires Linkage(u)
    requires u.db.exits == s.db.exits && Pending(u.threads[t]) <= Pending(At(s, t))
    requires forall r :: r in u.db.runs && u.db.runs[r].end.Some? && u.db.runs[r].end.value.reason.Exited? ==>
               r in s.db.runs && s.db.runs[r].end == u.db.runs[r].end
    ensures Safe(u)
  {
    hide Linkage, Recorded, WrittenOnce, Real, Later, PcOk;
    ThreadsStay(s, u, t);
    RealStays(s, u);
    WritesStay(s, u, t);
  }

  /** A step of one thread that touches neither the database nor the processes. */
  lemma LocalStep(s: Sys, u: Sys, t: Thread)
    requires Safe(s) && Moved(s, u, t)
    requires u.db == s.db && u.procs == s.procs && u.unanswered == s.unanswered
    requires PcOk(s, t, u.threads[t]) && Pending(u.threads[t]) <= Pending(At(s, t))
    requires t.Launcher? ==> !Early(u.threads[t])
    ensures Safe(u) && Later(s, u)
  {
    hide Linkage, Recorded, WrittenOnce, Real, Later;
    SameLater(s, u);
    PcStays(s, u, t, u.threads[t]);
    LinkageStays(s, u);
    StepStays(s, u, t);
  }

  /** A step of one thread that ends the runs of `gone` otherwise than as exited. */
  lemma EndingStep(s: Sys, u: Sys, t: Thread, gone: set<RunId>)
    requires Safe(s) && Moved(s, u, t)
    requires u.procs == s.procs && u.unanswered == s.unanswered
    requires u.db.exits == s.db.exits && u.db.runs.Keys == s.db.runs.Keys
    requires forall r :: r in s.db.runs ==> u.db.runs[r].pty == s.db.runs[r].pty
    requires forall r :: r in s.db.runs && r !in gone ==> u.db.runs[r] == s.db.runs[r]
    requires forall r :: r in gone && r in s.db.runs ==> s.db.runs[r].end.None? && u.db.runs[r].end.Some?
    requires t.Launcher? ==> !Early(u.threads[t])
    ensures Linkage(u) && Later(s, u)
  {
    LinkageStays(s, u);
  }

  /** A step of one thread that links a run to its own process. */
  lemma LinkingStep(s: Sys, u: Sys, t: Thread, r: RunId, p: Pty)
    requires Linkage(s) && Moved(s, u, t) && IsOf(s, p, r)
    requires u.procs == s.procs && u.unanswered == s.unanswered && RunSpawned(s.db, r, p) == Some(u.db)
    requires t.Launcher? ==> !Early(u.threads[t])
    ensures Linkage(u) && Later(s, u)
  {
    var run := s.db.runs[r];
    assert u.db == s.db.(runs := s.db.runs[r := run.(pty := Some(p))]);
  }

  // ---- Step by step ----

  lemma BeginSafe(s: Sys, r: RunId, now: int, ok: bool)
    requires Safe(s)
    ensures Safe(DoBegin(s, r, now, ok)) && Later(s, DoBegin(s, r, now, ok))
  {
    hide Linkage, Recorded, WrittenOnce, Real, Later;
    LaterSelf(s);
    var u := DoBegin(s, r, now, ok);
    if u != s {
      BeginLinks(s, r, now, ok);
      StepStays(s, u, Launcher(r));
    }
  }

  lemma BeginLinks(s: Sys, r: RunId, now: int, ok: bool)
    requires Linkage(s) && DoBegin(s, r, now, ok) != s
    ensures Linkage(DoBegin(s, r, now, ok)) && Later(s, DoBegin(s, r, now, ok))
  {
  }

  lemma SpawnSafe(s: Sys, r: RunId, p: Pty, ok: bool)
    requires Safe(s)
    ensures Safe(DoSpawn(s, r, p, ok)) && Later(s, DoSpawn(s, r, p, ok))
  {
    hide Linkage, Recorded, WrittenOnce, Real, Later;
    LaterSelf(s);
    var u := DoSpawn(s, r, p, ok);
    if u != s {
      SpawnLinks(s, r, p, ok);
      StepStays(s, u, Launcher(r));
    }
  }

  lemma SpawnLinks(s: Sys, r: RunId, p: Pty, ok: bool)
    requires Linkage(s) && Threads(s) && DoSpawn(s, r, p, ok) != s
    ensures Linkage(DoSpawn(s, r, p, ok)) && Later(s, DoSpawn(s, r, p, ok))
  {
    hide PcOk;
    BegunRow(s, r);
    if ok {
      StartsOne(s, r, p);
    }
  }

  /** The run's first process: its launcher was about to ask for it. */
  lemma StartsOne(s: Sys, r: RunId, p: Pty)
    requires Linkage(s) && r in s.db.runs && At(s, Launcher(r)).Begun? && p !in s.procs
    ensures Linkage(DoSpawn(s, r, p, true)) && Later(s, DoSpawn(s, r, p, true))
  {
  }

  lemma BegunRow(s: Sys, r: RunId)
    requires Threads(s) && At(s, Launcher(r)).Begun?
    ensures r in s.db.runs
  {
    assert PcOk(s, Launcher(r), At(s, Launcher(r)));
  }

  /** The launcher takes the spawn for failed, or dies waiting for its answer. */
  lemma UnansweredSafe(s: Sys, r: RunId, pc: Pc)
    requires Safe(s) && At(s, Launcher(r)).Begun? && (pc.Refused? || pc.Dead?)
    ensures var u := Goto(Unanswer(s, r), Launcher(r), pc); Safe(u) && Later(s, u)
  {
    hide Linkage, Recorded, WrittenOnce, Real, Later;
    var u := Goto(Unanswer(s, r), Launcher(r), pc);
    UnansweredLinks(s, r, pc);
    SameLater(s, u);
    assert PcOk(s, Launcher(r), At(s, Launcher(r)));
    StepStays(s, u, Launcher(r));
  }

  lemma UnansweredLinks(s: Sys, r: RunId, pc: Pc)
    requires Linkage(s) && Threads(s) && At(s, Launcher(r)).Begun? && (pc.Refused? || pc.Dead?)
    ensures Linkage(Goto(Unanswer(s, r), Launcher(r), pc))
  {
    hide PcOk;
    BegunRow(s, r);
  }

  /** The host carries the spawn out, with nobody waiting for its answer. */
  lemma StartLateSafe(s: Sys, r: RunId, p: Pty)
    requires Safe(s)
    ensures Safe(DoStartLate(s, r, p)) && Later(s, DoStartLate(s, r, p))
  {
    hide Linkage, Recorded, WrittenOnce, Real;
    LaterSelf(s);
    if DoStartLate(s, r, p) != s {
      StartLateLinks(s, r, p);
      DaemonStep(s, DoStartLate(s, r, p));
    }
  }

  lemma StartLateLinks(s: Sys, r: RunId, p: Pty)
    requires Linkage(s)
    ensures Linkage(DoStartLate(s, r, p))
  {
  }

  lemma EndRefusedSafe(s: Sys, r: RunId, now: int, ok: bool)
    requires Safe(s)
    ensures Safe(DoEndRefused(s, r, now, ok)) && Later(s, DoEndRefused(s, r, now, ok))
  {
    hide Linkage, Recorded, WrittenOnce, Real, Later;
    LaterSelf(s);
    var u := DoEndRefused(s, r, now, ok);
    if At(s, Launcher(r)).Refused? {
      EndingStep(s, u, Launcher(r), if ok && IsOpen(s.db, r) then {r} else {});
      StepStays(s, u, Launcher(r));
    }
  }

  lemma LinkSafe(s: Sys, r: RunId, ok: bool)
    requires Safe(s)
    ensures Safe(DoLink(s, r, ok)) && Later(s, DoLink(s, r, ok))
  {
    hide Linkage, Recorded, WrittenOnce, Real, Later;
    IsUnique(s);
    LaterSelf(s);
    var u := DoLink(s, r, ok);
    if At(s, Launcher(r)).Started? {
      assert PcOk(s, Launcher(r), At(s, Launcher(r)));
      var p := At(s, Launcher(r)).pty;
      if ok && RunSpawned(s.db, r, p).Some? {
        LinkingStep(s, u, Launcher(r), r, p);
        StepStays(s, u, Launcher(r));
      } else {
        LocalStep(s, u, Launcher(r));
      }
    }
  }

  lemma AskHostSafe(s: Sys, r: RunId, now: int, ok: bool)
    requires Safe(s)
    ensures Safe(DoAskHost(s, r, now, ok)) && Later(s, DoAskHost(s, r, now, ok))
  {
    hide Linkage, Recorded, WrittenOnce, Real, Later;
    LaterSelf(s);
    if At(s, Launcher(r)).Linked? {
      assert PcOk(s, Launcher(r), At(s, Launcher(r)));
      LocalStep(s, DoAskHost(s, r, now, ok), Launcher(r));
    }
  }

  lemma DeliverSafe(s: Sys, c: nat, p: Pty, via: Via, now: int)
    requires Safe(s)
    ensures Safe(DoDeliver(s, c, p, via, now)) && Later(s, DoDeliver(s, c, p, via, now))
  {
    hide Linkage, Recorded, WrittenOnce, Real, Later;
    LaterSelf(s);
    var u := DoDeliver(s, c, p, via, now);
    if u != s {
      LocalStep(s, u, Client(c));
    }
  }

  lemma TakeSafe(s: Sys, c: nat, p: Pty)
    requires Safe(s)
    ensures Safe(DoTake(s, c, p)) && Later(s, DoTake(s, c, p))
  {
    hide Linkage, Recorded, WrittenOnce, Real, Later;
    LaterSelf(s);
    var u := DoTake(s, c, p);
    if u != s {
      LocalStep(s, u, Client(c));
    }
  }

  lemma TakeUnreadSafe(s: Sys, c: nat, p: Pty)
    requires Safe(s)
    ensures PtyUnique(s.db) && Safe(Next(s, TakeUnread(c, p))) && Later(s, Next(s, TakeUnread(c, p)))
  {
    hide Linkage, Recorded, WrittenOnce, Real, Later;
    IsUnique(s);
    LaterSelf(s);
    var u := Next(s, TakeUnread(c, p));
    if u != s {
      LocalStep(s, u, Client(c));
    }
  }

  lemma AskRunSafe(s: Sys, t: Thread, ok: bool)
    requires Safe(s)
    ensures Safe(DoAskRun(s, t, ok)) && Later(s, DoAskRun(s, t, ok))
  {
    hide Linkage, Recorded, WrittenOnce, Real, Later;
    IsUnique(s);
    LaterSelf(s);
    if At(s, t).Asking? {
      assert PcOk(s, t, At(s, t));
      LocalStep(s, DoAskRun(s, t, ok), t);
    }
  }

  lemma LookUpSafe(s: Sys, t: Thread, ok: bool)
    requires Safe(s)
    ensures Safe(DoLookUp(s, t, ok)) && Later(s, DoLookUp(s, t, ok))
  {
    hide Linkage, Recorded, WrittenOnce, Real, Later;
    LaterSelf(s);
    if At(s, t).Looking? {
      assert PcOk(s, t, At(s, t));
      LocalStep(s, DoLookUp(s, t, ok), t);
    }
  }

  lemma RemoveSafe(s: Sys, t: Thread, ok: bool)
    requires Safe(s)
    ensures Safe(DoRemove(s, t, ok)) && Later(s, DoRemove(s, t, ok))
  {
    hide Linkage, Recorded, WrittenOnce, Real, Later;
    LaterSelf(s);
    if At(s, t).Removing? || At(s, t).Discarding? {
      assert PcOk(s, t, At(s, t));
      LocalStep(s, DoRemove(s, t, ok), t);
    }
  }

  lemma AttachSafe(s: Sys, t: Thread, ok: bool)
    requires Safe(s)
    ensures Safe(DoAttach(s, t, ok)) && Later(s, DoAttach(s, t, ok))
  {
    hide Linkage, Recorded, WrittenOnce, Real, Later;
    IsUnique(s);
    LaterSelf(s);
    var u := DoAttach(s, t, ok);
    if At(s, t).Attaching? {
      assert PcOk(s, t, At(s, t));
      if u.threads[t].Removing? {
        LocalStep(s, u, t);
      } else {
        AttachedNow(s, u, t, At(s, t).entry);
      }
    }
  }

  lemma AttachedNow(s: Sys, u: Sys, t: Thread, e: Entry)
    requires Safe(s) && Moved(s, u, t) && t.Client? && At(s, t).Attaching? && u.unanswered == s.unanswered
    requires EntryOk(s, e) && e.run.Some? && u.procs == s.procs && RunSpawned(s.db, e.run.value, e.pty) == Some(u.db)
    requires u.threads[t] == Ending(e.pty, e.code, e.at, Spool, Drain(e, true))
    ensures Safe(u) && Later(s, u)
  {
    hide Recorded, WrittenOnce, Real;
    LinkingStep(s, u, t, e.run.value, e.pty);
    StepStays(s, u, t);
  }

  lemma ProcessExitsSafe(s: Sys, p: Pty, code: int)
    requires Safe(s)
    ensures Safe(DoProcessExits(s, p, code)) && Later(s, DoProcessExits(s, p, code))
  {
    hide Linkage, Recorded, WrittenOnce, Real;
    DaemonLinks(s, DoProcessExits(s, p, code));
    DaemonStep(s, DoProcessExits(s, p, code));
  }

  lemma UnrecordedSafe(s: Sys, p: Pty)
    requires Safe(s)
    ensures Safe(Next(s, SpawnUnrecorded(p))) && Later(s, Next(s, SpawnUnrecorded(p)))
  {
    hide Linkage, Recorded, WrittenOnce, Real;
    IsUnique(s);
    DaemonLinks(s, Next(s, SpawnUnrecorded(p)));
    DaemonStep(s, Next(s, SpawnUnrecorded(p)));
  }

  lemma ForgetSafe(s: Sys, p: Pty)
    requires Safe(s)
    ensures Safe(Next(s, Forget(p))) && Later(s, Next(s, Forget(p)))
  {
    hide Linkage, Recorded, WrittenOnce, Real;
    IsUnique(s);
    DaemonLinks(s, Next(s, Forget(p)));
    DaemonStep(s, Next(s, Forget(p)));
  }

  lemma KeepSafe(s: Sys, p: Pty, at: int, labelled: bool, ok: bool)
    requires Safe(s)
    ensures Safe(DoKeep(s, p, at, labelled, ok)) && Later(s, DoKeep(s, p, at, labelled, ok))
  {
    hide Linkage, Recorded, WrittenOnce, Real;
    DaemonLinks(s, DoKeep(s, p, at, labelled, ok));
    DaemonStep(s, DoKeep(s, p, at, labelled, ok));
  }

  /** The daemon started no process for a run. */
  lemma DaemonLinks(s: Sys, u: Sys)
    requires Linkage(s) && u.db == s.db && u.threads == s.threads && u.unanswered == s.unanswered
    requires forall p :: p in u.procs ==> (if p in s.procs then u.procs[p].run == s.procs[p].run else u.procs[p].run.None?)
    requires s.procs.Keys <= u.procs.Keys
    ensures Linkage(u)
  {
  }

  /** A step of the daemon: no thread moves and the database is not touched. */
  lemma DaemonStep(s: Sys, u: Sys)
    requires Safe(s) && Later(s, u)
    requires u.db == s.db && u.threads == s.threads && Linkage(u)
    requires forall p :: p in u.spool ==>
               u.spool[p].pty == p && EntryOk(u, u.spool[p])
    ensures Safe(u)
  {
    forall t | t in u.threads ensures PcOk(u, t, u.threads[t]) {
      PcStays(s, u, t, s.threads[t]);
    }
    forall k | k in u.db.exits ensures KeyOf(u, k, u.db.exits[k].run) {
      assert KeyOf(s, k, s.db.exits[k].run);
    }
    RealStays(s, u);
  }

  lemma EndByPtySafe(s: Sys, t: Thread, ok: bool)
    requires Safe(s)
    ensures Safe(DoEndByPty(s, t, ok)) && Later(s, DoEndByPty(s, t, ok))
  {
    hide Linkage, Recorded, WrittenOnce, Real, Later;
    IsUnique(s);
    LaterSelf(s);
    var u := DoEndByPty(s, t, ok);
    if At(s, t).Ending? {
      assert PcOk(s, t, At(s, t));
      if u.threads[t].Writing? {
        EndedNow(s, u, t, u.threads[t].exit.run);
      } else {
        LocalStep(s, u, t);
      }
    }
  }

  /** Thread `t` has just ended `r` behind its PTY and goes on to write the event. */
  lemma EndedNow(s: Sys, u: Sys, t: Thread, r: RunId)
    requires Safe(s)
    requires At(s, t).Ending? && u == DoEndByPty(s, t, true) && u.threads[t].Writing? && u.threads[t].exit.run == r
    ensures Safe(u) && Later(s, u)
  {
    hide Linkage, Recorded, WrittenOnce, Real, Later;
    IsUnique(s);
    EndingStep(s, u, t, {r});
    EndedPc(s, u, t, r);
    EndedRest(s, u, t, r, At(s, t).pty);
  }

  lemma EndedRest(s: Sys, u: Sys, t: Thread, r: RunId, p: Pty)
    requires Safe(s) && Linkage(u) && Later(s, u) && Moved(s, u, t) && PcOk(u, t, u.threads[t])
    requires u.procs == s.procs && u.db.exits == s.db.exits && Pending(u.threads[t]) == {r}
    requires HasPty(s.db, r, p) && IsOpen(s.db, r) && p in s.procs && s.procs[p].code.Some?
    requires exists at :: u.db.runs == s.db.runs[r := s.db.runs[r].(end := Some(End(s.procs[p].code, Exited, at)))]
    ensures Safe(u)
  {
    hide Linkage, Recorded, WrittenOnce, Real, Later, PcOk;
    ThreadsStay(s, u, t);
    EndedReal(s, u, r, p);
    NewlyPending(s, u, t, {r});
  }

  lemma EndedPc(s: Sys, u: Sys, t: Thread, r: RunId)
    requires Linkage(s) && Threads(s) && Later(s, u)
    requires At(s, t).Ending? && u == DoEndByPty(s, t, true) && u.threads[t].Writing? && u.threads[t].exit.run == r
    ensures var p := At(s, t).pty;
            && HasPty(s.db, r, p) && IsOf(s, p, r) && IsOpen(s.db, r)
            && s.procs[p].code.Some? && u.db.runs == s.db.runs[r := s.db.runs[r].(end := Some(End(s.procs[p].code, Exited, At(s, t).at)))]
    ensures PcOk(u, t, u.threads[t])
  {
    var p := At(s, t).pty;
    assert PcOk(s, t, At(s, t));
    assert HasPty(s.db, r, p) && IsOf(s, p, r);
    assert IsOf(u, p, r) && ThenOk(u, t, p, u.threads[t].next);
  }

  /** The run just ended has its process's code, and the others are as they were. */
  lemma EndedReal(s: Sys, u: Sys, r: RunId, p: Pty)
    requires Real(s) && u.procs == s.procs && HasPty(s.db, r, p) && p in s.procs && s.procs[p].code.Some?
    requires u.db.runs.Keys == s.db.runs.Keys && HasPty(u.db, r, p)
    requires u.db.runs[r].end.Some? && u.db.runs[r].end.value.code == s.procs[p].code
    requires forall q :: q in s.db.runs && q != r ==> u.db.runs[q] == s.db.runs[q]
    ensures Real(u)
  {
    forall q | q in u.db.runs && u.db.runs[q].end.Some? && u.db.runs[q].end.value.reason.Exited?
      ensures exists p :: HasPty(u.db, q, p) && p in u.procs && u.procs[p].code.Some? && u.procs[p].code == u.db.runs[q].end.value.code
    {
      if q != r {
        var p' :| HasPty(s.db, q, p') && p' in s.procs && s.procs[p'].code.Some? && s.procs[p'].code == s.db.runs[q].end.value.code;
        assert HasPty(u.db, q, p');
      }
    }
  }

  /** Runs that were open are in nobody's pending set and have no event. */
  lemma NewlyPending(s: Sys, u: Sys, t: Thread, gone: set<RunId>)
    requires Threads(s) && Recorded(s) && WrittenOnce(s) && Moved(s, u, t) && Later(s, u)
    requires u.db.exits == s.db.exits && u.procs == s.procs
    requires Pending(u.threads[t]) == gone
    requires forall r :: r in gone ==> IsOpen(s.db, r)
    ensures Recorded(u) && WrittenOnce(u)
  {
    forall t' | t' in s.threads ensures Pending(s.threads[t']) !! gone {
      assert PcOk(s, t', s.threads[t']);
    }
    forall k | k in u.db.exits ensures KeyOf(u, k, u.db.exits[k].run) {
      assert KeyOf(s, k, s.db.exits[k].run);
    }
  }

  lemma EndGoneSafe(s: Sys, c: nat, now: int, ok: bool)
    requires Safe(s)
    ensures Safe(DoEndGone(s, c, now, ok)) && Later(s, DoEndGone(s, c, now, ok))
  {
    hide Linkage, Recorded, WrittenOnce, Real, Later;
    LaterSelf(s);
    var t := Client(c);
    var u := DoEndGone(s, c, now, ok);
    if At(s, t).Listed? {
      if u.threads[t].Closing? {
        GoneNow(s, u, t, u.threads[t].gone, now);
      } else {
        LocalStep(s, u, t);
      }
    }
  }

  /** Thread `t` has just ended the runs of `keys` as interrupted and goes on to write their events. */
  lemma GoneNow(s: Sys, u: Sys, t: Thread, keys: map<RunId, Key>, now: int)
    requires Safe(s) && t.Client? && At(s, t).Listed?
    requires forall r :: r in keys ==> IsOpen(s.db, r) && keys[r] == ExitKey(r, s.db.runs[r])
    requires u == Goto(s.(db := EndInterruptedRuns(s.db, keys.Keys, now)), t, Closing(keys))
    ensures Safe(u) && Later(s, u)
  {
    hide Linkage, Threads, Recorded, WrittenOnce, Real, Later, PcOk;
    EndingStep(s, u, t, keys.Keys);
    GonePc(s, u, t, keys, now);
    ThreadsStay(s, u, t);
    RealStays(s, u);
    NewlyPending(s, u, t, keys.Keys);
  }

  lemma GonePc(s: Sys, u: Sys, t: Thread, keys: map<RunId, Key>, now: int)
    requires Linkage(s) && t.Client?
    requires forall r :: r in keys ==> IsOpen(s.db, r) && keys[r] == ExitKey(r, s.db.runs[r])
    requires u.procs == s.procs && u.db == EndInterruptedRuns(s.db, keys.Keys, now)
    ensures PcOk(u, t, Closing(keys))
  {
  }

  lemma WriteSafe(s: Sys, t: Thread, ok: bool)
    requires Safe(s)
    ensures Safe(DoWrite(s, t, ok)) && Later(s, DoWrite(s, t, ok))
  {
    hide Linkage, Recorded, WrittenOnce, Real, Later;
    LaterSelf(s);
    var u := DoWrite(s, t, ok);
    if At(s, t).Writing? {
      var pc := At(s, t);
      assert PcOk(s, t, pc);
      if ok {
        WroteNow(s, u, t, pc.key, pc.exit);
      } else {
        LocalStep(s, u, t);
      }
    }
  }

  lemma WriteGoneSafe(s: Sys, c: nat, r: RunId, now: int, ok: bool)
    requires Safe(s)
    ensures Safe(DoWriteGone(s, c, r, now, ok)) && Later(s, DoWriteGone(s, c, r, now, ok))
  {
    hide Linkage, Recorded, WrittenOnce, Real, Later;
    LaterSelf(s);
    var t := Client(c);
    var u := DoWriteGone(s, c, r, now, ok);
    if At(s, t).Closing? {
      var gone := At(s, t).gone;
      assert PcOk(s, t, At(s, t));
      if r in gone && ok {
        WroteNow(s, u, t, gone[r], ExitEvent(r, None, Interrupted, Reconcile, now));
      } else if u != s {
        UnwrittenSafe(s, u, t);
      }
    }
  }

  lemma UnwrittenSafe(s: Sys, u: Sys, t: Thread)
    requires Safe(s) && t.Client? && At(s, t).Closing? && PcOk(s, t, At(s, t))
    requires u.threads.Keys == s.threads.Keys + {t} && u == Goto(s, t, u.threads[t])
    requires u.threads[t].Idle? || (u.threads[t].Closing? && exists r :: u.threads[t].gone == At(s, t).gone - {r})
    ensures Safe(u) && Later(s, u)
  {
    hide Linkage, Recorded, WrittenOnce, Real, Later;
    LocalStep(s, u, t);
  }

  /** Thread `t` wrote the event it had pending, and its key was fresh. */
  lemma WroteNow(s: Sys, u: Sys, t: Thread, key: Key, exit: ExitEvent)
    requires Safe(s) && Moved(s, u, t) && u.unanswered == s.unanswered
    requires t in s.threads && exit.run in Pending(s.threads[t])
    requires Agrees(s.db, exit) && KeyOf(s, key, exit.run)
    requires u.procs == s.procs && u.db == AddExit(s.db, key, exit)
    requires PcOk(s, t, u.threads[t]) && Pending(u.threads[t]) <= Pending(s.threads[t]) - {exit.run}
    requires t.Launcher? ==> !Early(u.threads[t])
    ensures Safe(u) && Later(s, u)
  {
    hide Linkage, Recorded, WrittenOnce, Real, Later;
    FreshKey(s, t, key, exit.run);
    WroteLater(s, u, key, exit);
    PcStays(s, u, t, u.threads[t]);
    LinkageStays(s, u);
    ThreadsStay(s, u, t);
    RealStays(s, u);
    WroteOnce(s, u, t, key, exit);
  }

  lemma WroteLater(s: Sys, u: Sys, key: Key, exit: ExitEvent)
    requires key !in s.db.exits && u.procs == s.procs && u.db == AddExit(s.db, key, exit)
    ensures Later(s, u)
  {
  }

  lemma FreshKey(s: Sys, t: Thread, key: Key, r: RunId)
    requires Linkage(s) && Recorded(s) && WrittenOnce(s)
    requires t in s.threads && r in Pending(s.threads[t]) && KeyOf(s, key, r)
    ensures key !in s.db.exits
  {
    assert key in s.db.exits ==> KeyOf(s, key, s.db.exits[key].run);
  }

  lemma WroteOnce(s: Sys, u: Sys, t: Thread, key: Key, exit: ExitEvent)
    requires Recorded(s) && WrittenOnce(s) && Moved(s, u, t)
    requires t in s.threads && exit.run in Pending(s.threads[t]) && key !in s.db.exits
    requires Agrees(s.db, exit) && KeyOf(s, key, exit.run)
    requires u.procs == s.procs && u.db == AddExit(s.db, key, exit)
    requires Pending(u.threads[t]) <= Pending(s.threads[t]) - {exit.run}
    ensures Recorded(u) && WrittenOnce(u)
  {
    forall k | k in u.db.exits ensures KeyOf(u, k, u.db.exits[k].run) {
      assert k == key || KeyOf(s, k, s.db.exits[k].run);
    }
  }

  /** A step of a launcher or of the daemon. */
  ghost predicate OfLaunch(step: Step) {
    || step.Begin? || step.Spawn? || step.SpawnUnanswered? || step.StartLate? || step.SpawnUnrecorded? || step.EndRefused?
    || step.Link? || step.AskHost? || step.ProcessExits? || step.Forget? || step.Keep?
  }

  lemma NextSafe(s: Sys, step: Step)
    requires Safe(s)
    ensures Safe(Next(s, step)) && Later(s, Next(s, step))
  {
    hide Safe, Later;
    IsUnique(s);
    LaterSelf(s);
    if OfLaunch(step) {
      LauncherOrDaemonSafe(s, step);
    } else {
      ClientSafe(s, step);
    }
  }

  lemma LauncherOrDaemonSafe(s: Sys, step: Step)
    requires Safe(s)
    requires OfLaunch(step)
    ensures Safe(Next(s, step)) && Later(s, Next(s, step))
  {
    hide Safe, Later;
    IsUnique(s);
    LaterSelf(s);
    match step
    case Begin(r, now, ok) => BeginSafe(s, r, now, ok);
    case Spawn(r, p, ok) => SpawnSafe(s, r, p, ok);
    case SpawnUnanswered(r) => if At(s, Launcher(r)).Begun? { UnansweredSafe(s, r, Refused); }
    case StartLate(r, p) => StartLateSafe(s, r, p);
    case SpawnUnrecorded(p) => UnrecordedSafe(s, p);
    case EndRefused(r, now, ok) => EndRefusedSafe(s, r, now, ok);
    case Link(r, ok) => LinkSafe(s, r, ok);
    case AskHost(r, now, ok) => AskHostSafe(s, r, now, ok);
    case ProcessExits(p, code) => ProcessExitsSafe(s, p, code);
    case Forget(p) => ForgetSafe(s, p);
    case Keep(p, at, labelled, ok) => KeepSafe(s, p, at, labelled, ok);
  }

  lemma ClientSafe(s: Sys, step: Step)
    requires Safe(s)
    requires !OfLaunch(step)
    ensures Safe(Next(s, step)) && Later(s, Next(s, step))
  {
    hide Safe, Later;
    IsUnique(s);
    LaterSelf(s);
    match step
    case Deliver(c, p, via, now) => DeliverSafe(s, c, p, via, now);
    case Take(c, p) => TakeSafe(s, c, p);
    case TakeUnread(c, p) => TakeUnreadSafe(s, c, p);
    case ListAlive(c, ok) => if At(s, Client(c)).Idle? { ClientStepSafe(s, Client(c), Listed(Listing(s, ok))); }
    case EndGone(c, now, ok) => EndGoneSafe(s, c, now, ok);
    case WriteGone(c, r, now, ok) => WriteGoneSafe(s, c, r, now, ok);
    case Crash(t) =>
      if t.Launcher? && At(s, t).Begun? {
        UnansweredSafe(s, t.run, Dead);
      } else {
        ClientStepSafe(s, t, Dead);
      }
    case _ => RecordingSafe(s, step);
  }

  lemma RecordingSafe(s: Sys, step: Step)
    requires Safe(s)
    requires step.EndByPty? || step.Write? || step.AskRun? || step.LookUp? || step.Attach? || step.Remove?
    ensures Safe(Next(s, step)) && Later(s, Next(s, step))
  {
    hide Safe, Later;
    IsUnique(s);
    LaterSelf(s);
    match step
    case EndByPty(t, ok) => EndByPtySafe(s, t, ok);
    case Write(t, ok) => WriteSafe(s, t, ok);
    case AskRun(t, ok) => AskRunSafe(s, t, ok);
    case LookUp(t, ok) => LookUpSafe(s, t, ok);
    case Attach(t, ok) => AttachSafe(s, t, ok);
    case Remove(t, ok) => RemoveSafe(s, t, ok);
  }

  lemma ClientStepSafe(s: Sys, t: Thread, pc: Pc)
    requires Safe(s) && ((t.Client? && pc.Listed?) || pc.Dead?)
    ensures Safe(Goto(s, t, pc)) && Later(s, Goto(s, t, pc))
  {
    hide Linkage, Recorded, WrittenOnce, Real, Later;
    LocalStep(s, Goto(s, t, pc), t);
  }

  // ---- Schedules ----

  lemma {:induction false} AfterSafe(s: Sys, steps: seq<Step>)
    requires Safe(s)
    ensures Safe(After(s, steps)) && Later(s, After(s, steps))
    decreases |steps|
  {
    hide Safe, Later;
    IsUnique(s);
    LaterSelf(s);
    if steps != [] {
      var before := After(s, steps[..|steps| - 1]);
      AfterSafe(s, steps[..|steps| - 1]);
      NextSafe(before, steps[|steps| - 1]);
      LaterTransitive(s, before, After(s, steps));
    }
  }

  /**
   In every schedule a run that has ended is never ended again: whatever happens next, its code,
   reason and time stay. It has at most one `process.exited` event, which never changes either and
   says what the row says.
   */
  lemma ExitRecordedOnce(steps: seq<Step>, more: seq<Step>, r: RunId)
    requires var s := After(START, steps); r in s.db.runs && s.db.runs[r].end.Some?
    ensures var s := After(START, steps);
            var u := After(s, more);
            && r in u.db.runs && u.db.runs[r].end == s.db.runs[r].end
            && (forall k :: k in s.db.exits ==> k in u.db.exits && u.db.exits[k] == s.db.exits[k])
            && (forall k1, k2 :: k1 in u.db.exits && k2 in u.db.exits && u.db.exits[k1].run == u.db.exits[k2].run ==> k1 == k2)
            && (forall k :: k in u.db.exits && u.db.exits[k].run == r ==>
                  && u.db.exits[k].code == s.db.runs[r].end.value.code
                  && u.db.exits[k].reason == s.db.runs[r].end.value.reason
                  && (u.db.exits[k].reason.Exited? ==> u.db.exits[k].at == s.db.runs[r].end.value.at))
  {
    var s := After(START, steps);
    AfterSafe(START, steps);
    AfterSafe(s, more);
    StaysRecorded(s, After(s, more), r);
  }

  lemma StaysRecorded(s: Sys, u: Sys, r: RunId)
    requires Later(s, u) && Recorded(u) && r in s.db.runs && s.db.runs[r].end.Some?
    ensures r in u.db.runs && u.db.runs[r].end == s.db.runs[r].end
    ensures forall k :: k in s.db.exits ==> k in u.db.exits && u.db.exits[k] == s.db.exits[k]
    ensures forall k1, k2 :: k1 in u.db.exits && k2 in u.db.exits && u.db.exits[k1].run == u.db.exits[k2].run ==> k1 == k2
    ensures forall k :: k in u.db.exits && u.db.exits[k].run == r ==>
              && u.db.exits[k].code == s.db.runs[r].end.value.code
              && u.db.exits[k].reason == s.db.runs[r].end.value.reason
              && (u.db.exits[k].reason.Exited? ==> u.db.exits[k].at == s.db.runs[r].end.value.at)
  {
    forall k | k in u.db.exits && u.db.exits[k].run == r ensures Agrees(u.db, u.db.exits[k]) {
    }
  }

  /** An open run has no `process.exited` event: none is written ahead of the end. */
  lemma OpenRunHasNoExit(steps: seq<Step>, r: RunId, k: Key)
    requires var s := After(START, steps); IsOpen(s.db, r) && k in s.db.exits
    ensures After(START, steps).db.exits[k].run != r
  {
    var s := After(START, steps);
    AfterSafe(START, steps);
    assert Agrees(s.db, s.db.exits[k]);
  }

  /** A run recorded as exited is linked to the process it started and has that process's code. */
  lemma ExitedIsReal(steps: seq<Step>, r: RunId)
    requires var s := After(START, steps);
             r in s.db.runs && s.db.runs[r].end.Some? && s.db.runs[r].end.value.reason.Exited?
    ensures var s := After(START, steps);
            exists p :: HasPty(s.db, r, p) && IsOf(s, p, r) && s.procs[p].code.Some? && s.procs[p].code == s.db.runs[r].end.value.code
  {
    var s := After(START, steps);
    AfterSafe(START, steps);
    assert Real(s);
    var p :| HasPty(s.db, r, p) && p in s.procs && s.procs[p].code.Some? && s.procs[p].code == s.db.runs[r].end.value.code;
    assert IsOf(s, p, r);
  }
}
