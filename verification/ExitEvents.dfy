/**
 What becomes of the event of a run that has ended. In every schedule an ended run has its event, or
 a thread is about to write it, or one of the steps that lose an event lost it; and a lost one is
 never written.
 */
module ExitEvents {
  import opened ActivityStore
  import opened ExitProtocol
  import opened ExitSafety
  import opened Options

  // ---- Nothing that ended goes unaccounted for ----

  ghost predicate HasExit(db: Db, r: RunId) {
    exists k :: k in db.exits && db.exits[k].run == r
  }

  ghost predicate IsPending(s: Sys, r: RunId) {
    exists t :: t in s.threads && r in Pending(s.threads[t])
  }

  /** The step loses the event of `r`: its write fails, or the thread that has it in hand dies. */
  ghost predicate LosesEvent(s: Sys, step: Step, r: RunId) {
    match step
    case Write(t, ok) => !ok && At(s, t).Writing? && At(s, t).exit.run == r
    case WriteGone(c, q, _, ok) => !ok && q == r && At(s, Client(c)).Closing? && r in At(s, Client(c)).gone
    case Crash(t) => r in Pending(At(s, t))
    case _ => false
  }

  /** Every run that ended has its event, or somebody is about to write it, or it was lost for good. */
  ghost predicate Accounted(s: Sys, lost: set<RunId>) {
    && (forall r :: HasEnded(s.db, r) ==> HasExit(s.db, r) || IsPending(s, r) || r in lost)
    && (forall r :: r in lost ==> IsUnwritten(s, r))
  }

  /** Ended, without an event, and nobody is about to write it. */
  ghost predicate IsUnwritten(s: Sys, r: RunId) {
    HasEnded(s.db, r) && !HasExit(s.db, r) && !IsPending(s, r)
  }

  /** Thread `t` moved from `s` to `u`, writing and taking up no more than this says. */
  ghost predicate Accounts(s: Sys, u: Sys, t: Thread) {
    && Later(s, u) && Moved(s, u, t)
    && (forall r :: HasEnded(u.db, r) ==> HasEnded(s.db, r) || r in Pending(u.threads[t]))
    && (forall r :: r in Pending(u.threads[t]) ==> r in Pending(At(s, t)) || IsOpen(s.db, r))
    && (forall k :: k in u.db.exits ==> k in s.db.exits || u.db.exits[k].run in Pending(At(s, t)))
  }

  lemma AccountedStays(s: Sys, u: Sys, t: Thread, lost: set<RunId>, more: set<RunId>)
    requires Accounted(s, lost) && Accounts(s, u, t) && lost <= more
    requires forall r :: r in Pending(At(s, t)) ==> r in Pending(u.threads[t]) || HasExit(u.db, r) || r in more
    requires forall r :: r in more ==> r in lost || IsUnwritten(u, r)
    ensures Accounted(u, more)
  {
    forall r | HasEnded(u.db, r) ensures HasExit(u.db, r) || IsPending(u, r) || r in more {
      if HasEnded(s.db, r) {
        StaysAccounted(s, u, t, r, more);
      }
    }
    forall r | r in lost ensures IsUnwritten(u, r) {
      StaysUnwritten(s, u, t, r);
    }
  }

  lemma StaysAccounted(s: Sys, u: Sys, t: Thread, r: RunId, more: set<RunId>)
    requires Later(s, u) && Moved(s, u, t)
    requires HasExit(s.db, r) || IsPending(s, r) || r in more
    requires r in Pending(At(s, t)) ==> r in Pending(u.threads[t]) || HasExit(u.db, r) || r in more
    ensures HasExit(u.db, r) || IsPending(u, r) || r in more
  {
    if HasExit(s.db, r) {
      var k :| k in s.db.exits && s.db.exits[k].run == r;
      assert k in u.db.exits;
    } else if IsPending(s, r) {
      var t' :| t' in s.threads && r in Pending(s.threads[t']);
      assert t' != t ==> u.threads[t'] == s.threads[t'];
    }
  }

  lemma StaysUnwritten(s: Sys, u: Sys, t: Thread, r: RunId)
    requires IsUnwritten(s, r) && Accounts(s, u, t)
    ensures IsUnwritten(u, r)
  {
    assert r !in Pending(At(s, t)) by {
      assert r in Pending(At(s, t)) ==> t in s.threads;
    }
    forall k | k in u.db.exits ensures u.db.exits[k].run != r {
      assert k in s.db.exits ==> u.db.exits[k] == s.db.exits[k];
    }
  }

  /** What thread `t` has in hand has ended, has no event, and is in nobody else's hands. */
  lemma InHand(s: Sys, t: Thread, r: RunId)
    requires Safe(s) && r in Pending(At(s, t))
    ensures t in s.threads && HasEnded(s.db, r) && !HasExit(s.db, r)
    ensures forall t' :: t' in s.threads && t' != t ==> r !in Pending(s.threads[t'])
  {
    assert PcOk(s, t, s.threads[t]);
  }

  /** Thread `t` let go of the event of `r` unwritten. */
  lemma LetGo(s: Sys, u: Sys, t: Thread, r: RunId)
    requires Safe(s) && r in Pending(At(s, t)) && Moved(s, u, t) && u.db == s.db && r !in Pending(u.threads[t])
    ensures IsUnwritten(u, r)
  {
    hide Safe;
    InHand(s, t, r);
    forall t' | t' in u.threads ensures r !in Pending(u.threads[t']) {
      assert t' != t ==> u.threads[t'] == s.threads[t'];
    }
  }

  /** Thread `t` let events go, or none, and did nothing else. */
  lemma LettingGo(s: Sys, u: Sys, t: Thread, lost: set<RunId>, more: set<RunId>)
    requires Safe(s) && Accounted(s, lost) && Moved(s, u, t) && u.db == s.db && u.procs == s.procs
    requires Pending(u.threads[t]) <= Pending(At(s, t))
    requires more == lost + (Pending(At(s, t)) - Pending(u.threads[t]))
    ensures Accounted(u, more)
  {
    hide Safe, Accounted, Later;
    SameLater(s, u);
    forall r | r in more && r !in lost ensures IsUnwritten(u, r) {
      LetGo(s, u, t, r);
    }
    AccountedStays(s, u, t, lost, more);
  }

  /** Thread `t` wrote the event of `r`. */
  lemma Wrote(s: Sys, u: Sys, t: Thread, key: Key, exit: ExitEvent, lost: set<RunId>)
    requires Safe(s) && Accounted(s, lost) && Moved(s, u, t) && u.procs == s.procs
    requires exit.run in Pending(At(s, t)) && t in s.threads && KeyOf(s, key, exit.run) && u.db == AddExit(s.db, key, exit)
    requires Pending(u.threads[t]) == Pending(At(s, t)) - {exit.run}
    ensures Accounted(u, lost)
  {
    hide Linkage, Threads, Recorded, WrittenOnce, Real, Accounted, Later, KeyOf;
    FreshKey(s, t, key, exit.run);
    WroteLater(s, u, key, exit);
    assert u.db.exits[key].run == exit.run;
    AccountedStays(s, u, t, lost, lost);
  }

  // ---- Step by step ----

  lemma WriteAccounted(s: Sys, t: Thread, ok: bool, lost: set<RunId>, more: set<RunId>)
    requires Safe(s) && Accounted(s, lost) && IsMore(s, Write(t, ok), lost, more)
    ensures Accounted(DoWrite(s, t, ok), more)
  {
    hide Linkage, Recorded, WrittenOnce, Real, Accounted, Later;
    var u := DoWrite(s, t, ok);
    if At(s, t).Writing? {
      var pc := At(s, t);
      assert PcOk(s, t, pc);
      if ok {
        assert more == lost;
        Wrote(s, u, t, pc.key, pc.exit, lost);
      } else {
        assert LosesEvent(s, Write(t, ok), pc.exit.run);
        assert more == lost + {pc.exit.run};
        LettingGo(s, u, t, lost, more);
      }
    } else {
      assert more == lost;
    }
  }

  lemma WriteGoneAccounted(s: Sys, c: nat, r: RunId, now: int, ok: bool, lost: set<RunId>, more: set<RunId>)
    requires Safe(s) && Accounted(s, lost) && IsMore(s, WriteGone(c, r, now, ok), lost, more)
    ensures Accounted(DoWriteGone(s, c, r, now, ok), more)
  {
    hide Linkage, Recorded, WrittenOnce, Real, Accounted, Later;
    var t, u := Client(c), DoWriteGone(s, c, r, now, ok);
    if At(s, t).Closing? && r in At(s, t).gone {
      var gone := At(s, t).gone;
      assert PcOk(s, t, At(s, t));
      if ok {
        assert more == lost;
        Wrote(s, u, t, gone[r], ExitEvent(r, None, Interrupted, Reconcile, now), lost);
      } else {
        assert LosesEvent(s, WriteGone(c, r, now, ok), r);
        assert more == lost + {r};
        LettingGo(s, u, t, lost, more);
      }
    } else {
      assert more == lost;
      if u != s {
        LettingGo(s, u, t, lost, more);
      }
    }
  }

  lemma CrashAccounted(s: Sys, t: Thread, lost: set<RunId>, more: set<RunId>)
    requires Safe(s) && Accounted(s, lost) && IsMore(s, Crash(t), lost, more)
    ensures PtyUnique(s.db) && Accounted(Next(s, Crash(t)), more)
  {
    hide Safe, Accounted, Later;
    IsUnique(s);
    forall r | r in Pending(At(s, t)) ensures r in more {
      assert LosesEvent(s, Crash(t), r);
    }
    LettingGo(s, Next(s, Crash(t)), t, lost, more);
  }

  /** `more` has what was lost before, and what the step loses. */
  ghost predicate IsMore(s: Sys, step: Step, lost: set<RunId>, more: set<RunId>) {
    && (forall r :: r in more <==> r in lost || LosesEvent(s, step, r))
  }

  lemma EndByPtyAccounted(s: Sys, t: Thread, ok: bool, lost: set<RunId>)
    requires Safe(s) && Accounted(s, lost)
    ensures PtyUnique(s.db) && Accounted(DoEndByPty(s, t, ok), lost)
  {
    hide Safe, Accounted, Later;
    IsUnique(s);
    EndByPtySafe(s, t, ok);
    if At(s, t).Ending? {
      AccountedStays(s, DoEndByPty(s, t, ok), t, lost, lost);
    }
  }

  lemma EndGoneAccounted(s: Sys, c: nat, now: int, ok: bool, lost: set<RunId>)
    requires Safe(s) && Accounted(s, lost)
    ensures Accounted(DoEndGone(s, c, now, ok), lost)
  {
    hide Safe, Accounted, Later;
    EndGoneSafe(s, c, now, ok);
    if At(s, Client(c)).Listed? {
      AccountedStays(s, DoEndGone(s, c, now, ok), Client(c), lost, lost);
    }
  }

  lemma EndRefusedAccounted(s: Sys, r: RunId, now: int, ok: bool, lost: set<RunId>)
    requires Safe(s) && Accounted(s, lost)
    ensures Accounted(DoEndRefused(s, r, now, ok), lost)
  {
    hide Safe, Accounted, Later;
    EndRefusedSafe(s, r, now, ok);
    if At(s, Launcher(r)).Refused? {
      AccountedStays(s, DoEndRefused(s, r, now, ok), Launcher(r), lost, lost);
    }
  }

  /** The steps that end no run and write no event. */
  lemma OtherAccounted(s: Sys, step: Step, lost: set<RunId>)
    requires Safe(s) && Accounted(s, lost)
    requires !(step.EndByPty? || step.EndGone? || step.EndRefused? || step.Write? || step.WriteGone? || step.Crash?)
    ensures PtyUnique(s.db) && Accounted(Next(s, step), lost)
  {
    hide Safe, Accounted, Later;
    IsUnique(s);
    NextSafe(s, step);
    var u := Next(s, step);
    if u.threads == s.threads {
      SameThreads(s, u, lost);
    } else {
      Neutral(s, step);
      AccountedStays(s, u, Mover(step), lost, lost);
    }
  }

  lemma SameThreads(s: Sys, u: Sys, lost: set<RunId>)
    requires Accounted(s, lost) && u.threads == s.threads && u.db == s.db
    ensures Accounted(u, lost)
  {
  }

  lemma Neutral(s: Sys, step: Step)
    requires PtyUnique(s.db) && Later(s, Next(s, step)) && Next(s, step).threads != s.threads
    requires !(step.EndByPty? || step.EndGone? || step.EndRefused? || step.Write? || step.WriteGone? || step.Crash?)
    ensures Accounts(s, Next(s, step), Mover(step)) && Pending(At(s, Mover(step))) == {}
  {
    hide Later, PtyUnique;
    if step.Begin? || step.Link? || step.Attach? {
      NeutralLinking(s, step);
    } else if step.AskRun? || step.LookUp? || step.Remove? {
      NeutralRecording(s, step);
    } else {
      NeutralLocal(s, step);
    }
  }

  lemma NeutralLinking(s: Sys, step: Step)
    requires PtyUnique(s.db) && Later(s, Next(s, step)) && Next(s, step).threads != s.threads
    requires step.Begin? || step.Link? || step.Attach?
    ensures Accounts(s, Next(s, step), Mover(step)) && Pending(At(s, Mover(step))) == {}
  {
    hide Later, PtyUnique;
  }

  lemma NeutralRecording(s: Sys, step: Step)
    requires PtyUnique(s.db) && Later(s, Next(s, step)) && Next(s, step).threads != s.threads
    requires step.AskRun? || step.LookUp? || step.Remove?
    ensures Accounts(s, Next(s, step), Mover(step)) && Pending(At(s, Mover(step))) == {}
  {
    hide Later, PtyUnique;
  }

  lemma NeutralLocal(s: Sys, step: Step)
    requires PtyUnique(s.db) && Later(s, Next(s, step)) && Next(s, step).threads != s.threads
    requires !(step.Begin? || step.Link? || step.Attach? || step.AskRun? || step.LookUp? || step.Remove?)
    requires !(step.EndByPty? || step.EndGone? || step.EndRefused? || step.Write? || step.WriteGone? || step.Crash?)
    ensures Accounts(s, Next(s, step), Mover(step)) && Pending(At(s, Mover(step))) == {}
  {
    hide Later, PtyUnique;
  }

  ghost function Mover(step: Step): Thread {
    match step
    case Begin(r, _, _) => Launcher(r)
    case Spawn(r, _, _) => Launcher(r)
    case SpawnUnanswered(r) => Launcher(r)
    case EndRefused(r, _, _) => Launcher(r)
    case Link(r, _) => Launcher(r)
    case AskHost(r, _, _) => Launcher(r)
    case Deliver(c, _, _, _) => Client(c)
    case Take(c, _) => Client(c)
    case TakeUnread(c, _) => Client(c)
    case ListAlive(c, _) => Client(c)
    case EndGone(c, _, _) => Client(c)
    case WriteGone(c, _, _, _) => Client(c)
    case EndByPty(t, _) => t
    case Write(t, _) => t
    case AskRun(t, _) => t
    case LookUp(t, _) => t
    case Attach(t, _) => t
    case Remove(t, _) => t
    case Crash(t) => t
    case _ => Client(0)
  }

  lemma NextAccounted(s: Sys, step: Step, lost: set<RunId>, more: set<RunId>)
    requires Safe(s) && Accounted(s, lost) && IsMore(s, step, lost, more)
    ensures PtyUnique(s.db) && Accounted(Next(s, step), more)
  {
    hide Safe, Accounted;
    IsUnique(s);
    match step
    case Write(t, ok) => WriteAccounted(s, t, ok, lost, more);
    case WriteGone(c, r, now, ok) => WriteGoneAccounted(s, c, r, now, ok, lost, more);
    case Crash(t) => CrashAccounted(s, t, lost, more);
    case EndByPty(t, ok) => assert more == lost; EndByPtyAccounted(s, t, ok, lost);
    case EndGone(c, now, ok) => assert more == lost; EndGoneAccounted(s, c, now, ok, lost);
    case EndRefused(r, now, ok) => assert more == lost; EndRefusedAccounted(s, r, now, ok, lost);
    case _ =>
      assert more == lost;
      OtherAccounted(s, step, lost);
  }
}
