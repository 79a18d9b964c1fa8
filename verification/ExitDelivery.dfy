/**
 What becomes of a process's exit on its way to its run. In good hands it is recorded, still ahead of
 the daemon, in the spool, or with a thread that goes on to record it. The steps with which that ends,
 and those with which it begins again, are named exactly, whatever fails and whoever dies.
 */
module ExitDelivery {
  import opened ActivityStore
  import opened ExitHistory
  import opened ExitProtocol
  import opened ExitSafety
  import opened Options

  // ---- Good hands ----

  ghost predicate HasRun(s: Sys, p: Pty) {
    p in s.procs && s.procs[p].run.Some?
  }

  ghost predicate IsKept(s: Sys, p: Pty) {
    p in s.procs && s.procs[p].kept
  }

  ghost function RunOf(s: Sys, p: Pty): RunId
    requires HasRun(s, p)
  {
    s.procs[p].run.value
  }

  ghost predicate IsLinked(s: Sys, p: Pty) {
    HasRun(s, p) && HasPty(s.db, RunOf(s, p), p)
  }

  /** Finding no run linked to the PTY, the drainer goes on to look up the run the label names. */
  ghost predicate WillAdopt(next: Then) {
    next.Drain? && !next.adopted && next.entry.run.Some?
  }

  /** A thread that stands there goes on to end the open run of `p` if the process is gone. */
  ghost predicate Owes(s: Sys, pc: Pc, p: Pty) {
    && HasRun(s, p) && IsOpen(s.db, RunOf(s, p))
    && match pc
       case Started(q) => q == p
       case Linked(q) => q == p && IsLinked(s, p)
       case Ending(q, _, _, _, next) => q == p && (IsLinked(s, p) || WillAdopt(next))
       case Asking(q, next) => q == p && !IsLinked(s, p) && WillAdopt(next)
       case Looking(e) => e.pty == p && !IsLinked(s, p) && e.run.Some?
       case Attaching(e) => e.pty == p && e.run.Some?
       case _ => false
  }

  /** A thread that stands there goes on to remove the entry of `p`. */
  ghost predicate Holds(pc: Pc, p: Pty) {
    match pc
    case Ending(_, _, _, _, next) => next.Drain? && next.entry.pty == p
    case Writing(_, _, next) => next.Drain? && next.entry.pty == p
    case Asking(_, next) => next.Drain? && next.entry.pty == p
    case Looking(e) => e.pty == p
    case Attaching(e) => e.pty == p
    case Removing(e) => e.pty == p
    case Discarding(q) => q == p
    case _ => false
  }

  ghost predicate Owed(s: Sys, p: Pty) {
    exists t :: t in s.threads && Owes(s, s.threads[t], p)
  }

  ghost predicate OthersOwe(s: Sys, t: Thread, p: Pty) {
    exists o :: o in s.threads && o != t && Owes(s, s.threads[o], p)
  }

  ghost predicate OthersHold(s: Sys, t: Thread, p: Pty) {
    exists o :: o in s.threads && o != t && Holds(s.threads[o], p)
  }

  /** A drainer that takes the entry can record it: by the PTY, or by the label. */
  ghost predicate IsSpooled(s: Sys, p: Pty) {
    p in s.spool && (s.spool[p].run.Some? || IsLinked(s, p))
  }

  /** The entry is there for the next drainer, and nobody is on the way to remove it. */
  ghost predicate Waits(s: Sys, p: Pty) {
    IsSpooled(s, p) && forall t :: t in s.threads ==> !Holds(s.threads[t], p)
  }

  /** The exit is recorded, or the run is open and the exit not seen yet, owed, or waiting in the spool. */
  ghost predicate InGoodHands(s: Sys, p: Pty) {
    && HasRun(s, p)
    && (HasEnded(s.db, RunOf(s, p))
        || (IsOpen(s.db, RunOf(s, p)) && (!IsKept(s, p) || Owed(s, p) || Waits(s, p))))
  }

  // ---- How they end, and begin again ----

  /** Thread `t` alone owes the exit. */
  ghost predicate IsLast(s: Sys, t: Thread, p: Pty) {
    IsKept(s, p) && Owes(s, At(s, t), p) && !OthersOwe(s, t, p)
  }

  /** But for `t`, the entry waits. */
  ghost predicate WaitsWithout(s: Sys, t: Thread, p: Pty) {
    IsSpooled(s, p) && !OthersHold(s, t, p)
  }

  /**
   The step gives the exit of `p` up: the launcher ends its run as refused although the host has
   started it, or the host starts it after that; the daemon cannot spool it so that it can be recorded;
   a client cannot read its entry; or the last thread that owes it dies or its call fails.
   */
  ghost predicate GivesUp(s: Sys, step: Step, p: Pty) {
    match step
    case StartLate(r, q) => q == p && r in s.unanswered && p !in s.procs && IsRefused(s.db, r)
    case EndRefused(r, _, ok) => ok && At(s, Launcher(r)).Refused? && IsOf(s, p, r) && IsOpen(s.db, r) && InGoodHands(s, p)
    case Keep(q, _, labelled, ok) =>
      && q == p && HasRun(s, p) && s.procs[p].code.Some? && !IsKept(s, p)
      && IsOpen(s.db, RunOf(s, p)) && !Owed(s, p) && !(ok && (IsLinked(s, p) || (labelled && Knows(s, p))))
    case TakeUnread(c, q) =>
      q == p && At(s, Client(c)).Idle? && HasRun(s, p) && IsOpen(s.db, RunOf(s, p)) && Waits(s, p) && !Owed(s, p)
    case Link(r, ok) =>
      At(s, Launcher(r)).Started? && !ok && !IsLinked(s, p) && IsLast(s, Launcher(r), p) && !WaitsWithout(s, Launcher(r), p)
    case AskHost(r, _, ok) =>
      At(s, Launcher(r)).Linked? && !(ok && Knows(s, p)) && IsLast(s, Launcher(r), p) && !WaitsWithout(s, Launcher(r), p)
    case EndByPty(t, ok) =>
      At(s, t).Ending? && !ok && IsLinked(s, p) && IsLast(s, t, p) && (At(s, t).next.Drain? || !WaitsWithout(s, t, p))
    case LookUp(t, ok) => At(s, t).Looking? && !ok && IsLast(s, t, p)
    case Attach(t, ok) => At(s, t).Attaching? && !ok && IsLast(s, t, p)
    case Crash(t) => IsLast(s, t, p) && !WaitsWithout(s, t, p)
    case _ => false
  }

  /** The run of `p` is open, and its exit in nobody's hands. */
  ghost predicate IsDropped(s: Sys, p: Pty) {
    HasRun(s, p) && IsOpen(s.db, RunOf(s, p)) && !InGoodHands(s, p)
  }

  /**
   The step takes a dropped exit up again: another delivery starts, a client takes the entry, whoever
   was to remove it dies or fails to, or a reconciler ends the run.
   */
  ghost predicate TakesUp(s: Sys, step: Step, p: Pty) {
    && IsDropped(s, p)
    && match step
       case Deliver(c, q, via, _) =>
         q == p && At(s, Client(c)).Idle? && IsLinked(s, p) && ((via.Settle? && Knows(s, p)) || via.Live?)
       case Take(c, q) => q == p && At(s, Client(c)).Idle? && IsSpooled(s, p)
       case Remove(t, ok) => !ok && (At(s, t).Removing? || At(s, t).Discarding?) && Holds(At(s, t), p) && WaitsWithout(s, t, p)
       case Crash(t) => Holds(At(s, t), p) && WaitsWithout(s, t, p)
       case EndGone(c, now, ok) =>
         ok && At(s, Client(c)).Listed? && RunOf(s, p) in GoneRuns(s.db, At(s, Client(c)).alive, now - PENDING_GRACE)
       case _ => false
  }

  /** The step gives up exactly what leaves good hands with it, and takes up exactly what comes back. */
  ghost predicate IsExact(s: Sys, step: Step, u: Sys, p: Pty) {
    && (GivesUp(s, step, p) <==> HasRun(u, p) && (HasRun(s, p) ==> InGoodHands(s, p)) && !InGoodHands(u, p))
    && (TakesUp(s, step, p) <==> HasRun(s, p) && !InGoodHands(s, p) && InGoodHands(u, p))
  }

  /** What the daemon has seen has a code, and the launcher of a refused run is through. */
  ghost predicate Orderly(s: Sys) {
    && (forall p :: IsKept(s, p) ==> s.procs[p].code.Some?)
    && (forall r :: IsRefused(s.db, r) ==> At(s, Launcher(r)).Finished? || At(s, Launcher(r)).Dead?)
  }

  // ---- One thread at a time ----

  /** What thread `t` makes of the exit, standing at `pc`, whatever the others do. */
  ghost predicate GoodWith(s: Sys, pc: Pc, othersOwe: bool, othersHold: bool, p: Pty) {
    && HasRun(s, p)
    && (HasEnded(s.db, RunOf(s, p))
        || (IsOpen(s.db, RunOf(s, p))
            && (!IsKept(s, p) || Owes(s, pc, p) || othersOwe || (IsSpooled(s, p) && !Holds(pc, p) && !othersHold))))
  }

  lemma Hands(s: Sys, t: Thread, p: Pty)
    ensures InGoodHands(s, p) <==> GoodWith(s, At(s, t), OthersOwe(s, t, p), OthersHold(s, t, p), p)
    ensures Owed(s, p) <==> Owes(s, At(s, t), p) || OthersOwe(s, t, p)
    ensures Waits(s, p) <==> IsSpooled(s, p) && !Holds(At(s, t), p) && !OthersHold(s, t, p)
  {
    hide Owes, Holds, IsSpooled;
    assert !Owes(s, Idle, p) && !Holds(Idle, p) by {
      NothingIdle(s, p);
    }
    assert t in s.threads ==> s.threads[t] == At(s, t);
  }

  lemma NothingIdle(s: Sys, p: Pty)
    ensures !Owes(s, Idle, p) && !Holds(Idle, p)
  {
  }

  /** The process of `p` and its run's row are as they were. */
  ghost predicate SameFor(s: Sys, u: Sys, p: Pty) {
    && HasRun(s, p) && p in u.procs && u.procs[p].run == s.procs[p].run
    && RunOf(s, p) in s.db.runs && RunOf(s, p) in u.db.runs && u.db.runs[RunOf(s, p)] == s.db.runs[RunOf(s, p)]
  }

  lemma OthersStay(s: Sys, u: Sys, t: Thread, p: Pty)
    requires SameFor(s, u, p) && (forall o :: o != t ==> (o in u.threads <==> o in s.threads) && At(u, o) == At(s, o))
    ensures OthersOwe(u, t, p) <==> OthersOwe(s, t, p)
    ensures OthersHold(u, t, p) <==> OthersHold(s, t, p)
  {
    hide Holds;
    forall pc: Pc ensures Owes(u, pc, p) <==> Owes(s, pc, p) {
      OwesStays(s, u, pc, p);
    }
    hide Owes;
    forall o | o in s.threads && o != t ensures o in u.threads && u.threads[o] == s.threads[o] {
      assert At(u, o) == At(s, o);
    }
    forall o | o in u.threads && o != t ensures o in s.threads && u.threads[o] == s.threads[o] {
      assert At(u, o) == At(s, o);
    }
  }

  lemma OwesStays(s: Sys, u: Sys, pc: Pc, p: Pty)
    requires SameFor(s, u, p)
    ensures Owes(u, pc, p) <==> Owes(s, pc, p)
  {
  }

  /** A step of thread `t` that leaves the process and the row alone: only what `t` does counts. */
  lemma ThreadHands(s: Sys, u: Sys, t: Thread, p: Pty)
    requires SameFor(s, u, p) && t in u.threads && u.threads == s.threads[t := u.threads[t]]
    ensures InGoodHands(s, p) <==> GoodWith(s, At(s, t), OthersOwe(s, t, p), OthersHold(s, t, p), p)
    ensures InGoodHands(u, p) <==> GoodWith(u, At(u, t), OthersOwe(s, t, p), OthersHold(s, t, p), p)
    ensures Owed(s, p) <==> Owes(s, At(s, t), p) || OthersOwe(s, t, p)
    ensures Waits(s, p) <==> IsSpooled(s, p) && !Holds(At(s, t), p) && !OthersHold(s, t, p)
    ensures Owes(u, At(u, t), p) <==> Owes(s, At(u, t), p)
    ensures IsLinked(u, p) <==> IsLinked(s, p)
  {
    hide InGoodHands, GoodWith, OthersOwe, OthersHold, Owes, Holds, Waits, Owed;
    Hands(s, t, p);
    Hands(u, t, p);
    OthersStay(s, u, t, p);
    OwesStays(s, u, At(u, t), p);
  }

  /** A thread that holds no entry and owes nothing, before and after, makes no difference. */
  lemma QuietHands(s: Sys, u: Sys, t: Thread, p: Pty)
    requires SameFor(s, u, p) && t in u.threads && u.threads == s.threads[t := u.threads[t]]
    requires u.procs[p] == s.procs[p] && (p in u.spool <==> p in s.spool) && (p in s.spool ==> u.spool[p] == s.spool[p])
    requires Owes(s, At(u, t), p) <==> Owes(s, At(s, t), p)
    requires Holds(At(u, t), p) <==> Holds(At(s, t), p)
    ensures InGoodHands(u, p) <==> InGoodHands(s, p)
  {
    hide Owes, Holds, InGoodHands, OthersOwe, OthersHold, Owed, Waits;
    ThreadHands(s, u, t, p);
  }

  /** A process's run is in the table, and linked to nothing but its process. */
  lemma OwnRow(s: Sys, p: Pty)
    requires Linkage(s) && HasRun(s, p)
    ensures RunOf(s, p) in s.db.runs
    ensures s.db.runs[RunOf(s, p)].pty.None? || IsLinked(s, p)
    ensures forall q, r :: IsOf(s, q, r) && q != p ==> r != RunOf(s, p)
    ensures forall q, r :: HasPty(s.db, r, q) && q != p ==> r != RunOf(s, p)
    ensures forall r :: HasPty(s.db, r, p) ==> r == RunOf(s, p)
  {
    forall q, r | HasPty(s.db, r, q) ensures IsOf(s, q, r) {
    }
  }

  /** What the invariant says of thread `t` and of the links. */
  lemma Stands(s: Sys, t: Thread)
    requires Safe(s)
    ensures PtyUnique(s.db) && Linkage(s) && (t in s.threads ==> PcOk(s, t, At(s, t)))
  {
    hide Recorded, WrittenOnce, Real, PcOk;
  }

  // ---- Step by step ----

  /** The step left the exit where it was, and is none of those that are named. */
  lemma NothingTurned(s: Sys, step: Step, u: Sys, p: Pty)
    requires HasRun(s, p) && HasRun(u, p) && !GivesUp(s, step, p) && !TakesUp(s, step, p)
    requires InGoodHands(u, p) <==> InGoodHands(s, p)
    ensures IsExact(s, step, u, p)
  {
  }

  lemma BeginExact(s: Sys, r: RunId, now: int, ok: bool, p: Pty)
    requires Linkage(s) && HasRun(s, p)
    ensures IsExact(s, Begin(r, now, ok), DoBegin(s, r, now, ok), p)
  {
    hide InGoodHands;
    OwnRow(s, p);
    var u := DoBegin(s, r, now, ok);
    if u != s {
      QuietHands(s, u, Launcher(r), p);
    }
  }

  lemma SpawnExact(s: Sys, r: RunId, q: Pty, ok: bool, p: Pty)
    requires Safe(s) && Orderly(s)
    ensures IsExact(s, Spawn(r, q, ok), DoSpawn(s, r, q, ok), p)
  {
    hide InGoodHands, Recorded, WrittenOnce, Real;
    var u := DoSpawn(s, r, q, ok);
    if HasRun(s, p) && u != s {
      OwnRow(s, p);
      QuietHands(s, u, Launcher(r), p);
    } else if u != s && ok && p == q {
      assert PcOk(s, Launcher(r), At(s, Launcher(r)));
      assert InGoodHands(u, p) by {
        JustSpawned(u, p);
      }
    }
  }

  lemma JustSpawned(u: Sys, p: Pty)
    requires HasRun(u, p) && !IsKept(u, p) && RunOf(u, p) in u.db.runs
    ensures InGoodHands(u, p) <==> !IsRefused(u.db, RunOf(u, p))
  {
    hide Owed, Waits;
  }

  lemma UnansweredExact(s: Sys, r: RunId, p: Pty)
    requires Linkage(s) && HasRun(s, p)
    ensures IsExact(s, SpawnUnanswered(r), Next(s, SpawnUnanswered(r)), p)
  {
    hide InGoodHands;
    OwnRow(s, p);
    var u := Next(s, SpawnUnanswered(r));
    if u != s {
      QuietHands(s, u, Launcher(r), p);
    }
  }

  lemma EndRefusedExact(s: Sys, r: RunId, now: int, ok: bool, p: Pty)
    requires Linkage(s) && HasRun(s, p)
    ensures IsExact(s, EndRefused(r, now, ok), DoEndRefused(s, r, now, ok), p)
  {
    hide InGoodHands;
    OwnRow(s, p);
    var u := DoEndRefused(s, r, now, ok);
    if At(s, Launcher(r)).Refused? {
      if RunOf(s, p) == r && ok && IsOpen(s.db, r) {
        NowRefused(u, p);
      } else {
        QuietHands(s, u, Launcher(r), p);
      }
    }
  }

  lemma NowRefused(u: Sys, p: Pty)
    requires HasRun(u, p) && IsRefused(u.db, RunOf(u, p))
    ensures !InGoodHands(u, p)
  {
  }

  lemma LinkExact(s: Sys, r: RunId, ok: bool, p: Pty)
    requires Safe(s) && HasRun(s, p)
    ensures PtyUnique(s.db) && IsExact(s, Link(r, ok), DoLink(s, r, ok), p)
  {
    hide InGoodHands, Safe, Linkage, PtyUnique;
    Stands(s, Launcher(r));
    var t, u := Launcher(r), DoLink(s, r, ok);
    OwnRow(s, p);
    if At(s, t).Started? {
      var q := At(s, t).pty;
      LinkGoesThrough(s, r, q);
      if q == p && ok {
        NowLinked(s, u, t, p);
      } else if q == p {
        NotLinked(s, r, p);
      } else {
        QuietHands(s, u, t, p);
      }
    }
  }

  lemma NotLinked(s: Sys, r: RunId, p: Pty)
    requires PtyUnique(s.db) && HasRun(s, p) && RunOf(s, p) in s.db.runs && At(s, Launcher(r)) == Started(p)
    ensures IsExact(s, Link(r, false), DoLink(s, r, false), p)
  {
    hide InGoodHands, OthersOwe, OthersHold, PtyUnique, Waits, Owed;
    ThreadHands(s, DoLink(s, r, false), Launcher(r), p);
  }

  /** Thread `t` owes the end of an open run, and has just linked it, or found it linked. */
  lemma NowLinked(s: Sys, u: Sys, t: Thread, p: Pty)
    requires HasRun(s, p) && u.procs == s.procs && t in s.threads && t in u.threads
    requires RunOf(s, p) in s.db.runs && RunOf(s, p) in u.db.runs && u.db.runs[RunOf(s, p)].end == s.db.runs[RunOf(s, p)].end
    requires IsOpen(s.db, RunOf(s, p)) ==> Owes(s, s.threads[t], p) && Owes(u, u.threads[t], p)
    ensures InGoodHands(s, p) <==> InGoodHands(u, p)
    ensures IsOpen(s.db, RunOf(s, p)) ==> InGoodHands(s, p)
  {
    hide Owes, Waits;
  }

  /** A run's own PTY is nobody else's, so linking it again goes through. */
  lemma LinkGoesThrough(s: Sys, r: RunId, p: Pty)
    requires Linkage(s) && IsOf(s, p, r)
    ensures RunSpawned(s.db, r, p).Some? && HasPty(RunSpawned(s.db, r, p).value, r, p)
  {
    forall other | other in s.db.runs && HasPty(s.db, other, p) ensures other == r {
      assert IsOf(s, p, other);
    }
  }

  /** A launcher that finds its process gone goes on to end its run; a call that fails leaves it to others. */
  lemma AskHostExact(s: Sys, r: RunId, now: int, ok: bool, p: Pty)
    requires Safe(s) && Orderly(s) && HasRun(s, p)
    ensures IsExact(s, AskHost(r, now, ok), DoAskHost(s, r, now, ok), p)
  {
    hide InGoodHands, OthersOwe, OthersHold, Waits, Owed, Safe, Linkage, PtyUnique;
    var t, u := Launcher(r), DoAskHost(s, r, now, ok);
    Stands(s, t);
    OwnRow(s, p);
    if At(s, t).Linked? {
      ThreadHands(s, u, t, p);
    }
  }

  lemma DeliverExact(s: Sys, c: nat, q: Pty, via: Via, now: int, p: Pty)
    requires Safe(s) && Orderly(s) && HasRun(s, p)
    ensures IsExact(s, Deliver(c, q, via, now), DoDeliver(s, c, q, via, now), p)
  {
    hide InGoodHands, OthersOwe, OthersHold, Waits, Owed, Safe, Linkage, PtyUnique;
    var t, u := Client(c), DoDeliver(s, c, q, via, now);
    Stands(s, t);
    OwnRow(s, p);
    Hands(s, t, p);
    if u != s {
      ThreadHands(s, u, t, p);
    }
  }

  lemma TakeExact(s: Sys, c: nat, q: Pty, p: Pty)
    requires Safe(s) && HasRun(s, p)
    ensures IsExact(s, Take(c, q), DoTake(s, c, q), p)
  {
    hide InGoodHands, OthersOwe, OthersHold, Recorded, WrittenOnce, Real;
    OwnRow(s, p);
    var t, u := Client(c), DoTake(s, c, q);
    if u != s {
      ThreadHands(s, u, t, p);
    }
  }

  lemma TakeUnreadExact(s: Sys, c: nat, q: Pty, p: Pty)
    requires Safe(s) && HasRun(s, p)
    ensures PtyUnique(s.db) && IsExact(s, TakeUnread(c, q), Next(s, TakeUnread(c, q)), p)
  {
    hide InGoodHands, OthersOwe, OthersHold, Recorded, WrittenOnce, Real, Waits, Owed;
    IsUnique(s);
    OwnRow(s, p);
    var t, u := Client(c), Next(s, TakeUnread(c, q));
    Hands(s, t, p);
    if u != s {
      assert EntryOk(s, s.spool[q]);
      ThreadHands(s, u, t, p);
    }
  }

  lemma EndByPtyExact(s: Sys, t: Thread, ok: bool, p: Pty)
    requires Safe(s) && HasRun(s, p)
    ensures PtyUnique(s.db) && IsExact(s, EndByPty(t, ok), DoEndByPty(s, t, ok), p)
  {
    hide InGoodHands, OthersOwe, OthersHold, Safe, Linkage, PtyUnique;
    Stands(s, t);
    var u := DoEndByPty(s, t, ok);
    OwnRow(s, p);
    if At(s, t).Ending? {
      if !ok {
        NotEnded(s, t, p);
      } else if At(s, t).pty == p && IsLinked(s, p) && IsOpen(s.db, RunOf(s, p)) {
        NowEnded(s, u, t, p);
      } else {
        NoneEnded(s, t, p);
      }
    }
  }

  lemma NotEnded(s: Sys, t: Thread, p: Pty)
    requires PtyUnique(s.db) && HasRun(s, p) && RunOf(s, p) in s.db.runs && At(s, t).Ending? && PcOk(s, t, At(s, t))
    ensures IsExact(s, EndByPty(t, false), DoEndByPty(s, t, false), p)
  {
    hide InGoodHands, OthersOwe, OthersHold, PtyUnique, Waits, Owed;
    ThreadHands(s, DoEndByPty(s, t, false), t, p);
  }

  /** No open run of `p` was linked to the PTY: whoever went on to adopt the exit still does. */
  lemma NoneEnded(s: Sys, t: Thread, p: Pty)
    requires Linkage(s) && HasRun(s, p) && At(s, t).Ending? && PcOk(s, t, At(s, t))
    requires !(At(s, t).pty == p && IsLinked(s, p) && IsOpen(s.db, RunOf(s, p)))
    ensures PtyUnique(s.db) && IsExact(s, EndByPty(t, true), DoEndByPty(s, t, true), p)
  {
    hide InGoodHands;
    OwnRow(s, p);
    var u := DoEndByPty(s, t, true);
    QuietHands(s, u, t, p);
  }

  /** Thread `t` owed the exit, and has just ended the run. */
  lemma NowEnded(s: Sys, u: Sys, t: Thread, p: Pty)
    requires HasRun(s, p) && HasRun(u, p) && IsOpen(s.db, RunOf(s, p)) && HasEnded(u.db, RunOf(u, p))
    requires t in s.threads && Owes(s, s.threads[t], p)
    ensures InGoodHands(s, p) && InGoodHands(u, p)
  {
    hide Owes, Waits;
  }

  lemma WriteExact(s: Sys, t: Thread, ok: bool, p: Pty)
    requires Linkage(s) && HasRun(s, p)
    ensures IsExact(s, Write(t, ok), DoWrite(s, t, ok), p)
  {
    hide InGoodHands, Linkage;
    OwnRow(s, p);
    if At(s, t).Writing? {
      QuietHands(s, DoWrite(s, t, ok), t, p);
    }
  }

  /** A drainer that calls an entry a duplicate leaves its exit in good hands if it was; a failed call does too. */
  lemma AskRunExact(s: Sys, t: Thread, ok: bool, p: Pty)
    requires Safe(s) && HasRun(s, p)
    ensures PtyUnique(s.db) && IsExact(s, AskRun(t, ok), DoAskRun(s, t, ok), p)
  {
    hide InGoodHands, Safe, Linkage, PtyUnique;
    Stands(s, t);
    OwnRow(s, p);
    if At(s, t).Asking? {
      AskedOwes(s, t, ok, p);
      QuietHands(s, DoAskRun(s, t, ok), t, p);
    }
  }

  /** Whoever went on to adopt the exit still does, the run found or not. */
  lemma AskedOwes(s: Sys, t: Thread, ok: bool, p: Pty)
    requires PtyUnique(s.db) && At(s, t).Asking? && PcOk(s, t, At(s, t))
    requires HasRun(s, p) && forall r :: HasPty(s.db, r, p) ==> r == RunOf(s, p)
    ensures var pc := At(DoAskRun(s, t, ok), t);
            (Owes(s, pc, p) <==> Owes(s, At(s, t), p)) && (Holds(pc, p) <==> Holds(At(s, t), p))
  {
    hide PtyUnique;
    var q := At(s, t).pty;
    assert RunByPty(s.db, q).Some? ==> HasPty(s.db, RunByPty(s.db, q).value, q);
    assert RunByPty(s.db, q).None? ==> !IsLinked(s, q);
  }

  lemma LookUpExact(s: Sys, t: Thread, ok: bool, p: Pty)
    requires Safe(s) && HasRun(s, p)
    ensures IsExact(s, LookUp(t, ok), DoLookUp(s, t, ok), p)
  {
    hide InGoodHands, OthersOwe, OthersHold, Waits, Owed, Safe, Linkage, PtyUnique;
    Stands(s, t);
    OwnRow(s, p);
    if At(s, t).Looking? {
      if At(s, t).entry.pty == p {
        ThreadHands(s, DoLookUp(s, t, ok), t, p);
      } else {
        QuietHands(s, DoLookUp(s, t, ok), t, p);
      }
    }
  }

  /** A drainer that adopts an early exit goes on to end the run, whoever links it meanwhile. */
  lemma AttachExact(s: Sys, t: Thread, ok: bool, p: Pty)
    requires Safe(s) && HasRun(s, p)
    ensures PtyUnique(s.db) && IsExact(s, Attach(t, ok), DoAttach(s, t, ok), p)
  {
    hide InGoodHands, Safe, Linkage, PtyUnique;
    Stands(s, t);
    var u := DoAttach(s, t, ok);
    OwnRow(s, p);
    if At(s, t).Attaching? {
      var e := At(s, t).entry;
      LinkGoesThrough(s, e.run.value, e.pty);
      assert IsOf(s, e.pty, e.run.value);
      if e.pty != p {
        QuietHands(s, u, t, p);
      } else if ok {
        NowLinked(s, u, t, p);
      } else {
        NotAttached(s, t, p);
      }
    }
  }

  lemma NotAttached(s: Sys, t: Thread, p: Pty)
    requires PtyUnique(s.db) && HasRun(s, p) && RunOf(s, p) in s.db.runs && At(s, t).Attaching? && At(s, t).entry.pty == p
    ensures IsExact(s, Attach(t, false), DoAttach(s, t, false), p)
  {
    hide InGoodHands, OthersOwe, OthersHold, Waits, Owed;
    ThreadHands(s, DoAttach(s, t, false), t, p);
  }

  lemma RemoveExact(s: Sys, t: Thread, ok: bool, p: Pty)
    requires Linkage(s) && HasRun(s, p)
    ensures IsExact(s, Remove(t, ok), DoRemove(s, t, ok), p)
  {
    hide InGoodHands, OthersOwe, OthersHold, Waits, Owed, Linkage;
    OwnRow(s, p);
    if At(s, t).Removing? || At(s, t).Discarding? {
      if Holds(At(s, t), p) {
        ThreadHands(s, DoRemove(s, t, ok), t, p);
      } else {
        QuietHands(s, DoRemove(s, t, ok), t, p);
      }
    }
  }

  lemma EndGoneExact(s: Sys, c: nat, now: int, ok: bool, p: Pty)
    requires Linkage(s) && HasRun(s, p)
    ensures IsExact(s, EndGone(c, now, ok), DoEndGone(s, c, now, ok), p)
  {
    hide InGoodHands, Linkage;
    OwnRow(s, p);
    var t, u := Client(c), DoEndGone(s, c, now, ok);
    if At(s, t).Listed? {
      if ok && RunOf(s, p) in GoneRuns(s.db, At(s, t).alive, now - PENDING_GRACE) {
        NowInterrupted(u, p);
      } else {
        QuietHands(s, u, t, p);
      }
    }
  }

  lemma NowInterrupted(u: Sys, p: Pty)
    requires HasRun(u, p) && HasEnded(u.db, RunOf(u, p))
    ensures InGoodHands(u, p)
  {
  }

  lemma WriteGoneExact(s: Sys, c: nat, r: RunId, now: int, ok: bool, p: Pty)
    requires Linkage(s) && HasRun(s, p)
    ensures IsExact(s, WriteGone(c, r, now, ok), DoWriteGone(s, c, r, now, ok), p)
  {
    hide InGoodHands;
    OwnRow(s, p);
    var u := DoWriteGone(s, c, r, now, ok);
    if u != s {
      QuietHands(s, u, Client(c), p);
    }
  }

  lemma ListAliveExact(s: Sys, c: nat, ok: bool, p: Pty)
    requires Linkage(s) && HasRun(s, p)
    ensures PtyUnique(s.db) && IsExact(s, ListAlive(c, ok), Next(s, ListAlive(c, ok)), p)
  {
    hide InGoodHands;
    OwnRow(s, p);
    var u := Next(s, ListAlive(c, ok));
    if u != s {
      QuietHands(s, u, Client(c), p);
    }
  }

  lemma CrashExact(s: Sys, t: Thread, p: Pty)
    requires Linkage(s) && PtyUnique(s.db) && HasRun(s, p)
    ensures IsExact(s, Crash(t), Next(s, Crash(t)), p)
  {
    hide InGoodHands, OthersOwe, OthersHold, Waits, Owed, Linkage, PtyUnique;
    OwnRow(s, p);
    ThreadHands(s, Next(s, Crash(t)), t, p);
  }

  /** No thread moved and nothing about `p` changed. */
  lemma DaemonHands(s: Sys, u: Sys, p: Pty)
    requires SameFor(s, u, p) && u.threads == s.threads && u.procs[p].kept == s.procs[p].kept
    requires (p in u.spool <==> p in s.spool) && (p in s.spool ==> u.spool[p] == s.spool[p])
    ensures InGoodHands(u, p) <==> InGoodHands(s, p)
  {
    hide Owes, Holds;
    forall t | t in s.threads ensures Owes(u, s.threads[t], p) <==> Owes(s, s.threads[t], p) {
      OwesStays(s, u, s.threads[t], p);
    }
  }

  lemma StartLateExact(s: Sys, r: RunId, q: Pty, p: Pty)
    requires Linkage(s)
    ensures PtyUnique(s.db) && IsExact(s, StartLate(r, q), DoStartLate(s, r, q), p)
  {
    hide InGoodHands;
    var u := DoStartLate(s, r, q);
    if HasRun(s, p) {
      OwnRow(s, p);
      DaemonHands(s, u, p);
    } else if u != s && p == q {
      JustSpawned(u, p);
    }
  }

  lemma UnrecordedExact(s: Sys, q: Pty, p: Pty)
    requires Linkage(s) && HasRun(s, p)
    ensures PtyUnique(s.db) && IsExact(s, SpawnUnrecorded(q), Next(s, SpawnUnrecorded(q)), p)
  {
    hide InGoodHands;
    OwnRow(s, p);
    DaemonHands(s, Next(s, SpawnUnrecorded(q)), p);
  }

  lemma ProcessExitsExact(s: Sys, q: Pty, code: int, p: Pty)
    requires Linkage(s) && HasRun(s, p)
    ensures IsExact(s, ProcessExits(q, code), DoProcessExits(s, q, code), p)
  {
    hide InGoodHands;
    OwnRow(s, p);
    DaemonHands(s, DoProcessExits(s, q, code), p);
  }

  lemma ForgetExact(s: Sys, q: Pty, p: Pty)
    requires Linkage(s) && HasRun(s, p)
    ensures PtyUnique(s.db) && IsExact(s, Forget(q), Next(s, Forget(q)), p)
  {
    hide InGoodHands;
    OwnRow(s, p);
    DaemonHands(s, Next(s, Forget(q)), p);
  }

  /** An exit the daemon sees waits in the spool, is owed, or is given up there. */
  lemma KeepExact(s: Sys, q: Pty, at: int, labelled: bool, ok: bool, p: Pty)
    requires Safe(s) && HasRun(s, p)
    ensures IsExact(s, Keep(q, at, labelled, ok), DoKeep(s, q, at, labelled, ok), p)
  {
    hide InGoodHands, Linkage, Recorded, WrittenOnce, Real, PcOk, Owed, Waits;
    OwnRow(s, p);
    var u := DoKeep(s, q, at, labelled, ok);
    if q == p && u != s {
      NowKept(s, p, at, labelled, ok);
    } else if q != p {
      DaemonHands(s, u, p);
    }
  }

  lemma NowKept(s: Sys, p: Pty, at: int, labelled: bool, ok: bool)
    requires Threads(s) && HasRun(s, p) && RunOf(s, p) in s.db.runs && DoKeep(s, p, at, labelled, ok) != s
    ensures var u := DoKeep(s, p, at, labelled, ok);
            && (InGoodHands(s, p) <==> !IsRefused(s.db, RunOf(s, p)))
            && (InGoodHands(u, p) <==>
                (HasEnded(s.db, RunOf(s, p))
                 || (IsOpen(s.db, RunOf(s, p)) && (Owed(s, p) || (ok && (IsLinked(s, p) || (labelled && Knows(s, p))))))))
  {
    hide Owes;
    var u := DoKeep(s, p, at, labelled, ok);
    forall t | t in s.threads
      ensures Owes(u, s.threads[t], p) <==> Owes(s, s.threads[t], p)
      ensures !Holds(s.threads[t], p)
    {
      OwesStays(s, u, s.threads[t], p);
      assert PcOk(s, t, s.threads[t]);
    }
    assert p !in s.spool;
  }

  // ---- Every step ----

  lemma NoRunExact(s: Sys, step: Step, p: Pty)
    requires PtyUnique(s.db) && !HasRun(s, p) && !step.Spawn? && !step.StartLate?
    ensures IsExact(s, step, Next(s, step), p)
  {
    hide Next, InGoodHands, OthersOwe, OthersHold, Waits, Owed, Holds;
    NoRunStays(s, step, p);
  }

  lemma NoRunStays(s: Sys, step: Step, p: Pty)
    requires PtyUnique(s.db) && !HasRun(s, p) && !step.Spawn? && !step.StartLate?
    ensures !HasRun(Next(s, step), p)
  {
    hide PtyUnique;
  }

  /**
   The main step: whatever the step, `GivesUp` names it exactly when an exit leaves good hands with it,
   and `TakesUp` exactly when one comes back into them.
   */
  lemma NextExact(s: Sys, step: Step, p: Pty)
    requires Safe(s) && Orderly(s)
    ensures PtyUnique(s.db) && IsExact(s, step, Next(s, step), p)
  {
    hide Safe, Orderly, IsExact, Linkage;
    IsUnique(s);
    SafeLinkage(s);
    if step.Spawn? {
      SpawnExact(s, step.run, step.pty, step.ok, p);
    } else if step.StartLate? {
      StartLateExact(s, step.run, step.pty, p);
    } else if !HasRun(s, p) {
      NoRunExact(s, step, p);
    } else if OfLaunch(step) {
      LaunchExact(s, step, p);
    } else {
      ClientExact(s, step, p);
    }
  }

  lemma SafeLinkage(s: Sys)
    requires Safe(s)
    ensures Linkage(s)
  {
    hide Linkage, Threads, Recorded, WrittenOnce, Real;
  }

  lemma LaunchExact(s: Sys, step: Step, p: Pty)
    requires Safe(s) && Orderly(s) && PtyUnique(s.db) && Linkage(s) && HasRun(s, p)
    requires OfLaunch(step) && !step.Spawn? && !step.StartLate?
    ensures IsExact(s, step, Next(s, step), p)
  {
    hide Safe, Orderly, IsExact, Linkage, PtyUnique, HasRun;
    match step
    case Begin(r, now, ok) => BeginExact(s, r, now, ok, p);
    case SpawnUnanswered(r) => UnansweredExact(s, r, p);
    case SpawnUnrecorded(q) => UnrecordedExact(s, q, p);
    case EndRefused(r, now, ok) => EndRefusedExact(s, r, now, ok, p);
    case Link(r, ok) => LinkExact(s, r, ok, p);
    case AskHost(r, now, ok) => AskHostExact(s, r, now, ok, p);
    case ProcessExits(q, code) => ProcessExitsExact(s, q, code, p);
    case Forget(q) => ForgetExact(s, q, p);
    case Keep(q, at, labelled, ok) => KeepExact(s, q, at, labelled, ok, p);
  }

  lemma ClientExact(s: Sys, step: Step, p: Pty)
    requires Safe(s) && Orderly(s) && PtyUnique(s.db) && Linkage(s) && HasRun(s, p) && !OfLaunch(step)
    ensures IsExact(s, step, Next(s, step), p)
  {
    hide Safe, Orderly, IsExact, Linkage, PtyUnique, HasRun;
    match step
    case Deliver(c, q, via, now) => DeliverExact(s, c, q, via, now, p);
    case Take(c, q) => TakeExact(s, c, q, p);
    case TakeUnread(c, q) => TakeUnreadExact(s, c, q, p);
    case EndByPty(t, ok) => EndByPtyExact(s, t, ok, p);
    case Write(t, ok) => WriteExact(s, t, ok, p);
    case AskRun(t, ok) => AskRunExact(s, t, ok, p);
    case LookUp(t, ok) => LookUpExact(s, t, ok, p);
    case Attach(t, ok) => AttachExact(s, t, ok, p);
    case Remove(t, ok) => RemoveExact(s, t, ok, p);
    case ListAlive(c, ok) => ListAliveExact(s, c, ok, p);
    case EndGone(c, now, ok) => EndGoneExact(s, c, now, ok, p);
    case WriteGone(c, r, now, ok) => WriteGoneExact(s, c, r, now, ok, p);
    case Crash(t) => CrashExact(s, t, p);
  }

  // ---- What stays orderly ----

  lemma NextOrderly(s: Sys, step: Step)
    requires PtyUnique(s.db) && Orderly(s)
    ensures Orderly(Next(s, step))
  {
    hide Next, IsKept, PtyUnique;
    KeptHaveCodes(s, step);
    ThroughStays(s, step);
    forall r | IsRefused(Next(s, step).db, r) ensures At(Next(s, step), Launcher(r)).Finished? || At(Next(s, step), Launcher(r)).Dead? {
      if !IsRefused(s.db, r) {
        EndedBy(s, step, r);
        RefusedIsThrough(s, step);
      }
    }
  }

  lemma RefusedIsThrough(s: Sys, step: Step)
    requires PtyUnique(s.db) && step.EndRefused? && At(s, Launcher(step.run)).Refused?
    ensures At(Next(s, step), Launcher(step.run)).Finished?
  {
  }

  lemma KeptHaveCodes(s: Sys, step: Step)
    requires PtyUnique(s.db) && forall p :: IsKept(s, p) ==> s.procs[p].code.Some?
    ensures forall p :: IsKept(Next(s, step), p) ==> Next(s, step).procs[p].code.Some?
  {
    hide PtyUnique;
  }

  lemma ThroughStays(s: Sys, step: Step)
    requires PtyUnique(s.db)
    ensures forall t :: At(s, t).Finished? || At(s, t).Dead? ==> At(Next(s, step), t).Finished? || At(Next(s, step), t).Dead?
  {
    hide PtyUnique;
    if step.EndByPty? || step.AskRun? || step.Attach? || step.LookUp? || step.Write? || step.Remove? {
      ThroughRecording(s, step);
    }
  }

  lemma ThroughRecording(s: Sys, step: Step)
    requires PtyUnique(s.db) && (step.EndByPty? || step.AskRun? || step.Attach? || step.LookUp? || step.Write? || step.Remove?)
    ensures forall t :: At(s, t).Finished? || At(s, t).Dead? ==> At(Next(s, step), t).Finished? || At(Next(s, step), t).Dead?
  {
    hide PtyUnique;
  }
}
