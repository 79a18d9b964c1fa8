/**
 What whole schedules come to: which exits are lost, when an entry leaves the spool, when a run whose
 process is gone is left open or refused, when the event of an ended run is missing, and what a
 reconciler calls interrupted.
 */
module ExitOutcome {
  import opened ActivityStore
  import opened ExitDelivery
  import opened ExitEvents
  import opened ExitHistory
  import opened ExitProtocol
  import opened ExitSafety
  import opened Options

  // ---- What a schedule gave up and lost ----

  ghost predicate GivesUpAt(steps: seq<Step>, i: nat, p: Pty) {
    i < |steps| && GivesUp(After(START, steps[..i]), steps[i], p)
  }

  ghost predicate TakesUpAt(steps: seq<Step>, i: nat, p: Pty) {
    i < |steps| && TakesUp(After(START, steps[..i]), steps[i], p)
  }

  /** Some step of the schedule gave up the exit of `p`, and no later one took it up again. */
  ghost predicate WasLost(steps: seq<Step>, p: Pty) {
    exists i: nat :: GivesUpAt(steps, i, p) && forall j: nat :: i < j < |steps| ==> !TakesUpAt(steps, j, p)
  }

  /** Some step of the schedule lost the event of `r`. */
  ghost predicate LostEvent(steps: seq<Step>, r: RunId) {
    exists i :: 0 <= i < |steps| && LosesEvent(After(START, steps[..i]), steps[i], r)
  }

  ghost predicate NoReconciler(steps: seq<Step>) {
    forall i :: 0 <= i < |steps| ==> !steps[i].EndGone?
  }

  ghost predicate Invariant(s: Sys, lost: set<RunId>) {
    Safe(s) && Orderly(s) && Accounted(s, lost)
  }

  lemma LostSince(steps: seq<Step>, step: Step, p: Pty)
    ensures WasLost(steps + [step], p) <==>
            GivesUp(After(START, steps), step, p) || (WasLost(steps, p) && !TakesUp(After(START, steps), step, p))
  {
    hide GivesUp, TakesUp, After;
    var more := steps + [step];
    assert more[..|steps|] == steps && more[|steps|] == step;
    assert forall i: nat :: i < |steps| ==> more[..i] == steps[..i] && more[i] == steps[i];
    assert forall i: nat :: i < |steps| ==> (GivesUpAt(more, i, p) <==> GivesUpAt(steps, i, p)) && (TakesUpAt(more, i, p) <==> TakesUpAt(steps, i, p));
    assert GivesUpAt(more, |steps|, p) <==> GivesUp(After(START, steps), step, p);
    assert TakesUpAt(more, |steps|, p) <==> TakesUp(After(START, steps), step, p);
    hide GivesUpAt, TakesUpAt;
    if WasLost(more, p) {
      LostBefore(steps, step, p);
    } else if WasLost(steps, p) {
      LostStill(steps, step, p);
    }
  }

  lemma LostBefore(steps: seq<Step>, step: Step, p: Pty)
    requires var more := steps + [step];
             && WasLost(more, p)
             && (forall i: nat :: i < |steps| ==> (GivesUpAt(more, i, p) <==> GivesUpAt(steps, i, p)) && (TakesUpAt(more, i, p) <==> TakesUpAt(steps, i, p)))
    ensures var more := steps + [step];
            GivesUpAt(more, |steps|, p) || (WasLost(steps, p) && !TakesUpAt(more, |steps|, p))
  {
    hide GivesUp, TakesUp, After;
    var more := steps + [step];
    var i: nat :| GivesUpAt(more, i, p) && forall j: nat :: i < j < |more| ==> !TakesUpAt(more, j, p);
    if i < |steps| {
      assert GivesUpAt(steps, i, p);
    }
  }

  lemma LostStill(steps: seq<Step>, step: Step, p: Pty)
    requires var more := steps + [step];
             && WasLost(steps, p) && !WasLost(more, p)
             && (forall i: nat :: i < |steps| ==> (GivesUpAt(more, i, p) <==> GivesUpAt(steps, i, p)) && (TakesUpAt(more, i, p) <==> TakesUpAt(steps, i, p)))
    ensures TakesUpAt(steps + [step], |steps|, p)
  {
    hide GivesUp, TakesUp, After;
    var i: nat :| GivesUpAt(steps, i, p) && forall j: nat :: i < j < |steps| ==> !TakesUpAt(steps, j, p);
    assert GivesUpAt(steps + [step], i, p);
  }

  lemma EventLostSince(steps: seq<Step>, step: Step, r: RunId)
    ensures LostEvent(steps + [step], r) <==> LostEvent(steps, r) || LosesEvent(After(START, steps), step, r)
  {
    hide LosesEvent, After;
    var more := steps + [step];
    assert more[..|steps|] == steps && more[|steps|] == step;
    assert forall i :: 0 <= i < |steps| ==> more[..i] == steps[..i] && more[i] == steps[i];
  }

  /** In every schedule: `lost` has the runs whose event it lost. */
  lemma {:induction false} EveryInvariant(steps: seq<Step>) returns (lost: set<RunId>)
    ensures Invariant(After(START, steps), lost)
    ensures forall r :: r in lost <==> LostEvent(steps, r)
    decreases |steps|
  {
    if steps == [] {
      lost := {};
    } else {
      hide Invariant, LostEvent, LosesEvent, After;
      var n := |steps| - 1;
      var s, step := After(START, steps[..n]), steps[n];
      var before := EveryInvariant(steps[..n]);
      AfterLast(steps);
      lost := before + LostNow(s, step);
      NextInvariant(s, step, before, lost);
      forall r ensures r in lost <==> LostEvent(steps, r) {
        EventLostSince(steps[..n], step, r);
      }
    }
  }

  ghost function LostNow(s: Sys, step: Step): (lost: set<RunId>)
    ensures forall r :: r in lost <==> LosesEvent(s, step, r)
  {
    match step
    case Write(t, ok) => if !ok && At(s, t).Writing? then {At(s, t).exit.run} else {}
    case WriteGone(c, q, _, ok) => if !ok && At(s, Client(c)).Closing? && q in At(s, Client(c)).gone then {q} else {}
    case Crash(t) => Pending(At(s, t))
    case _ => {}
  }

  lemma NextInvariant(s: Sys, step: Step, lost: set<RunId>, more: set<RunId>)
    requires Invariant(s, lost)
    requires forall r :: r in more <==> r in lost || LosesEvent(s, step, r)
    ensures PtyUnique(s.db) && Invariant(Next(s, step), more)
  {
    hide Safe, Accounted, Orderly, LosesEvent;
    IsUnique(s);
    NextSafe(s, step);
    NextAccounted(s, step, lost, more);
    NextOrderly(s, step);
  }

  // ---- Exits that are lost ----

  /**
   In every schedule, whatever fails and whoever dies: the exit of a process started for a run is in
   good hands unless some step gave it up and no later one took it up again.
   */
  lemma {:induction false} LostIff(steps: seq<Step>, p: Pty)
    ensures var s := After(START, steps); HasRun(s, p) && !InGoodHands(s, p) <==> WasLost(steps, p)
    decreases |steps|
  {
    hide After, InGoodHands, WasLost, GivesUp, TakesUp;
    if steps == [] {
      NothingYet();
      NothingLostYet(p);
    } else {
      var n := |steps| - 1;
      var s := After(START, steps[..n]);
      AfterLast(steps);
      LostIff(steps[..n], p);
      LostSince(steps[..n], steps[n], p);
      var lost := EveryInvariant(steps[..n]);
      NextSafe(s, steps[n]);
      NextExact(s, steps[n], p);
    }
  }

  lemma NothingLostYet(p: Pty)
    ensures !WasLost([], p)
  {
  }

  /**
   A thread is about to take an entry out of the spool: exactly when its exit was not lost, the run
   has ended or another thread goes on to end it.
   */
  lemma EntryLeavesSettled(steps: seq<Step>, t: Thread, p: Pty)
    requires var s := After(START, steps);
             HasRun(s, p) && (At(s, t).Removing? || At(s, t).Discarding?) && Holds(At(s, t), p)
    ensures var s := After(START, steps);
            HasEnded(s.db, RunOf(s, p)) || OthersOwe(s, t, p) <==> !WasLost(steps, p)
  {
    hide After, WasLost, InGoodHands, OthersOwe, OthersHold, Owed, Waits, Accounted, Recorded, WrittenOnce, Real, Linkage;
    var s := After(START, steps);
    var lost := EveryInvariant(steps);
    LostIff(steps, p);
    Hands(s, t, p);
    assert PcOk(s, t, At(s, t));
    if OthersOwe(s, t, p) {
      WhoOwesIsOpen(s, t, p);
    }
  }

  lemma WhoOwesIsOpen(s: Sys, t: Thread, p: Pty)
    requires HasRun(s, p) && OthersOwe(s, t, p)
    ensures IsOpen(s.db, RunOf(s, p))
  {
  }

  /** The daemon has seen the exit of `p`, it is not in the spool, and no thread goes on to record it. */
  ghost predicate IsOver(s: Sys, p: Pty) {
    HasRun(s, p) && IsKept(s, p) && p !in s.spool && !Owed(s, p)
  }

  /**
   Once the exit of a process started for a run is over, the run has ended exactly when the exit was
   not lost; and a run called exited is linked to its process and has the real code.
   */
  lemma NoExitLost(steps: seq<Step>, p: Pty)
    requires IsOver(After(START, steps), p)
    ensures var s := After(START, steps);
            var r := RunOf(s, p);
            && r in s.db.runs
            && (HasEnded(s.db, r) <==> !WasLost(steps, p))
            && (HasEnded(s.db, r) && s.db.runs[r].end.value.reason.Exited? ==>
                  HasPty(s.db, r, p) && s.procs[p].code.Some? && s.db.runs[r].end.value.code == s.procs[p].code)
  {
    hide WasLost, After, Accounted, Orderly, Safe, Linkage, Owed, Holds;
    var s := After(START, steps);
    var lost := EveryInvariant(steps);
    LostIff(steps, p);
    SafeLinkage(s);
    OwnRow(s, p);
    if HasEnded(s.db, RunOf(s, p)) {
      ExitedHasRealCode(s, p);
    }
  }

  lemma ExitedHasRealCode(s: Sys, p: Pty)
    requires Safe(s) && HasRun(s, p) && HasEnded(s.db, RunOf(s, p))
    ensures var r := RunOf(s, p);
            s.db.runs[r].end.value.reason.Exited? ==>
              HasPty(s.db, r, p) && s.procs[p].code.Some? && s.db.runs[r].end.value.code == s.procs[p].code
  {
    hide Threads, Recorded, WrittenOnce;
    var r := RunOf(s, p);
    if s.db.runs[r].end.value.reason.Exited? {
      var q :| HasPty(s.db, r, q) && q in s.procs && s.procs[q].code.Some? && s.procs[q].code == s.db.runs[r].end.value.code;
      assert IsOf(s, q, r);
    }
  }

  // ---- Refused runs ----

  /** The host starts the process of a spawn that nobody waits for any more. */
  ghost predicate StartsLate(s: Sys, step: Step, p: Pty) {
    step.StartLate? && step.pty == p && step.run in s.unanswered && p !in s.procs
  }

  ghost predicate StartedLate(steps: seq<Step>, p: Pty) {
    exists i :: 0 <= i < |steps| && StartsLate(After(START, steps[..i]), steps[i], p)
  }

  lemma LateSince(steps: seq<Step>, step: Step, p: Pty)
    ensures StartedLate(steps + [step], p) <==> StartedLate(steps, p) || StartsLate(After(START, steps), step, p)
  {
    hide StartsLate, After;
    var more := steps + [step];
    assert more[..|steps|] == steps && more[|steps|] == step;
    assert forall i :: 0 <= i < |steps| ==> more[..i] == steps[..i] && more[i] == steps[i];
  }

  /** Ended as refused, or about to be. */
  ghost predicate IsTurnedDown(s: Sys, p: Pty) {
    HasRun(s, p) && (IsRefused(s.db, RunOf(s, p)) || At(s, Launcher(RunOf(s, p))).Refused?)
  }

  lemma TurnedDownNow(s: Sys, step: Step, p: Pty)
    requires Safe(s) && Orderly(s) && PtyUnique(s.db) && IsTurnedDown(Next(s, step), p)
    ensures IsTurnedDown(s, p) || StartsLate(s, step, p)
  {
    hide Safe, Linkage, PtyUnique;
    SafeLinkage(s);
    if HasRun(s, p) {
      OwnRow(s, p);
      StillTurnedDown(s, step, p);
    } else if !step.Spawn? && !step.StartLate? {
      NoRunStays(s, step, p);
    } else if step.Spawn? {
      SpawnedNotTurnedDown(s, step.run, step.pty, step.ok, p);
    }
  }

  lemma SpawnedNotTurnedDown(s: Sys, r: RunId, q: Pty, ok: bool, p: Pty)
    requires Orderly(s) && !HasRun(s, p) && HasRun(DoSpawn(s, r, q, ok), p)
    ensures !IsTurnedDown(DoSpawn(s, r, q, ok), p)
  {
  }

  lemma StillTurnedDown(s: Sys, step: Step, p: Pty)
    requires Linkage(s) && PtyUnique(s.db) && HasRun(s, p) && IsTurnedDown(Next(s, step), p)
    ensures IsTurnedDown(s, p)
  {
    hide Next, PtyUnique;
    var r := RunOf(s, p);
    RunStays(s, step, p);
    if IsRefused(Next(s, step).db, r) {
      if !IsRefused(s.db, r) {
        EndedBy(s, step, r);
      }
    } else {
      RefusedBefore(s, step, r);
    }
  }

  lemma RunStays(s: Sys, step: Step, p: Pty)
    requires PtyUnique(s.db) && HasRun(s, p)
    ensures HasRun(Next(s, step), p) && RunOf(Next(s, step), p) == RunOf(s, p)
  {
    hide PtyUnique;
  }

  lemma RefusedBefore(s: Sys, step: Step, r: RunId)
    requires PtyUnique(s.db) && At(Next(s, step), Launcher(r)).Refused?
    ensures At(s, Launcher(r)).Refused? || At(s, Launcher(r)).Begun?
  {
    hide PtyUnique;
    if step.EndByPty? || step.AskRun? || step.Attach? || step.LookUp? || step.Write? || step.Remove? {
      RecordingRefusesNone(s, step, r);
    }
  }

  lemma RecordingRefusesNone(s: Sys, step: Step, r: RunId)
    requires PtyUnique(s.db) && At(Next(s, step), Launcher(r)).Refused?
    requires step.EndByPty? || step.AskRun? || step.Attach? || step.LookUp? || step.Write? || step.Remove?
    ensures At(s, Launcher(r)).Refused?
  {
    hide PtyUnique;
  }

  /** A run that was refused has a process only if its spawn's answer was lost and the process started late. */
  lemma {:induction false} RefusedStartedLate(steps: seq<Step>, p: Pty)
    requires IsTurnedDown(After(START, steps), p)
    ensures StartedLate(steps, p)
    decreases |steps|
  {
    hide After, IsTurnedDown, StartedLate, StartsLate, Safe, Orderly, Accounted;
    if steps == [] {
      NothingYet();
      NobodyTurnedDownYet(p);
      assert false;
    } else {
      var n := |steps| - 1;
      var s := After(START, steps[..n]);
      AfterLast(steps);
      LateSince(steps[..n], steps[n], p);
      var lost := EveryInvariant(steps[..n]);
      TurnedDownNow(s, steps[n], p);
      if IsTurnedDown(s, p) {
        RefusedStartedLate(steps[..n], p);
      }
    }
  }

  lemma NobodyTurnedDownYet(p: Pty)
    ensures !IsTurnedDown(START, p)
  {
  }

  /**
   Once the exit is over, the run is left open exactly when the exit was lost and the run was not
   refused; unless its process was started late, exactly when the exit was lost.
   */
  lemma LeftOpenIff(steps: seq<Step>, p: Pty)
    requires IsOver(After(START, steps), p)
    ensures var s := After(START, steps);
            && (IsOpen(s.db, RunOf(s, p)) <==> WasLost(steps, p) && !IsRefused(s.db, RunOf(s, p)))
            && (!StartedLate(steps, p) ==> (IsOpen(s.db, RunOf(s, p)) <==> WasLost(steps, p)))
  {
    hide WasLost, StartedLate, After, Owed;
    NoExitLost(steps, p);
    if IsTurnedDown(After(START, steps), p) {
      RefusedStartedLate(steps, p);
    }
  }

  // ---- Without a reconciler ----

  ghost predicate Interruption(db: Db, r: RunId) {
    r in db.runs && db.runs[r].end.Some? && db.runs[r].end.value.reason.Interrupted?
  }

  /** Only a reconciler calls a run interrupted. */
  lemma {:induction false} OnlyReconcilersInterrupt(steps: seq<Step>, r: RunId)
    requires NoReconciler(steps)
    ensures !Interruption(After(START, steps).db, r)
    decreases |steps|
  {
    hide After;
    if steps == [] {
      NothingYet();
    } else {
      var n := |steps| - 1;
      var s := After(START, steps[..n]);
      AfterLast(steps);
      OnlyReconcilersInterrupt(steps[..n], r);
      if Interruption(After(START, steps).db, r) {
        hide Next;
        EndedBy(s, steps[n], r);
      }
    }
  }

  /** Without one, once the exit is over, the run is recorded as exited with its real code exactly when the exit was not lost. */
  lemma EveryExitRecorded(steps: seq<Step>, p: Pty)
    requires NoReconciler(steps) && IsOver(After(START, steps), p)
    ensures var s := After(START, steps);
            var r := RunOf(s, p);
            !WasLost(steps, p) <==>
            && r in s.db.runs && s.db.runs[r].end.Some?
            && s.db.runs[r].end.value.reason == Exited
            && s.procs[p].code.Some? && s.db.runs[r].end.value.code == s.procs[p].code
  {
    hide After, WasLost, Owed;
    NoExitLost(steps, p);
    OnlyReconcilersInterrupt(steps, RunOf(After(START, steps), p));
  }

  /** The event of an ended run that nobody is about to write is there exactly when no step lost it. */
  lemma EventThereIff(steps: seq<Step>, r: RunId)
    requires var s := After(START, steps); HasEnded(s.db, r) && !IsPending(s, r)
    ensures HasExit(After(START, steps).db, r) <==> !LostEvent(steps, r)
  {
    hide After, Safe, Orderly, LostEvent;
    var lost := EveryInvariant(steps);
    var s := After(START, steps);
    assert r in lost ==> IsUnwritten(s, r);
  }

  // ---- The reconciler ----

  /** Only a listing brings a client to where it interrupts. */
  lemma ListedStep(s: Sys, step: Step, c: nat)
    requires PtyUnique(s.db) && At(Next(s, step), Client(c)).Listed?
    ensures At(s, Client(c)) == At(Next(s, step), Client(c))
         || (step.ListAlive? && step.client == c && At(s, Client(c)).Idle? && At(Next(s, step), Client(c)) == Listed(Listing(s, step.ok)))
  {
    hide PtyUnique;
    if step.EndByPty? || step.AskRun? || step.Attach? || step.LookUp? || step.Write? || step.Remove? {
      RecordingListsNone(s, step, c);
    }
  }

  lemma RecordingListsNone(s: Sys, step: Step, c: nat)
    requires PtyUnique(s.db) && At(Next(s, step), Client(c)).Listed?
    requires step.EndByPty? || step.AskRun? || step.Attach? || step.LookUp? || step.Write? || step.Remove?
    ensures At(s, Client(c)) == At(Next(s, step), Client(c))
  {
    hide PtyUnique;
  }

  /** The `i`-th step is the listing that client `c` goes by. */
  ghost predicate IsListing(steps: seq<Step>, c: nat, i: nat) {
    && i < |steps| && steps[i].ListAlive? && steps[i].client == c
    && At(After(START, steps[..i]), Client(c)).Idle?
    && At(After(START, steps), Client(c)) == Listed(Listing(After(START, steps[..i]), steps[i].ok))
    && forall j :: i < j <= |steps| ==> At(After(START, steps[..j]), Client(c)).Listed?
  }

  lemma {:induction false} ListedBy(steps: seq<Step>, c: nat) returns (i: nat)
    requires At(After(START, steps), Client(c)).Listed?
    ensures IsListing(steps, c, i)
    decreases |steps|
  {
    hide After;
    if steps == [] {
      NothingYet();
      assert false;
    } else {
      var n := |steps| - 1;
      var s := After(START, steps[..n]);
      AfterLast(steps);
      ListedStep(s, steps[n], c);
      assert steps[..|steps|] == steps;
      if At(s, Client(c)).Listed? {
        i := ListedBy(steps[..n], c);
        assert forall j :: 0 <= j <= n ==> steps[..n][..j] == steps[..j];
      } else {
        i := n;
      }
    }
  }

  lemma InterruptedIffNotListed(s: Sys, c: nat, now: int, r: RunId)
    requires PtyUnique(s.db) && At(s, Client(c)).Listed? && IsOpen(s.db, r)
    ensures Interruption(Next(s, EndGone(c, now, true)).db, r) <==>
            match s.db.runs[r].pty
            case Some(p) => p !in At(s, Client(c)).alive
            case None => s.db.runs[r].startedAt < now - PENDING_GRACE
  {
  }

  /**
   In every schedule a reconciler interrupts a linked open run, its process running or not, exactly
   when its list came back empty from a failed call, or was read when the host did not know the
   process: before it was spawned, or after the host was told to remove it. An unlinked open run it
   interrupts exactly when more than the grace period has passed since that run began, its process
   running or not.
   */
  lemma InterruptedIff(steps: seq<Step>, c: nat, now: int, r: RunId) returns (i: nat, b: nat)
    requires var s := After(START, steps); At(s, Client(c)).Listed? && IsOpen(s.db, r)
    ensures IsListing(steps, c, i) && BeginsAt(steps, b, r)
    ensures var s := After(START, steps);
            Interruption(Next(s, EndGone(c, now, true)).db, r) <==>
            match s.db.runs[r].pty
            case Some(p) => !steps[i].ok || !Knows(After(START, steps[..i]), p)
            case None => now - steps[b].now > 60_000
  {
    hide After;
    i := ListedBy(steps, c);
    b := RowBegun(steps, r);
    InterruptedIffNotListed(After(START, steps), c, now, r);
  }

  /** A process that runs and that the host was not told to remove was not yet spawned, or the call failed. */
  lemma RunningInterruptedIff(steps: seq<Step>, c: nat, now: int, r: RunId, p: Pty) returns (i: nat)
    requires var s := After(START, steps);
             At(s, Client(c)).Listed? && IsOpen(s.db, r) && HasPty(s.db, r, p) && Knows(s, p) && s.procs[p].code.None?
    ensures IsListing(steps, c, i)
    ensures Interruption(Next(After(START, steps), EndGone(c, now, true)).db, r) <==>
            !steps[i].ok || p !in After(START, steps[..i]).procs
  {
    hide After;
    var b: nat;
    i, b := InterruptedIff(steps, c, now, r);
    if p in After(START, steps[..i]).forgotten {
      ForgottenStays(steps, i, p);
    }
  }

  lemma {:induction false} ForgottenStays(steps: seq<Step>, i: nat, p: Pty)
    requires i <= |steps| && p in After(START, steps[..i]).forgotten
    ensures p in After(START, steps).forgotten
    decreases |steps| - i
  {
    hide After;
    if i == |steps| {
      assert steps[..i] == steps;
    } else {
      assert steps[..i + 1][..i] == steps[..i];
      AfterLast(steps[..i + 1]);
      ForgottenNext(After(START, steps[..i]), steps[i]);
      ForgottenStays(steps, i + 1, p);
    }
  }

  lemma ForgottenNext(s: Sys, step: Step)
    requires PtyUnique(s.db)
    ensures s.forgotten <= Next(s, step).forgotten
  {
  }
}
