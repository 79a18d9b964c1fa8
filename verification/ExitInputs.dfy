/**
 Schedules at which an exit is lost and at which a live run is called interrupted, step by step. In
 all of them run 0 starts process 5, and client 0 drains or reconciles.
 */
module ExitInputs {
  import opened ActivityStore
  import opened ExitDelivery
  import opened ExitHistory
  import opened ExitOutcome
  import opened ExitProtocol
  import opened ExitSafety
  import opened Options

  const EARLY := Entry(5, Some(0), 7, 9)
  const RUNNING := Proc(Some(0), None, false)
  const GONE := Proc(Some(0), Some(7), true)
  const L := Launcher(0)
  const C := Client(0)

  /** Run 0 with its PTY, its process, the spool, and where the launcher and the client stand. */
  function Scene(pty: Option<Pty>, proc: Proc, spool: map<Pty, Entry>, launcher: Pc, client: Pc): Sys {
    Sys(Db(map[0 := Run(pty, 0, None)], map[]), map[5 := proc], {}, {}, spool, map[L := launcher, C := client])
  }

  lemma OneMore(steps: seq<Step>, s: Sys, step: Step, u: Sys) returns (more: seq<Step>)
    requires After(START, steps) == s && Next(s, step) == u
    ensures After(START, more) == u
  {
    more := steps + [step];
    assert more[..|steps|] == steps;
  }

  // ---- Exits that are lost ----

  /** Client 0 has read a list of no sessions, and run 0 is begun. */
  function Beginning(client: Pc): Sys {
    Sys(Db(map[0 := Run(None, 0, None)], map[]), map[], {}, {}, map[], map[L := Begun, C := client])
  }

  lemma BegunListed() returns (steps: seq<Step>)
    ensures After(START, steps) == Beginning(Listed({}))
  {
    hide After;
    var s1 := START.(threads := map[C := Listed({})]);
    NothingYet();
    assert Listing(START, true) == {};
    steps := OneMore([], START, ListAlive(0, true), s1);
    assert s1.threads[L := Begun] == map[L := Begun, C := Listed({})];
    steps := OneMore(steps, s1, Begin(0, 0, true), Beginning(Listed({})));
  }

  lemma SpawnsFrom(steps: seq<Step>, client: Pc) returns (more: seq<Step>)
    requires After(START, steps) == Beginning(client)
    ensures After(START, more) == Scene(None, RUNNING, map[], Started(5), client)
  {
    hide After;
    var s, u := Beginning(client), Scene(None, RUNNING, map[], Started(5), client);
    assert s.threads[L := Started(5)] == u.threads;
    more := OneMore(steps, s, Spawn(0, 5, true), u);
  }

  /** Client 0 has not moved but to fail an interruption. */
  lemma BegunIdle() returns (steps: seq<Step>)
    ensures After(START, steps) == Beginning(Idle)
  {
    hide After;
    steps := BegunListed();
    assert Beginning(Listed({})).threads[C := Idle] == Beginning(Idle).threads;
    steps := OneMore(steps, Beginning(Listed({})), EndGone(0, 0, false), Beginning(Idle));
  }

  lemma Spawned() returns (steps: seq<Step>)
    ensures After(START, steps) == Scene(None, RUNNING, map[], Started(5), Idle)
  {
    hide After;
    steps := BegunIdle();
    steps := SpawnsFrom(steps, Idle);
  }

  /** The process exits before its run is linked, and client 0 takes the exit the daemon kept. */
  lemma EarlyExit() returns (steps: seq<Step>)
    ensures After(START, steps) == Scene(None, GONE, map[5 := EARLY], Started(5), Ending(5, 7, 9, Spool, Drain(EARLY, false)))
  {
    hide After;
    steps := Spawned();
    var s4 := Scene(None, Proc(Some(0), Some(7), false), map[], Started(5), Idle);
    var s5 := Scene(None, GONE, map[5 := EARLY], Started(5), Idle);
    steps := OneMore(steps, Scene(None, RUNNING, map[], Started(5), Idle), ProcessExits(5, 7), s4);
    steps := OneMore(steps, s4, Keep(5, 9, true, true), s5);
    steps := OneMore(steps, s5, Take(0, 5), Scene(None, GONE, map[5 := EARLY], Started(5), Ending(5, 7, 9, Spool, Drain(EARLY, false))));
  }

  /** It finds no run linked to the PTY. */
  lemma NoneLinked() returns (steps: seq<Step>)
    ensures After(START, steps) == Scene(None, GONE, map[5 := EARLY], Started(5), Asking(5, Drain(EARLY, false)))
  {
    hide After;
    steps := EarlyExit();
    steps := OneMore(steps, Scene(None, GONE, map[5 := EARLY], Started(5), Ending(5, 7, 9, Spool, Drain(EARLY, false))), EndByPty(C, true),
                     Scene(None, GONE, map[5 := EARLY], Started(5), Asking(5, Drain(EARLY, false))));
  }

  /** The launcher links it meanwhile. */
  lemma LinkedMeanwhile() returns (steps: seq<Step>)
    ensures After(START, steps) == Scene(Some(5), GONE, map[5 := EARLY], Linked(5), Asking(5, Drain(EARLY, false)))
  {
    hide After;
    steps := NoneLinked();
    var asking := Asking(5, Drain(EARLY, false));
    steps := OneMore(steps, Scene(None, GONE, map[5 := EARLY], Started(5), asking), Link(0, true), Scene(Some(5), GONE, map[5 := EARLY], Linked(5), asking));
  }

  /** So client 0 takes the exit for a duplicate. */
  lemma TakenForDuplicate() returns (steps: seq<Step>)
    ensures After(START, steps) == Scene(Some(5), GONE, map[5 := EARLY], Linked(5), Removing(EARLY))
  {
    hide After;
    steps := LinkedMeanwhile();
    var s8 := Scene(Some(5), GONE, map[5 := EARLY], Linked(5), Asking(5, Drain(EARLY, false)));
    assert HasPty(s8.db, 0, 5);
    steps := OneMore(steps, s8, AskRun(C, true), Scene(Some(5), GONE, map[5 := EARLY], Linked(5), Removing(EARLY)));
  }

  lemma EntryGone() returns (steps: seq<Step>)
    ensures After(START, steps) == Scene(Some(5), GONE, map[], Linked(5), Idle)
  {
    hide After;
    steps := TakenForDuplicate();
    steps := OneMore(steps, Scene(Some(5), GONE, map[5 := EARLY], Linked(5), Removing(EARLY)), Remove(C, true), Scene(Some(5), GONE, map[], Linked(5), Idle));
  }

  /**
   A launcher that dies after linking its run and before settling it loses the exit when another
   client was draining meanwhile: the process is gone, nobody has its exit, and the run is open.
   */
  lemma DyingBeforeSettlingLosesTheExit() returns (steps: seq<Step>)
    ensures var s := After(START, steps);
            IsOver(s, 5) && IsOf(s, 5, 0) && s.procs[5].code == Some(7) && IsOpen(s.db, 0)
  {
    hide After;
    steps := EntryGone();
    var u := Scene(Some(5), GONE, map[], Dead, Idle);
    steps := OneMore(steps, Scene(Some(5), GONE, map[], Linked(5), Idle), Crash(L), u);
    assert !Owed(u, 5);
  }

  /** So does one that lives but whose call to the host fails. */
  lemma AFailedHostCallLosesTheExit() returns (steps: seq<Step>)
    ensures var s := After(START, steps);
            IsOver(s, 5) && IsOf(s, 5, 0) && s.procs[5].code == Some(7) && IsOpen(s.db, 0) && At(s, L) == Finished
  {
    hide After;
    steps := EntryGone();
    var u := Scene(Some(5), GONE, map[], Finished, Idle);
    steps := OneMore(steps, Scene(Some(5), GONE, map[], Linked(5), Idle), AskHost(0, 11, false), u);
    assert !Owed(u, 5);
  }

  /** The launcher ends run 0 as refused; the host may still start its process. */
  function TurnedDown(unanswered: set<RunId>, procs: map<Pty, Proc>, spool: map<Pty, Entry>, client: Pc): Sys {
    Sys(Db(map[0 := Run(None, 0, Some(End(None, SpawnFailed, 3)))], map[]), procs, unanswered, {}, spool, map[L := Finished, C := client])
  }

  /** The answer to its spawn is lost. */
  function Waited(): Sys {
    Sys(Db(map[0 := Run(None, 0, None)], map[]), map[], {0}, {}, map[], map[L := Refused, C := Idle])
  }

  lemma WaitedInVain() returns (steps: seq<Step>)
    ensures After(START, steps) == Waited()
  {
    hide After;
    steps := BegunIdle();
    assert Beginning(Idle).threads[L := Refused] == Waited().threads;
    steps := OneMore(steps, Beginning(Idle), SpawnUnanswered(0), Waited());
  }

  lemma Unanswered() returns (steps: seq<Step>)
    ensures After(START, steps) == TurnedDown({0}, map[], map[], Idle)
  {
    hide After;
    steps := WaitedInVain();
    var u := TurnedDown({0}, map[], map[], Idle);
    assert Waited().threads[L := Finished] == u.threads;
    steps := OneMore(steps, Waited(), EndRefused(0, 3, true), u);
  }

  lemma StartedAfterAll() returns (steps: seq<Step>)
    ensures After(START, steps) == TurnedDown({}, map[5 := Proc(Some(0), Some(7), false)], map[], Idle)
  {
    hide After;
    steps := Unanswered();
    var s4 := TurnedDown({}, map[5 := RUNNING], map[], Idle);
    assert {0} - {0} == {};
    steps := OneMore(steps, TurnedDown({0}, map[], map[], Idle), StartLate(0, 5), s4);
    steps := OneMore(steps, s4, ProcessExits(5, 7), TurnedDown({}, map[5 := Proc(Some(0), Some(7), false)], map[], Idle));
  }

  lemma TakenAfterAll() returns (steps: seq<Step>)
    ensures After(START, steps) == TurnedDown({}, map[5 := GONE], map[5 := EARLY], Ending(5, 7, 9, Spool, Drain(EARLY, false)))
  {
    hide After;
    steps := StartedAfterAll();
    var s5 := TurnedDown({}, map[5 := Proc(Some(0), Some(7), false)], map[], Idle);
    var s6 := TurnedDown({}, map[5 := GONE], map[5 := EARLY], Idle);
    steps := OneMore(steps, s5, Keep(5, 9, true, true), s6);
    steps := OneMore(steps, s6, Take(0, 5), TurnedDown({}, map[5 := GONE], map[5 := EARLY], Ending(5, 7, 9, Spool, Drain(EARLY, false))));
  }

  lemma FoundNoOpenRun() returns (steps: seq<Step>)
    ensures After(START, steps) == TurnedDown({}, map[5 := GONE], map[5 := EARLY], Asking(5, Drain(EARLY, false)))
  {
    hide After;
    steps := TakenAfterAll();
    var procs, spool := map[5 := GONE], map[5 := EARLY];
    steps := OneMore(steps, TurnedDown({}, procs, spool, Ending(5, 7, 9, Spool, Drain(EARLY, false))), EndByPty(C, true),
                     TurnedDown({}, procs, spool, Asking(5, Drain(EARLY, false))));
  }

  lemma FoundNoRun() returns (steps: seq<Step>)
    ensures After(START, steps) == TurnedDown({}, map[5 := GONE], map[5 := EARLY], Looking(EARLY))
  {
    hide After;
    steps := FoundNoOpenRun();
    var procs, spool := map[5 := GONE], map[5 := EARLY];
    steps := OneMore(steps, TurnedDown({}, procs, spool, Asking(5, Drain(EARLY, false))), AskRun(C, true), TurnedDown({}, procs, spool, Looking(EARLY)));
  }

  lemma FoundItEnded() returns (steps: seq<Step>)
    ensures After(START, steps) == TurnedDown({}, map[5 := GONE], map[5 := EARLY], Removing(EARLY))
  {
    hide After;
    steps := FoundNoRun();
    var procs, spool := map[5 := GONE], map[5 := EARLY];
    steps := OneMore(steps, TurnedDown({}, procs, spool, Looking(EARLY)), LookUp(C, true), TurnedDown({}, procs, spool, Removing(EARLY)));
  }

  /**
   So does a spawn whose answer is lost, with no call after it failing: the run is ended as refused,
   its process starts all the same, and the drainer that has the exit finds no run for it.
   */
  lemma AnUnansweredSpawnLosesTheExit() returns (steps: seq<Step>)
    ensures var s := After(START, steps);
            IsOver(s, 5) && IsOf(s, 5, 0) && s.procs[5].code == Some(7) && IsRefused(s.db, 0) && s.db.exits == map[]
  {
    hide After;
    steps := FoundItEnded();
    var s := TurnedDown({}, map[5 := GONE], map[5 := EARLY], Removing(EARLY));
    var u := TurnedDown({}, map[5 := GONE], map[], Idle);
    assert map[5 := EARLY] - {5} == map[];
    steps := OneMore(steps, s, Remove(C, true), u);
    assert !Owed(u, 5);
  }

  lemma SpawnedAndLinked() returns (steps: seq<Step>)
    ensures After(START, steps) == Scene(Some(5), RUNNING, map[], Linked(5), Idle)
  {
    hide After;
    steps := Spawned();
    steps := OneMore(steps, Scene(None, RUNNING, map[], Started(5), Idle), Link(0, true), Scene(Some(5), RUNNING, map[], Linked(5), Idle));
  }

  lemma Launched() returns (steps: seq<Step>)
    ensures After(START, steps) == Scene(Some(5), RUNNING, map[], Finished, Idle)
  {
    hide After;
    steps := SpawnedAndLinked();
    steps := OneMore(steps, Scene(Some(5), RUNNING, map[], Linked(5), Idle), AskHost(0, 1, true), Scene(Some(5), RUNNING, map[], Finished, Idle));
  }

  lemma ExitedLater() returns (steps: seq<Step>)
    ensures After(START, steps) == Scene(Some(5), GONE, map[5 := EARLY], Finished, Idle)
  {
    hide After;
    steps := Launched();
    var s5 := Scene(Some(5), Proc(Some(0), Some(7), false), map[], Finished, Idle);
    steps := OneMore(steps, Scene(Some(5), RUNNING, map[], Finished, Idle), ProcessExits(5, 7), s5);
    steps := OneMore(steps, s5, Keep(5, 9, true, true), Scene(Some(5), GONE, map[5 := EARLY], Finished, Idle));
  }

  lemma FoundUnreadable() returns (steps: seq<Step>)
    ensures After(START, steps) == Scene(Some(5), GONE, map[5 := EARLY], Finished, Discarding(5))
  {
    hide After;
    steps := ExitedLater();
    steps := OneMore(steps, Scene(Some(5), GONE, map[5 := EARLY], Finished, Idle), TakeUnread(0, 5), Scene(Some(5), GONE, map[5 := EARLY], Finished, Discarding(5)));
  }

  /** And so does an entry that cannot be read: the client removes it, and the run is left open. */
  lemma AnUnreadEntryLosesTheExit() returns (steps: seq<Step>)
    ensures var s := After(START, steps);
            IsOver(s, 5) && IsOf(s, 5, 0) && s.procs[5].code == Some(7) && IsOpen(s.db, 0) && HasPty(s.db, 0, 5)
  {
    hide After;
    steps := FoundUnreadable();
    var u := Scene(Some(5), GONE, map[], Finished, Idle);
    assert map[5 := EARLY] - {5} == map[];
    steps := OneMore(steps, Scene(Some(5), GONE, map[5 := EARLY], Finished, Discarding(5)), Remove(C, true), u);
    assert !Owed(u, 5);
  }

  // ---- Live runs called interrupted ----

  /** The process of run 0 runs, and the run is called interrupted. */
  ghost predicate IsWronged(s: Sys) {
    IsOf(s, 5, 0) && Knows(s, 5) && s.procs[5].code.None? && Interruption(s.db, 0)
  }

  /** The list is read before the process is spawned. */
  lemma ListedTooEarly() returns (steps: seq<Step>)
    ensures After(START, steps) == Scene(Some(5), RUNNING, map[], Linked(5), Listed({}))
  {
    hide After;
    steps := BegunListed();
    steps := SpawnsFrom(steps, Listed({}));
    steps := OneMore(steps, Scene(None, RUNNING, map[], Started(5), Listed({})), Link(0, true), Scene(Some(5), RUNNING, map[], Linked(5), Listed({})));
  }

  lemma Reconciled(steps: seq<Step>, s: Sys, now: int) returns (more: seq<Step>)
    requires After(START, steps) == s && At(s, C).Listed? && PtyUnique(s.db)
    requires IsOf(s, 5, 0) && Knows(s, 5) && s.procs[5].code.None? && IsOpen(s.db, 0)
    requires match s.db.runs[0].pty
             case Some(p) => p !in At(s, C).alive
             case None => s.db.runs[0].startedAt < now - PENDING_GRACE
    ensures IsWronged(After(START, more))
  {
    hide After;
    InterruptedIffNotListed(s, 0, now, 0);
    more := OneMore(steps, s, EndGone(0, now, true), Next(s, EndGone(0, now, true)));
  }

  lemma AListReadEarlyInterruptsALiveRun() returns (steps: seq<Step>)
    ensures IsWronged(After(START, steps))
  {
    hide After;
    steps := ListedTooEarly();
    steps := Reconciled(steps, Scene(Some(5), RUNNING, map[], Linked(5), Listed({})), 3);
  }

  /** The launch is done, but the call for the list fails. */
  lemma AFailedListingInterruptsALiveRun() returns (steps: seq<Step>)
    ensures IsWronged(After(START, steps))
  {
    hide After;
    steps := Launched();
    var u := Scene(Some(5), RUNNING, map[], Finished, Listed({}));
    steps := OneMore(steps, Scene(Some(5), RUNNING, map[], Finished, Idle), ListAlive(0, false), u);
    steps := Reconciled(steps, u, 3);
  }

  lemma SpawnedAndUnlinked() returns (steps: seq<Step>)
    ensures After(START, steps) == Scene(None, RUNNING, map[], Linked(5), Idle)
  {
    hide After;
    steps := Spawned();
    steps := OneMore(steps, Scene(None, RUNNING, map[], Started(5), Idle), Link(0, false), Scene(None, RUNNING, map[], Linked(5), Idle));
  }

  /** The process is on the list, but its run could not be linked and has waited for a minute. */
  lemma AnUnlinkedRunIsInterruptedAlive() returns (steps: seq<Step>)
    ensures IsWronged(After(START, steps)) && 5 in Listing(After(START, steps), true)
  {
    hide After;
    steps := SpawnedAndUnlinked();
    var s4 := Scene(None, RUNNING, map[], Linked(5), Idle);
    var s5 := Scene(None, RUNNING, map[], Linked(5), Listed({5}));
    assert Listing(s4, true) == {5};
    steps := OneMore(steps, s4, ListAlive(0, true), s5);
    steps := Reconciled(steps, s5, 60_001);
  }
}
