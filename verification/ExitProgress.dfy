/**
 Nobody gets stuck: from every state a schedule can lead to, a launcher or a client that is not dead
 comes to the end of what it is doing by steps of its own, when its calls go through.
 */
module ExitProgress {
  import opened ActivityStore
  import opened ExitHistory
  import opened ExitProtocol
  import opened ExitSafety
  import opened Options

  /** How far the thread is from its end: the longest way there, and the events left to write. */
  ghost function Stage(pc: Pc): nat {
    match pc
    case Idle => 0
    case Finished => 0
    case Dead => 0
    case Removing(_) => 1
    case Discarding(_) => 1
    case Refused => 1
    case Writing(_, _, _) => 2
    case Asking(_, next) => if next.Drain? && !next.adopted then 6 else 2
    case Ending(_, _, _, _, next) => if next.Drain? && !next.adopted then 7 else 3
    case Attaching(_) => 4
    case Looking(_) => 5
    case Closing(_) => 8
    case Listed(_) => 9
    case Linked(_) => 10
    case Started(_) => 11
    case Begun => 12
  }

  ghost function Left(pc: Pc): nat {
    if pc.Closing? then |pc.gone| + 1 else 0
  }

  /** A step the thread takes next, with the call going through. */
  ghost function Onward(s: Sys, t: Thread): Step {
    match At(s, t)
    case Begun => Spawn(if t.Launcher? then t.run else 0, Fresh(s.procs.Keys), true)
    case Refused => EndRefused(if t.Launcher? then t.run else 0, 0, true)
    case Started(_) => Link(if t.Launcher? then t.run else 0, true)
    case Linked(_) => AskHost(if t.Launcher? then t.run else 0, 0, true)
    case Ending(_, _, _, _, _) => EndByPty(t, true)
    case Writing(_, _, _) => Write(t, true)
    case Asking(_, _) => AskRun(t, true)
    case Looking(_) => LookUp(t, true)
    case Attaching(_) => Attach(t, true)
    case Listed(_) => EndGone(if t.Client? then t.id else 0, 0, true)
    case Closing(gone) => WriteGone(if t.Client? then t.id else 0, OneOf(gone.Keys), 0, true)
    case _ => Remove(t, true)
  }

  /** A PTY that no process has. */
  ghost function Fresh(taken: set<Pty>): (p: Pty)
    ensures p !in taken
  {
    FreshExists(taken);
    var p: Pty :| p !in taken;
    p
  }

  lemma FreshExists(taken: set<Pty>)
    ensures exists p: Pty :: p !in taken
  {
    var above := Above(taken);
    assert above !in taken;
  }

  lemma {:induction false} Above(taken: set<Pty>) returns (top: Pty)
    ensures forall p :: p in taken ==> p < top
    decreases |taken|
  {
    if taken == {} {
      top := 0;
    } else {
      var p :| p in taken;
      var rest := Above(taken - {p});
      top := if rest > p then rest else p + 1;
      assert forall q :: q in taken ==> q == p || q in taken - {p};
    }
  }

  ghost function OneOf(runs: set<RunId>): (r: RunId)
    ensures runs != {} ==> r in runs
  {
    if runs == {} then 0 else var r :| r in runs; r
  }

  /** By its next step the thread comes nearer to its end. */
  ghost predicate GoesOn(s: Sys, t: Thread)
    requires PtyUnique(s.db)
  {
    var before, after := At(s, t), At(Next(s, Onward(s, t)), t);
    Stage(after) < Stage(before) || (Stage(after) == Stage(before) && Left(after) < Left(before))
  }

  lemma Goes(s: Sys, t: Thread)
    requires PtyUnique(s.db) && PcOk(s, t, At(s, t)) && Stage(At(s, t)) > 0
    ensures GoesOn(s, t)
  {
    hide PtyUnique, Next, Onward, PcOk, Stage, Left;
    var pc := At(s, t);
    if pc.Ending? || pc.Closing? {
      EndsAndGoes(s, t);
    } else if pc.Writing? || pc.Asking? {
      AsksAndGoes(s, t);
    } else if pc.Looking? || pc.Attaching? || pc.Removing? || pc.Discarding? {
      DrainsAndGoes(s, t);
    } else {
      LaunchesAndGoes(s, t);
    }
  }

  lemma EndsAndGoes(s: Sys, t: Thread)
    requires PtyUnique(s.db) && PcOk(s, t, At(s, t))
    requires At(s, t).Ending? || At(s, t).Closing?
    ensures GoesOn(s, t)
  {
    hide PtyUnique, DoEndByPty, DoWriteGone;
    if At(s, t).Ending? {
      hide Stage, Left;
      EndsByPty(s, t);
    } else {
      hide Stage, Left;
      ClosesOne(s, t);
    }
  }

  lemma AsksAndGoes(s: Sys, t: Thread)
    requires PtyUnique(s.db) && PcOk(s, t, At(s, t))
    requires At(s, t).Writing? || At(s, t).Asking?
    ensures GoesOn(s, t)
  {
    hide PtyUnique, Left;
  }

  lemma DrainsAndGoes(s: Sys, t: Thread)
    requires PtyUnique(s.db) && PcOk(s, t, At(s, t))
    requires At(s, t).Looking? || At(s, t).Attaching? || At(s, t).Removing? || At(s, t).Discarding?
    ensures GoesOn(s, t)
  {
    hide PtyUnique;
  }

  lemma LaunchesAndGoes(s: Sys, t: Thread)
    requires PtyUnique(s.db) && PcOk(s, t, At(s, t)) && Stage(At(s, t)) > 0
    requires !(At(s, t).Ending? || At(s, t).Closing? || At(s, t).Writing? || At(s, t).Asking?)
    requires !(At(s, t).Looking? || At(s, t).Attaching? || At(s, t).Removing? || At(s, t).Discarding?)
    ensures GoesOn(s, t)
  {
    hide PtyUnique;
  }

  lemma EndsByPty(s: Sys, t: Thread)
    requires PtyUnique(s.db) && At(s, t).Ending?
    ensures Stage(At(DoEndByPty(s, t, true), t)) < Stage(At(s, t))
  {
    hide PtyUnique;
  }

  lemma ClosesOne(s: Sys, t: Thread)
    requires t.Client? && At(s, t).Closing?
    ensures var after := At(DoWriteGone(s, t.id, OneOf(At(s, t).gone.Keys), 0, true), t);
            Stage(after) < Stage(At(s, t)) || (Stage(after) == Stage(At(s, t)) && Left(after) < Left(At(s, t)))
  {
    var gone := At(s, t).gone;
    var r := OneOf(gone.Keys);
    if r in gone {
      assert gone.Keys == (gone - {r}).Keys + {r};
    }
  }

  /** It is done with what it was doing, or dead. */
  ghost predicate IsThrough(pc: Pc) {
    pc.Idle? || pc.Finished? || pc.Dead?
  }

  lemma {:induction false} ComesToAnEnd(s: Sys, t: Thread) returns (more: seq<Step>)
    requires Safe(s)
    ensures PtyUnique(s.db) && IsThrough(At(After(s, more), t))
    decreases Stage(At(s, t)), Left(At(s, t))
  {
    hide Safe, Onward, PcOk;
    IsUnique(s);
    if Stage(At(s, t)) == 0 {
      more := [];
    } else {
      hide After, Next;
      Stands(s, t);
      Goes(s, t);
      NextSafe(s, Onward(s, t));
      var rest := ComesToAnEnd(Next(s, Onward(s, t)), t);
      more := [Onward(s, t)] + rest;
      AfterFirst(s, Onward(s, t), rest);
    }
  }

  lemma Stands(s: Sys, t: Thread)
    requires Safe(s) && !IsThrough(At(s, t))
    ensures PcOk(s, t, At(s, t))
  {
    hide Linkage, Recorded, WrittenOnce, Real, PcOk;
  }

  lemma {:induction false} AfterFirst(s: Sys, step: Step, rest: seq<Step>)
    requires PtyUnique(s.db)
    ensures After(s, [step] + rest) == After(Next(s, step), rest)
    decreases |rest|
  {
    hide Next, PtyUnique;
    var steps := [step] + rest;
    if rest == [] {
      assert steps == [step] && steps[..0] == [];
      assert After(s, []) == s;
    } else {
      assert steps[..|steps| - 1] == [step] + rest[..|rest| - 1] && steps[|steps| - 1] == rest[|rest| - 1];
      AfterFirst(s, step, rest[..|rest| - 1]);
    }
  }

  /** After any schedule, every thread that is not dead can come to an end, whatever the others have done. */
  lemma NobodyIsStuck(steps: seq<Step>, t: Thread) returns (more: seq<Step>)
    ensures IsThrough(At(After(After(START, steps), more), t))
  {
    hide After, Safe;
    StartIsSafe();
    AfterSafe(START, steps);
    more := ComesToAnEnd(After(START, steps), t);
  }
}
