/**
 Where everything that a schedule leaves behind comes from: which step began a run and when, started
 a process, kept an exit, lost an answer, ended a run as what and when, and wrote an event.
 */
module ExitHistory {
  import opened ActivityStore
  import opened ExitProtocol
  import opened ExitSafety
  import opened Options

  lemma NothingYet()
    ensures After(START, []) == START
  {
  }

  lemma AfterUnfolds(s: Sys, steps: seq<Step>)
    requires PtyUnique(s.db) && steps != []
    ensures After(s, steps) == Next(After(s, steps[..|steps| - 1]), steps[|steps| - 1])
  {
    hide Next, PtyUnique;
  }

  lemma AfterLast(steps: seq<Step>)
    requires steps != []
    ensures var n := |steps| - 1;
            && steps == steps[..n] + [steps[n]] && After(START, steps) == Next(After(START, steps[..n]), steps[n])
            && steps[..n + 1] == steps && forall i :: 0 <= i <= n ==> steps[..n][..i] == steps[..i]
  {
    hide Next, After;
    AfterUnfolds(START, steps);
    Prefixes(steps);
  }

  lemma Prefixes(steps: seq<Step>)
    requires steps != []
    ensures var n := |steps| - 1;
            && steps == steps[..n] + [steps[n]] && steps[..n + 1] == steps
            && forall i :: 0 <= i <= n ==> steps[..n][..i] == steps[..i]
  {
  }

  /** A step of `record_exit`, or of the drain around it. */
  ghost predicate OfRecording(step: Step) {
    step.EndByPty? || step.Write? || step.AskRun? || step.LookUp? || step.Attach? || step.Remove?
  }

  // ---- Runs ----

  /** The `i`-th step writes the row of `r`. */
  ghost predicate BeginsAt(steps: seq<Step>, i: nat, r: RunId) {
    && i < |steps| && steps[i].Begin? && steps[i].run == r && steps[i].ok
    && r !in After(START, steps[..i]).db.runs && r in After(START, steps[..i + 1]).db.runs
  }

  lemma RowNow(s: Sys, step: Step, r: RunId)
    requires PtyUnique(s.db) && r in Next(s, step).db.runs
    ensures if r in s.db.runs then Next(s, step).db.runs[r].startedAt == s.db.runs[r].startedAt
            else step.Begin? && step.run == r && step.ok && Next(s, step).db.runs[r] == Run(None, step.now, None)
  {
    hide PtyUnique;
    if OfRecording(step) {
      RowRecorded(s, step, r);
    }
  }

  lemma RowRecorded(s: Sys, step: Step, r: RunId)
    requires PtyUnique(s.db) && OfRecording(step) && r in Next(s, step).db.runs
    ensures r in s.db.runs && Next(s, step).db.runs[r].startedAt == s.db.runs[r].startedAt
  {
    hide PtyUnique;
  }

  /** In every schedule a run was begun by one step, and its row has the time of that step. */
  lemma {:induction false} RowBegun(steps: seq<Step>, r: RunId) returns (i: nat)
    requires r in After(START, steps).db.runs
    ensures BeginsAt(steps, i, r) && After(START, steps).db.runs[r].startedAt == steps[i].now
    decreases |steps|
  {
    hide After;
    if steps == [] {
      NothingYet();
      assert false;
    } else {
      hide Next;
      var n := |steps| - 1;
      AfterLast(steps);
      RowNow(After(START, steps[..n]), steps[n], r);
      if r in After(START, steps[..n]).db.runs {
        i := RowBegun(steps[..n], r);
        assert steps[..n][..i + 1] == steps[..i + 1];
      } else {
        i := n;
      }
    }
  }

  // ---- Processes ----

  /** The host starts process `p`. */
  ghost predicate Starts(s: Sys, step: Step, p: Pty) {
    p !in s.procs
    && match step
       case Spawn(r, q, ok) => q == p && ok && At(s, Launcher(r)).Begun?
       case StartLate(r, q) => q == p && r in s.unanswered
       case SpawnUnrecorded(q) => q == p
       case _ => false
  }

  /** The run it is labelled with. */
  ghost function LabelOf(step: Step): Option<RunId> {
    match step
    case Spawn(r, _, _) => Some(r)
    case StartLate(r, _) => Some(r)
    case _ => None
  }

  /** It exits with `code`. */
  ghost predicate Exits(s: Sys, step: Step, p: Pty, code: int) {
    step == ProcessExits(p, code) && p in s.procs && s.procs[p].code.None?
  }

  ghost predicate Forgets(s: Sys, step: Step, p: Pty) {
    step == Forget(p) && p in s.procs
  }

  /** The daemon sees the exit, and is through with it. */
  ghost predicate Sees(s: Sys, step: Step, p: Pty) {
    step.Keep? && step.pty == p && p in s.procs && s.procs[p].code.Some? && !s.procs[p].kept
  }

  lemma ProcNow(s: Sys, step: Step, p: Pty)
    requires PtyUnique(s.db)
    ensures var u := Next(s, step);
            && (p in u.procs <==> p in s.procs || Starts(s, step, p))
            && (Starts(s, step, p) ==> u.procs[p] == Proc(LabelOf(step), None, false))
            && (p in s.procs ==>
                  && u.procs[p].run == s.procs[p].run
                  && (u.procs[p].kept <==> s.procs[p].kept || Sees(s, step, p))
                  && u.procs[p].code == if step.ProcessExits? && Exits(s, step, p, step.code) then Some(step.code) else s.procs[p].code)
            && (p in u.forgotten <==> p in s.forgotten || Forgets(s, step, p))
  {
    hide PtyUnique;
    if OfRecording(step) {
      ProcRecorded(s, step);
    }
  }

  lemma ProcRecorded(s: Sys, step: Step)
    requires PtyUnique(s.db) && OfRecording(step)
    ensures Next(s, step).procs == s.procs && Next(s, step).forgotten == s.forgotten
  {
    hide PtyUnique;
  }

  ghost predicate StartsAt(steps: seq<Step>, i: nat, p: Pty) {
    i < |steps| && Starts(After(START, steps[..i]), steps[i], p)
  }

  ghost predicate ExitsAt(steps: seq<Step>, i: nat, p: Pty, code: int) {
    i < |steps| && Exits(After(START, steps[..i]), steps[i], p, code)
  }

  ghost predicate ForgetsAt(steps: seq<Step>, i: nat, p: Pty) {
    i < |steps| && Forgets(After(START, steps[..i]), steps[i], p)
  }

  /** In every schedule there is a process exactly when some step started it, with that step's label. */
  lemma {:induction false} StartedIff(steps: seq<Step>, p: Pty)
    ensures p in After(START, steps).procs <==> exists i: nat :: StartsAt(steps, i, p)
    ensures forall i: nat :: StartsAt(steps, i, p) ==> p in After(START, steps).procs && After(START, steps).procs[p].run == LabelOf(steps[i])
    decreases |steps|
  {
    hide After;
    if steps == [] {
      NothingYet();
    } else {
      hide Next, Starts;
      var n := |steps| - 1;
      AfterLast(steps);
      StartedIff(steps[..n], p);
      ProcNow(After(START, steps[..n]), steps[n], p);
      assert forall i: nat :: i < n ==> (StartsAt(steps, i, p) <==> StartsAt(steps[..n], i, p));
      assert StartsAt(steps, n, p) <==> Starts(After(START, steps[..n]), steps[n], p);
    }
  }

  /** Its code is known exactly when a step ended it, and is that step's. */
  lemma {:induction false} CodeIff(steps: seq<Step>, p: Pty, code: int)
    ensures p in After(START, steps).procs && After(START, steps).procs[p].code == Some(code) <==> exists i: nat :: ExitsAt(steps, i, p, code)
    decreases |steps|
  {
    hide After;
    if steps == [] {
      NothingYet();
    } else {
      hide Next, Starts, Sees;
      var n := |steps| - 1;
      AfterLast(steps);
      CodeIff(steps[..n], p, code);
      ProcNow(After(START, steps[..n]), steps[n], p);
      assert forall i: nat :: i < n ==> (ExitsAt(steps, i, p, code) <==> ExitsAt(steps[..n], i, p, code));
      assert ExitsAt(steps, n, p, code) <==> Exits(After(START, steps[..n]), steps[n], p, code);
    }
  }

  /** The host knows a process exactly when it started it and was not told to remove it. */
  lemma {:induction false} KnownIff(steps: seq<Step>, p: Pty)
    ensures Knows(After(START, steps), p) <==> (exists i: nat :: StartsAt(steps, i, p)) && !exists i: nat :: ForgetsAt(steps, i, p)
  {
    hide After, Starts, Forgets, StartsAt, ForgetsAt;
    StartedIff(steps, p);
    ForgottenIff(steps, p);
  }

  lemma {:induction false} ForgottenIff(steps: seq<Step>, p: Pty)
    ensures p in After(START, steps).forgotten <==> exists i: nat :: ForgetsAt(steps, i, p)
    decreases |steps|
  {
    hide After;
    if steps == [] {
      NothingYet();
    } else {
      hide Next, Forgets, Starts, Sees;
      var n := |steps| - 1;
      AfterLast(steps);
      ForgottenIff(steps[..n], p);
      ProcNow(After(START, steps[..n]), steps[n], p);
      assert forall i: nat :: i < n ==> (ForgetsAt(steps, i, p) <==> ForgetsAt(steps[..n], i, p));
      assert ForgetsAt(steps, n, p) <==> Forgets(After(START, steps[..n]), steps[n], p);
    }
  }

  // ---- Answers that are lost ----

  /** The launcher waits for the answer to its spawn no longer, or dies waiting. */
  ghost predicate LosesAnswer(s: Sys, step: Step, r: RunId) {
    At(s, Launcher(r)).Begun? && (step == SpawnUnanswered(r) || step == Crash(Launcher(r)))
  }

  ghost predicate LosesAnswerAt(steps: seq<Step>, i: nat, r: RunId) {
    i < |steps| && LosesAnswer(After(START, steps[..i]), steps[i], r)
  }

  lemma UnansweredNow(s: Sys, step: Step, r: RunId)
    requires PtyUnique(s.db)
    ensures r in Next(s, step).unanswered <==>
            (r in s.unanswered || LosesAnswer(s, step, r)) && !(step.StartLate? && step.run == r && Starts(s, step, step.pty))
  {
    hide PtyUnique;
    if OfRecording(step) {
      UnansweredRecorded(s, step);
    }
  }

  lemma UnansweredRecorded(s: Sys, step: Step)
    requires PtyUnique(s.db) && OfRecording(step)
    ensures Next(s, step).unanswered == s.unanswered
  {
    hide PtyUnique;
  }

  ghost predicate HasProcess(s: Sys, r: RunId) {
    exists p :: IsOf(s, p, r)
  }

  /** The host may still start a run's process exactly when the answer to its spawn was lost and it has not done so. */
  lemma {:induction false} UnansweredIff(steps: seq<Step>, r: RunId)
    ensures r in After(START, steps).unanswered <==>
            HasLostAnswer(steps, r) && !HasProcess(After(START, steps), r)
    decreases |steps|
  {
    hide After, Safe, HasLostAnswer;
    if steps == [] {
      NothingYet();
      NoAnswerYet(r);
    } else {
      hide Next, Starts, LosesAnswer, HasProcess;
      var n := |steps| - 1;
      var s := After(START, steps[..n]);
      AfterLast(steps);
      UnansweredIff(steps[..n], r);
      StartIsSafe();
      AfterSafe(START, steps[..n]);
      IsUnique(s);
      UnansweredNow(s, steps[n], r);
      ProcessNow(s, steps[n], r);
      LostSince(steps, r);
    }
  }

  ghost predicate HasLostAnswer(steps: seq<Step>, r: RunId) {
    exists i: nat :: LosesAnswerAt(steps, i, r)
  }

  lemma NoAnswerYet(r: RunId)
    ensures !HasLostAnswer([], r) && !HasProcess(START, r)
  {
  }

  lemma LostSince(steps: seq<Step>, r: RunId)
    requires steps != []
    ensures var n := |steps| - 1;
            HasLostAnswer(steps, r) <==> HasLostAnswer(steps[..n], r) || LosesAnswer(After(START, steps[..n]), steps[n], r)
  {
    hide After, Next, LosesAnswer;
    var n := |steps| - 1;
    AfterLast(steps);
    assert forall i: nat :: i < n ==> (LosesAnswerAt(steps, i, r) <==> LosesAnswerAt(steps[..n], i, r));
    assert LosesAnswerAt(steps, n, r) <==> LosesAnswer(After(START, steps[..n]), steps[n], r);
  }

  lemma StartIsSafe()
    ensures Safe(START)
  {
  }

  /** A run has its process from its launcher's spawn, or late; and not before its answer can be lost. */
  lemma ProcessNow(s: Sys, step: Step, r: RunId)
    requires Safe(s)
    ensures PtyUnique(s.db)
    ensures LosesAnswer(s, step, r) ==> !HasProcess(Next(s, step), r)
    ensures HasProcess(s, r) ==> HasProcess(Next(s, step), r)
    ensures HasProcess(Next(s, step), r) && !HasProcess(s, r) ==>
              || (step.StartLate? && step.run == r && Starts(s, step, step.pty))
              || (r !in s.unanswered && step.Spawn? && step.run == r && step.ok)
    ensures step.StartLate? && step.run == r && Starts(s, step, step.pty) ==> HasProcess(Next(s, step), r)
  {
    hide Threads, Recorded, WrittenOnce, Real, PtyUnique, Next;
    IsUnique(s);
    var u := Next(s, step);
    forall p ensures IsOf(u, p, r) <==> IsOf(s, p, r) || (Starts(s, step, p) && LabelOf(step) == Some(r)) {
      ProcNow(s, step, p);
    }
  }

  // ---- Entries ----

  /** The entry a drainer has in hand. */
  ghost function EntryOf(pc: Pc): Option<Entry> {
    match pc
    case Ending(_, _, _, _, next) => if next.Drain? then Some(next.entry) else None
    case Writing(_, _, next) => if next.Drain? then Some(next.entry) else None
    case Asking(_, next) => if next.Drain? then Some(next.entry) else None
    case Looking(e) => Some(e)
    case Attaching(e) => Some(e)
    case Removing(e) => Some(e)
    case _ => None
  }

  ghost predicate InHand(s: Sys, e: Entry) {
    exists t :: t in s.threads && EntryOf(s.threads[t]) == Some(e)
  }

  ghost predicate IsAbout(s: Sys, e: Entry) {
    (exists p :: p in s.spool && s.spool[p] == e) || InHand(s, e)
  }

  /** The daemon puts the entry in the spool: its process's code, its own time, and the label if it has that. */
  ghost predicate Keeps(s: Sys, step: Step, e: Entry) {
    && step.Keep? && step.ok && step.pty == e.pty && step.at == e.at && Sees(s, step, e.pty)
    && s.procs[e.pty].code == Some(e.code)
    && e.run == if step.labelled && Knows(s, e.pty) then s.procs[e.pty].run else None
  }

  ghost predicate KeepsAt(steps: seq<Step>, i: nat, e: Entry) {
    i < |steps| && Keeps(After(START, steps[..i]), steps[i], e)
  }

  /** A thread's entry is the one it had, or the one it takes. */
  lemma HandNow(s: Sys, step: Step, t: Thread)
    requires PtyUnique(s.db) && EntryOf(At(Next(s, step), t)).Some?
    ensures EntryOf(At(s, t)) == EntryOf(At(Next(s, step), t))
         || (step.Take? && step.pty in s.spool && EntryOf(At(Next(s, step), t)) == Some(s.spool[step.pty]))
  {
    hide PtyUnique;
    if OfRecording(step) {
      HandRecorded(s, step, t);
    }
  }

  lemma HandRecorded(s: Sys, step: Step, t: Thread)
    requires PtyUnique(s.db) && OfRecording(step) && EntryOf(At(Next(s, step), t)).Some?
    ensures EntryOf(At(s, t)) == EntryOf(At(Next(s, step), t))
  {
    hide PtyUnique;
  }

  lemma SpoolNow(s: Sys, step: Step, p: Pty)
    requires PtyUnique(s.db) && p in Next(s, step).spool
    ensures (p in s.spool && Next(s, step).spool[p] == s.spool[p]) || Keeps(s, step, Next(s, step).spool[p])
  {
    hide PtyUnique;
    if OfRecording(step) {
      SpoolRecorded(s, step, p);
    }
  }

  lemma SpoolRecorded(s: Sys, step: Step, p: Pty)
    requires PtyUnique(s.db) && OfRecording(step) && p in Next(s, step).spool
    ensures p in s.spool && Next(s, step).spool[p] == s.spool[p]
  {
    hide PtyUnique;
  }

  lemma AboutNow(s: Sys, step: Step, e: Entry)
    requires PtyUnique(s.db) && IsAbout(Next(s, step), e)
    ensures IsAbout(s, e) || Keeps(s, step, e)
  {
    hide PtyUnique, Next, Keeps, EntryOf;
    var u := Next(s, step);
    if InHand(u, e) {
      var t :| t in u.threads && EntryOf(u.threads[t]) == Some(e);
      NoneAtIdle();
      HandNow(s, step, t);
      assert EntryOf(At(s, t)) == Some(e) ==> t in s.threads;
    } else {
      var p :| p in u.spool && u.spool[p] == e;
      SpoolNow(s, step, p);
    }
  }

  lemma NoneAtIdle()
    ensures EntryOf(Idle).None?
  {
  }

  /** In every schedule an entry, spooled or in a drainer's hands, is as the daemon kept it. */
  lemma {:induction false} EntryKept(steps: seq<Step>, e: Entry) returns (i: nat)
    requires IsAbout(After(START, steps), e)
    ensures KeepsAt(steps, i, e)
    decreases |steps|
  {
    hide After, IsAbout;
    if steps == [] {
      NothingYet();
      NothingAbout(e);
      assert false;
    } else {
      hide Next, Keeps;
      var n := |steps| - 1;
      AfterLast(steps);
      AboutNow(After(START, steps[..n]), steps[n], e);
      if IsAbout(After(START, steps[..n]), e) {
        i := EntryKept(steps[..n], e);
      } else {
        i := n;
      }
    }
  }

  lemma NothingAbout(e: Entry)
    ensures !IsAbout(START, e)
  {
  }

  // ---- What is told of an exit ----

  /** The step tells that process `p` exited with `code`: at what time, and by which way. */
  ghost predicate Tells(s: Sys, step: Step, p: Pty, code: int, at: int, via: Via) {
    && p in s.procs && s.procs[p].code == Some(code)
    && match step
       case Keep(q, now, _, ok) => q == p && now == at && ok && via.Spool? && !s.procs[p].kept
       case Deliver(_, q, v, now) => q == p && now == at && v == via && ((via.Settle? && Knows(s, p)) || (via.Live? && s.procs[p].kept))
       case AskHost(r, now, ok) => ok && now == at && via.Settle? && At(s, Launcher(r)) == Linked(p) && Knows(s, p)
       case _ => false
  }

  ghost predicate TellsAt(steps: seq<Step>, i: nat, p: Pty, code: int, at: int, via: Via) {
    i < |steps| && Tells(After(START, steps[..i]), steps[i], p, code, at, via)
  }

  /** A thread about to end a run by its PTY has that from a delivery, from the host, or from an entry. */
  ghost predicate ToldNow(s: Sys, step: Step, u: Sys, pc: Pc) {
    pc.Ending?
    && (Tells(s, step, pc.pty, pc.code, pc.at, pc.via)
        || (pc.via.Spool? && EntryOf(pc).Some?
            && var e := EntryOf(pc).value; e.pty == pc.pty && e.code == pc.code && e.at == pc.at))
  }

  lemma EndingNow(s: Sys, step: Step, t: Thread)
    requires PtyUnique(s.db) && At(Next(s, step), t).Ending?
    ensures At(s, t) == At(Next(s, step), t) || ToldNow(s, step, Next(s, step), At(Next(s, step), t))
  {
    hide PtyUnique;
    if OfRecording(step) {
      EndingRecorded(s, step, t);
    }
  }

  lemma EndingRecorded(s: Sys, step: Step, t: Thread)
    requires PtyUnique(s.db) && OfRecording(step) && At(Next(s, step), t).Ending?
    ensures At(s, t) == At(Next(s, step), t) || ToldNow(s, step, Next(s, step), At(Next(s, step), t))
  {
    hide PtyUnique;
  }

  /** In every schedule what a thread is about to record was told: code, time and way. */
  lemma {:induction false} EndingTold(steps: seq<Step>, t: Thread) returns (i: nat)
    requires At(After(START, steps), t).Ending?
    ensures var pc := At(After(START, steps), t); TellsAt(steps, i, pc.pty, pc.code, pc.at, pc.via)
    decreases |steps|
  {
    hide After;
    if steps == [] {
      NothingYet();
      assert false;
    } else {
      hide Next;
      var n := |steps| - 1;
      var s, u := After(START, steps[..n]), After(START, steps);
      var pc := At(u, t);
      AfterLast(steps);
      EndingNow(s, steps[n], t);
      if At(s, t) == pc {
        i := EndingTold(steps[..n], t);
      } else if Tells(s, steps[n], pc.pty, pc.code, pc.at, pc.via) {
        i := n;
      } else {
        assert InHand(u, EntryOf(pc).value) by {
          assert t in u.threads;
        }
        i := EntryKept(steps, EntryOf(pc).value);
      }
    }
  }

  // ---- Asking what is known ----

  /** The end by PTY goes through, and no open run is linked to that PTY. */
  ghost predicate EndsNone(s: Sys, step: Step, t: Thread, p: Pty, next: Then) {
    && step == EndByPty(t, true) && At(s, t).Ending? && At(s, t).pty == p && At(s, t).next == next
    && forall r :: r in s.db.runs && IsOpen(s.db, r) ==> !HasPty(s.db, r, p)
  }

  lemma AskingNow(s: Sys, step: Step, t: Thread)
    requires PtyUnique(s.db)
    ensures var pc := At(Next(s, step), t);
            pc.Asking? && At(s, t) != pc ==> EndsNone(s, step, t, pc.pty, pc.next)
  {
    hide PtyUnique;
    if OfRecording(step) {
      AskingRecorded(s, step, t);
    }
  }

  lemma AskingRecorded(s: Sys, step: Step, t: Thread)
    requires PtyUnique(s.db) && OfRecording(step)
    ensures var pc := At(Next(s, step), t);
            pc.Asking? && At(s, t) != pc ==> EndsNone(s, step, t, pc.pty, pc.next)
  {
    hide PtyUnique;
  }

  /**
   In every schedule a thread asks whether a PTY is known only once an end by that PTY has gone through
   and found no open run: a failed one answers `NoRun` unasked.
   */
  lemma {:induction false} AskingFound(steps: seq<Step>, t: Thread) returns (i: nat)
    requires At(After(START, steps), t).Asking?
    ensures var pc := At(After(START, steps), t);
            i < |steps| && EndsNone(After(START, steps[..i]), steps[i], t, pc.pty, pc.next)
    decreases |steps|
  {
    hide After;
    if steps == [] {
      NothingYet();
      assert false;
    } else {
      hide Next, EndsNone;
      var n := |steps| - 1;
      AfterLast(steps);
      AskingNow(After(START, steps[..n]), steps[n], t);
      if At(After(START, steps[..n]), t) == At(After(START, steps), t) {
        i := AskingFound(steps[..n], t);
      } else {
        i := n;
      }
    }
  }

  // ---- Launchers ----

  /** The launcher tries to link its process, or to end its run for want of one. */
  ghost predicate Reports(s: Sys, step: Step, r: RunId) {
    (step.Link? && step.run == r && At(s, Launcher(r)).Started?) || (step.EndRefused? && step.run == r && At(s, Launcher(r)).Refused?)
  }

  lemma ReportsNow(s: Sys, step: Step, r: RunId)
    requires PtyUnique(s.db)
    ensures IsPast(At(Next(s, step), Launcher(r))) ==> IsPast(At(s, Launcher(r))) || Reports(s, step, r)
    ensures At(Next(s, step), Launcher(r)).Dead? ==> At(s, Launcher(r)).Dead? || step == Crash(Launcher(r))
  {
    hide PtyUnique;
    if OfRecording(step) {
      ReportsRecorded(s, step, r);
    }
  }

  lemma ReportsRecorded(s: Sys, step: Step, r: RunId)
    requires PtyUnique(s.db) && OfRecording(step)
    ensures IsPast(At(Next(s, step), Launcher(r))) ==> IsPast(At(s, Launcher(r)))
    ensures At(Next(s, step), Launcher(r)).Dead? ==> At(s, Launcher(r)).Dead?
  {
    hide PtyUnique;
  }

  /** Beyond the spawn and what it led to first. */
  ghost predicate IsPast(pc: Pc) {
    !pc.Idle? && !pc.Begun? && !pc.Refused? && !pc.Started? && !pc.Dead?
  }

  /** In every schedule a launcher that has returned tried to link its process, or to end its run as refused. */
  lemma {:induction false} ReturnsReported(steps: seq<Step>, r: RunId) returns (i: nat)
    requires IsPast(At(After(START, steps), Launcher(r)))
    ensures i < |steps| && Reports(After(START, steps[..i]), steps[i], r)
    decreases |steps|
  {
    hide After;
    if steps == [] {
      NothingYet();
      assert false;
    } else {
      hide Next, Reports;
      var n := |steps| - 1;
      var s := After(START, steps[..n]);
      AfterLast(steps);
      StartIsSafe();
      AfterSafe(START, steps[..n]);
      IsUnique(s);
      ReportsNow(s, steps[n], r);
      if IsPast(At(s, Launcher(r))) {
        i := ReturnsReported(steps[..n], r);
      } else {
        i := n;
      }
    }
  }

  // ---- Ends ----

  /** The step ends the open run `r` that way. */
  ghost predicate EndsAs(s: Sys, step: Step, r: RunId, end: End) {
    && IsOpen(s.db, r)
    && match end.reason
       case SpawnFailed => step == EndRefused(r, end.at, true) && At(s, Launcher(r)).Refused? && end.code.None?
       case Interrupted =>
         && step.EndGone? && step.ok && step.now == end.at && end.code.None? && At(s, Client(step.client)).Listed?
         && r in GoneRuns(s.db, At(s, Client(step.client)).alive, step.now - PENDING_GRACE)
       case Exited =>
         && step.EndByPty? && step.ok && At(s, step.thread).Ending? && HasPty(s.db, r, At(s, step.thread).pty)
         && end.code == Some(At(s, step.thread).code) && end.at == At(s, step.thread).at
  }

  lemma EndedBy(s: Sys, step: Step, r: RunId)
    requires PtyUnique(s.db)
    requires var u := Next(s, step);
             r in u.db.runs && u.db.runs[r].end.Some? && (r in s.db.runs ==> s.db.runs[r].end != u.db.runs[r].end)
    ensures EndsAs(s, step, r, Next(s, step).db.runs[r].end.value)
  {
    hide PtyUnique;
    if step.EndByPty? {
      EndedByPty(s, step, r);
    } else if step.Link? || step.Attach? {
      LinkingEndsNone(s, step, r);
    }
  }

  lemma EndedByPty(s: Sys, step: Step, r: RunId)
    requires PtyUnique(s.db) && step.EndByPty?
    requires var u := Next(s, step);
             r in u.db.runs && u.db.runs[r].end.Some? && (r in s.db.runs ==> s.db.runs[r].end != u.db.runs[r].end)
    ensures EndsAs(s, step, r, Next(s, step).db.runs[r].end.value)
  {
    hide PtyUnique;
  }

  lemma LinkingEndsNone(s: Sys, step: Step, r: RunId)
    requires PtyUnique(s.db) && (step.Link? || step.Attach?) && r in Next(s, step).db.runs
    ensures r in s.db.runs && s.db.runs[r].end == Next(s, step).db.runs[r].end
  {
    hide PtyUnique;
  }

  ghost predicate EndsAt(steps: seq<Step>, i: nat, r: RunId, end: End) {
    i < |steps| && EndsAs(After(START, steps[..i]), steps[i], r, end)
  }

  /**
   In every schedule an ended run was ended by one step, which found it open: by its launcher or a
   reconciler at that step's time, or by its PTY with the code and the time the thread was told.
   */
  lemma {:induction false} EndedWhen(steps: seq<Step>, r: RunId) returns (i: nat)
    requires r in After(START, steps).db.runs && After(START, steps).db.runs[r].end.Some?
    ensures EndsAt(steps, i, r, After(START, steps).db.runs[r].end.value)
    decreases |steps|
  {
    hide After;
    if steps == [] {
      NothingYet();
      assert false;
    } else {
      hide Next, EndsAs;
      var n := |steps| - 1;
      var s, u := After(START, steps[..n]), After(START, steps);
      AfterLast(steps);
      if r in s.db.runs && s.db.runs[r].end == u.db.runs[r].end {
        i := EndedWhen(steps[..n], r);
      } else {
        EndedBy(s, steps[n], r);
        i := n;
      }
    }
  }

  /** So a run recorded as exited has the code and the time that some step told of its process. */
  lemma ExitTold(steps: seq<Step>, r: RunId) returns (i: nat, p: Pty, via: Via)
    requires var s := After(START, steps);
             r in s.db.runs && s.db.runs[r].end.Some? && s.db.runs[r].end.value.reason.Exited?
    ensures var end := After(START, steps).db.runs[r].end.value;
            HasPty(After(START, steps).db, r, p) && end.code.Some? && TellsAt(steps, i, p, end.code.value, end.at, via)
  {
    hide After, Safe, Tells;
    var j := EndedWhen(steps, r);
    var t := steps[j].thread;
    i := EndingTold(steps[..j], t);
    p, via := At(After(START, steps[..j]), t).pty, At(After(START, steps[..j]), t).via;
    assert steps[..j][..i] == steps[..i];
    LinkStays(steps, j, r, p);
  }

  lemma {:induction false} LinkStays(steps: seq<Step>, j: nat, r: RunId, p: Pty)
    requires j <= |steps| && HasPty(After(START, steps[..j]).db, r, p)
    ensures HasPty(After(START, steps).db, r, p)
    decreases |steps|
  {
    hide After, Safe;
    if j == |steps| {
      assert steps[..j] == steps;
    } else {
      hide Next;
      var n := |steps| - 1;
      AfterLast(steps);
      LinkStays(steps[..n], j, r, p);
      StartIsSafe();
      AfterSafe(START, steps[..n]);
      NextSafe(After(START, steps[..n]), steps[n]);
    }
  }

  // ---- Events ----

  /** The step makes the event: with what it ends the run by, or as the reconciler that ended it. */
  ghost predicate Makes(s: Sys, step: Step, k: Key, x: ExitEvent) {
    match step
    case EndByPty(t, ok) =>
      && ok && At(s, t).Ending? && HasPty(s.db, x.run, At(s, t).pty) && IsOpen(s.db, x.run)
      && k == ByPty(At(s, t).pty) && x == ExitEvent(x.run, Some(At(s, t).code), Exited, At(s, t).via, At(s, t).at)
    case WriteGone(c, r, now, ok) =>
      && ok && At(s, Client(c)).Closing? && r in At(s, Client(c)).gone && k == At(s, Client(c)).gone[r]
      && x == ExitEvent(r, None, Interrupted, Reconcile, now)
    case _ => false
  }

  ghost predicate MakesAt(steps: seq<Step>, i: nat, k: Key, x: ExitEvent) {
    i < |steps| && Makes(After(START, steps[..i]), steps[i], k, x)
  }

  ghost predicate IsWriting(pc: Pc, k: Key, x: ExitEvent) {
    pc.Writing? && pc.key == k && pc.exit == x
  }

  ghost predicate IsMade(s: Sys, k: Key, x: ExitEvent) {
    (k in s.db.exits && s.db.exits[k] == x) || exists t :: t in s.threads && IsWriting(s.threads[t], k, x)
  }

  lemma WritingNow(s: Sys, step: Step, t: Thread, k: Key, x: ExitEvent)
    requires PtyUnique(s.db) && IsWriting(At(Next(s, step), t), k, x)
    ensures IsWriting(At(s, t), k, x) || Makes(s, step, k, x)
  {
    hide PtyUnique;
    if OfRecording(step) {
      WritingRecorded(s, step, t, k, x);
    }
  }

  lemma WritingRecorded(s: Sys, step: Step, t: Thread, k: Key, x: ExitEvent)
    requires PtyUnique(s.db) && OfRecording(step) && IsWriting(At(Next(s, step), t), k, x)
    ensures IsWriting(At(s, t), k, x) || Makes(s, step, k, x)
  {
    hide PtyUnique;
  }

  lemma WrittenNow(s: Sys, step: Step, k: Key)
    requires PtyUnique(s.db) && k in Next(s, step).db.exits
    ensures var x := Next(s, step).db.exits[k];
            || (k in s.db.exits && s.db.exits[k] == x) || Makes(s, step, k, x)
            || (step.Write? && step.ok && IsWriting(At(s, step.thread), k, x))
  {
    hide PtyUnique;
    if OfRecording(step) {
      WrittenRecorded(s, step, k);
    }
  }

  lemma WrittenRecorded(s: Sys, step: Step, k: Key)
    requires PtyUnique(s.db) && OfRecording(step) && k in Next(s, step).db.exits
    ensures var x := Next(s, step).db.exits[k];
            || (k in s.db.exits && s.db.exits[k] == x)
            || (step.Write? && step.ok && IsWriting(At(s, step.thread), k, x))
  {
    hide PtyUnique;
  }

  lemma MadeNow(s: Sys, step: Step, k: Key, x: ExitEvent)
    requires PtyUnique(s.db) && IsMade(Next(s, step), k, x)
    ensures IsMade(s, k, x) || Makes(s, step, k, x)
  {
    hide PtyUnique, Next, Makes;
    var u := Next(s, step);
    if k in u.db.exits && u.db.exits[k] == x {
      WrittenNow(s, step, k);
    } else {
      var t :| t in u.threads && IsWriting(u.threads[t], k, x);
      WritingNow(s, step, t, k, x);
    }
  }

  lemma {:induction false} EventMade(steps: seq<Step>, k: Key, x: ExitEvent) returns (i: nat)
    requires IsMade(After(START, steps), k, x)
    ensures MakesAt(steps, i, k, x)
    decreases |steps|
  {
    hide After, IsMade;
    if steps == [] {
      NothingYet();
      NothingMade(k, x);
      assert false;
    } else {
      hide Next, Makes;
      var n := |steps| - 1;
      AfterLast(steps);
      MadeNow(After(START, steps[..n]), steps[n], k, x);
      if IsMade(After(START, steps[..n]), k, x) {
        i := EventMade(steps[..n], k, x);
      } else {
        i := n;
      }
    }
  }

  lemma NothingMade(k: Key, x: ExitEvent)
    ensures !IsMade(START, k, x)
  {
  }

  /**
   In every schedule the event of an exited run is keyed by its PTY and has the code, the time and the
   way that some step told of its process.
   */
  lemma EventTold(steps: seq<Step>, k: Key) returns (i: nat, p: Pty)
    requires k in After(START, steps).db.exits && After(START, steps).db.exits[k].reason.Exited?
    ensures var s := After(START, steps);
            var x := s.db.exits[k];
            && k == ByPty(p) && HasPty(s.db, x.run, p)
            && x.code.Some? && TellsAt(steps, i, p, x.code.value, x.at, x.via)
  {
    hide After, Tells;
    var x := After(START, steps).db.exits[k];
    var j := EventMade(steps, k, x);
    i := EndingTold(steps[..j], steps[j].thread);
    p := At(After(START, steps[..j]), steps[j].thread).pty;
    assert steps[..j][..i] == steps[..i];
    LinkStays(steps, j, x.run, p);
  }

  /** And that of an interrupted one was written by a reconciler, at its own time. */
  lemma EventReconciled(steps: seq<Step>, k: Key) returns (i: nat)
    requires k in After(START, steps).db.exits && !After(START, steps).db.exits[k].reason.Exited?
    ensures var x := After(START, steps).db.exits[k];
            && i < |steps| && steps[i].WriteGone? && steps[i].ok && steps[i].run == x.run && steps[i].now == x.at
            && x == ExitEvent(x.run, None, Interrupted, Reconcile, x.at)
  {
    hide After;
    i := EventMade(steps, k, After(START, steps).db.exits[k]);
  }
}
