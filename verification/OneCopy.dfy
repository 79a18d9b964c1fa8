/**
 One copy of the app per profile: copies that start, ask the one that has the profile to show its
 window, wait and give up, and the one that answers, leaves and goes, interleaved at every touch
 of the lock, the request file and the leaving flag, any of which but the last may fail.
 */
module OneCopy {
  import opened Options

  type Copy = nat

  datatype Result = Ours | Shown | Stuck | Unguarded

  /** In `claim`: the next call. `asked` is when the request was written, in the log. */
  datatype Pc =
    | Absent
    | Trying(before: Option<nat>)    // AppLock::take
    | Clearing                      // remove_file, with the lock taken
    | Asking                        // fs::write
    | Looking(asked: nat)           // request.exists
    | Timing(asked: nat)            // the deadline
    | GivingUp                      // remove_file
    | Done(result: Result)
    | Gone

  /** The thread that answers: where it stands in `answer`, and when it did what it did. */
  datatype Watch =
    | Resting
    | Reading(readAt: nat)
    | Found(readAt: nat)
    | Showing(readAt: nat, shownAt: nat)

  datatype Event =
    | Asked(copy: Copy)
    | ReadFlag(holder: Copy, leaving: bool)
    | ShowedWindow(holder: Copy)
    | Answered(holder: Copy, readAt: nat, shownAt: nat)
    | Cleared(copy: Copy)

  datatype Sys = Sys(lock: Option<Copy>, request: bool, leaving: set<Copy>, copies: map<Copy, Pc>, watches: map<Copy, Watch>, log: seq<Event>)

  const START := Sys(None, false, {}, map[], map[], [])

  datatype Step =
    | Launch(copy: Copy)
    | TakeLock(copy: Copy, ok: bool)
    | WriteRequest(copy: Copy, ok: bool)
    | Look(copy: Copy, ok: bool)
    | CheckTime(copy: Copy, late: bool)
    | RemoveOwn(copy: Copy, ok: bool)
    | Leave(copy: Copy)
    | ReadLeaving(copy: Copy)
    | FindRequest(copy: Copy, ok: bool)
    | ShowWindow(copy: Copy, shown: bool)
    | RemoveAnswered(copy: Copy, ok: bool)
    | End(copy: Copy)

  function At(s: Sys, c: Copy): Pc {
    if c in s.copies then s.copies[c] else Absent
  }

  function WatchOf(s: Sys, c: Copy): Watch {
    if c in s.watches then s.watches[c] else Resting
  }

  function Goto(s: Sys, c: Copy, pc: Pc): Sys {
    s.(copies := s.copies[c := pc])
  }

  function WatchGoto(s: Sys, c: Copy, watch: Watch): Sys {
    s.(watches := s.watches[c := watch])
  }

  function Log(s: Sys, event: Event): Sys {
    s.(log := s.log + [event])
  }

  predicate Holds(s: Sys, c: Copy) {
    At(s, c) == Done(Ours)
  }

  predicate InClaim(pc: Pc) {
    !pc.Absent? && !pc.Done? && !pc.Gone?
  }

  function Next(s: Sys, step: Step): Sys {
    var c := step.copy;
    match step
    case Launch(_) => if At(s, c).Absent? then Goto(s, c, Trying(None)) else s
    case TakeLock(_, ok) =>
      if !At(s, c).Trying? then s
      else if !ok then Goto(s, c, Done(Unguarded))
      else if s.lock.None? then Goto(s.(lock := Some(c)), c, Clearing)
      else if At(s, c).before.None? then Goto(s, c, Asking)
      else Goto(s, c, Looking(At(s, c).before.value))
    case WriteRequest(_, ok) =>
      if !At(s, c).Asking? then s
      else if !ok then Goto(s, c, Done(Unguarded))
      else Log(Goto(s.(request := true), c, Timing(|s.log|)), Asked(c))
    // A file that cannot be looked at does not exist, to either side.
    case Look(_, ok) =>
      if !At(s, c).Looking? then s
      else if ok && s.request then Goto(s, c, Timing(At(s, c).asked))
      else Goto(s, c, Done(Shown))
    case CheckTime(_, late) =>
      if !At(s, c).Timing? then s
      else if late then Goto(s, c, GivingUp)
      else Goto(s, c, Trying(Some(At(s, c).asked)))
    case RemoveOwn(_, ok) =>
      if At(s, c).Clearing? then Goto(Clear(s, c, ok), c, Done(Ours))
      else if At(s, c).GivingUp? then Goto(Clear(s, c, ok), c, Done(Stuck))
      else s
    case Leave(_) => if Holds(s, c) then s.(leaving := s.leaving + {c}) else s
    case ReadLeaving(_) =>
      if Holds(s, c) && WatchOf(s, c).Resting? then
        var going := c in s.leaving;
        Log(WatchGoto(s, c, if going then Resting else Reading(|s.log|)), ReadFlag(c, going))
      else s
    case FindRequest(_, ok) =>
      if Holds(s, c) && WatchOf(s, c).Reading? then
        WatchGoto(s, c, if ok && s.request then Found(WatchOf(s, c).readAt) else Resting)
      else s
    case ShowWindow(_, shown) =>
      if !Holds(s, c) || !WatchOf(s, c).Found? then s
      else if !shown then WatchGoto(s, c, Resting)
      else Log(WatchGoto(s, c, Showing(WatchOf(s, c).readAt, |s.log|)), ShowedWindow(c))
    case RemoveAnswered(_, ok) =>
      if !Holds(s, c) || !WatchOf(s, c).Showing? then s
      else if !ok then WatchGoto(s, c, Resting)
      else
        var Showing(readAt, shownAt) := WatchOf(s, c);
        Log(WatchGoto(s.(request := false), c, Resting), Answered(c, readAt, shownAt))
    case End(_) =>
      Goto(s.(lock := if s.lock == Some(c) then None else s.lock), c, Gone)
  }

  function Clear(s: Sys, c: Copy, ok: bool): Sys {
    if ok then Log(s.(request := false), Cleared(c)) else s
  }

  ghost function After(s: Sys, steps: seq<Step>): Sys
    decreases |steps|
  {
    if steps == [] then s else Next(After(s, steps[..|steps| - 1]), steps[|steps| - 1])
  }

  // ---- Any number of copies ----

  ghost predicate LockOk(s: Sys) {
    forall c: Copy :: s.lock == Some(c) <==> At(s, c).Clearing? || Holds(s, c)
  }

  /** The lock is taken exactly while the copy that took it clears what was left over, or has the profile. */
  lemma {:induction false} LockIsKept(steps: seq<Step>)
    ensures LockOk(After(START, steps))
    decreases |steps|
  {
    if steps != [] {
      LockIsKept(steps[..|steps| - 1]);
      LockNext(After(START, steps[..|steps| - 1]), steps[|steps| - 1]);
    }
  }

  lemma LockNext(s: Sys, step: Step)
    requires LockOk(s)
    ensures LockOk(Next(s, step))
  {
  }

  /** However many copies start, ask, leave and die, at most one has the profile. */
  lemma OneHolder(steps: seq<Step>, c1: Copy, c2: Copy)
    requires Holds(After(START, steps), c1) && Holds(After(START, steps), c2)
    ensures c1 == c2
  {
    LockIsKept(steps);
  }

  // ---- Leaving ----

  /** The copy has the profile and is told to leave. */
  ghost predicate LeavesAt(steps: seq<Step>, i: nat, c: Copy) {
    i < |steps| && steps[i] == Leave(c) && Holds(After(START, steps[..i]), c)
  }

  ghost predicate HasLeft(steps: seq<Step>, c: Copy) {
    exists i: nat :: LeavesAt(steps, i, c)
  }

  lemma AfterLast(steps: seq<Step>)
    requires steps != []
    ensures var n := |steps| - 1;
            && After(START, steps) == Next(After(START, steps[..n]), steps[n])
            && steps[..n + 1] == steps && forall i :: 0 <= i <= n ==> steps[..n][..i] == steps[..i]
  {
    hide Next;
  }

  lemma LeavingNow(s: Sys, step: Step, c: Copy)
    ensures c in Next(s, step).leaving <==> c in s.leaving || (step == Leave(c) && Holds(s, c))
  {
  }

  lemma {:induction false} LeftIff(steps: seq<Step>, c: Copy)
    ensures c in After(START, steps).leaving <==> HasLeft(steps, c)
    decreases |steps|
  {
    hide After;
    if steps == [] {
      NothingYet();
    } else {
      hide Next, Holds;
      var n := |steps| - 1;
      AfterLast(steps);
      LeftIff(steps[..n], c);
      LeavingNow(After(START, steps[..n]), steps[n], c);
      assert forall i: nat :: i < n ==> (LeavesAt(steps, i, c) <==> LeavesAt(steps[..n], i, c));
      assert LeavesAt(steps, n, c) <==> steps[n] == Leave(c) && Holds(After(START, steps[..n]), c);
    }
  }

  lemma NothingYet()
    ensures After(START, []) == START
  {
  }

  lemma LogNow(s: Sys, step: Step)
    ensures s.log <= Next(s, step).log && |Next(s, step).log| <= |s.log| + 1
    ensures |Next(s, step).log| > |s.log| && Next(s, step).log[|s.log|].ReadFlag? ==>
              var event := Next(s, step).log[|s.log|];
              step == ReadLeaving(event.holder) && (event.leaving <==> event.holder in s.leaving)
  {
  }

  /** In every schedule a holder reads its flag as set exactly when it was told to leave before. */
  lemma {:induction false} FlagRead(steps: seq<Step>, k: nat) returns (j: nat)
    requires k < |After(START, steps).log| && After(START, steps).log[k].ReadFlag?
    ensures j < |steps| && |After(START, steps[..j]).log| == k < |After(START, steps[..j + 1]).log|
    ensures var event := After(START, steps).log[k];
            steps[j] == ReadLeaving(event.holder) && (event.leaving <==> HasLeft(steps[..j], event.holder))
    decreases |steps|
  {
    hide After, HasLeft;
    if steps == [] {
      NothingYet();
      assert false;
    } else {
      hide Next;
      var n := |steps| - 1;
      var s := After(START, steps[..n]);
      AfterLast(steps);
      LogNow(s, steps[n]);
      if k < |s.log| {
        j := FlagRead(steps[..n], k);
      } else {
        j := n;
        LeftIff(steps[..n], After(START, steps).log[k].holder);
      }
    }
  }

  /** So a holder that was told to leave answers nobody by a flag it reads from then on. */
  lemma LeavingAnswersNobody(steps: seq<Step>, i: nat, c: Copy, k: nat)
    requires LeavesAt(steps, i, c) && k < |After(START, steps).log|
    ensures var log := After(START, steps).log;
            && (log[k] == ReadFlag(c, false) ==> k < |After(START, steps[..i]).log|)
            && (log[k].Answered? && log[k].holder == c ==> log[k].readAt < |After(START, steps[..i]).log|)
  {
    hide After, Next;
    var log := After(START, steps).log;
    if log[k] == ReadFlag(c, false) {
      ReadBeforeLeaving(steps, i, c, k);
    } else if log[k].Answered? && log[k].holder == c {
      AnsweredByRead(steps, k);
      ReadBeforeLeaving(steps, i, c, log[k].readAt);
    }
  }

  lemma ReadBeforeLeaving(steps: seq<Step>, i: nat, c: Copy, k: nat)
    requires LeavesAt(steps, i, c) && IsEvent(After(START, steps).log, k, ReadFlag(c, false))
    ensures k < |After(START, steps[..i]).log|
  {
    hide After, Next, HasLeft;
    var j := FlagRead(steps, k);
    if i < j {
      LeftBefore(steps, i, j, c);
    } else {
      assert j < i && steps[..i][..j + 1] == steps[..j + 1];
      LogStays(steps[..i], j + 1);
    }
  }

  lemma LeftBefore(steps: seq<Step>, i: nat, j: nat, c: Copy)
    requires i < j <= |steps| && LeavesAt(steps, i, c)
    ensures HasLeft(steps[..j], c)
  {
    hide After;
    assert steps[..j][..i] == steps[..i];
    assert LeavesAt(steps[..j], i, c);
  }

  lemma {:induction false} LogStays(steps: seq<Step>, i: nat)
    requires i <= |steps|
    ensures After(START, steps[..i]).log <= After(START, steps).log
    decreases |steps|
  {
    hide After;
    if i == |steps| {
      assert steps[..i] == steps;
    } else {
      hide Next;
      var n := |steps| - 1;
      AfterLast(steps);
      LogStays(steps[..n], i);
      LogNow(After(START, steps[..n]), steps[n]);
    }
  }

  /** Whoever took a request away had read its flag as unset, and then shown its window. */
  lemma {:induction false} AnsweredByRead(steps: seq<Step>, k: nat)
    requires k < |After(START, steps).log| && After(START, steps).log[k].Answered?
    ensures IsAnswer(After(START, steps).log, k)
    decreases |steps|
  {
    hide After;
    if steps == [] {
      NothingYet();
      assert false;
    } else {
      hide Next, IsAnswer;
      var n := |steps| - 1;
      var s, u := After(START, steps[..n]), After(START, steps);
      AfterLast(steps);
      LogNow(s, steps[n]);
      ExplainedAfter(steps[..n]);
      if k < |s.log| {
        AnsweredByRead(steps[..n], k);
        if u.log != s.log {
          assert u.log == s.log + [u.log[|s.log|]];
          LogGrows(s.log, u.log[|s.log|]);
        }
      } else {
        AnswersNow(s, steps[n]);
      }
    }
  }

  lemma AnswersNow(s: Sys, step: Step)
    requires Explained(s) && |Next(s, step).log| > |s.log| && Next(s, step).log[|s.log|].Answered?
    ensures IsAnswer(Next(s, step).log, |s.log|)
  {
    LogGrows(s.log, Next(s, step).log[|s.log|]);
    assert WatchOk(s, step.copy, WatchOf(s, step.copy));
  }

  // ---- One copy asking at a time ----

  /** A copy starts only when no other is in `claim`. */
  ghost predicate Alone(s: Sys, step: Step) {
    step.Launch? ==> forall c :: c in s.copies ==> !InClaim(s.copies[c])
  }

  ghost predicate OneAtATime(steps: seq<Step>)
    decreases |steps|
  {
    steps == [] || (OneAtATime(steps[..|steps| - 1]) && Alone(After(START, steps[..|steps| - 1]), steps[|steps| - 1]))
  }

  ghost predicate IsEvent(log: seq<Event>, at: nat, event: Event) {
    at < |log| && log[at] == event
  }

  /** At `k` a holder took a request away, having read its flag unset and then shown its window. */
  ghost predicate IsAnswer(log: seq<Event>, k: nat) {
    && k < |log| && log[k].Answered?
    && log[k].readAt < log[k].shownAt < k
    && IsEvent(log, log[k].readAt, ReadFlag(log[k].holder, false))
    && IsEvent(log, log[k].shownAt, ShowedWindow(log[k].holder))
  }

  ghost predicate AnsweredSince(log: seq<Event>, asked: nat) {
    exists k: nat :: asked < k && IsAnswer(log, k)
  }

  ghost function AskedAt(pc: Pc): Option<nat> {
    match pc
    case Trying(asked) => asked
    case Looking(asked) => Some(asked)
    case Timing(asked) => Some(asked)
    case _ => None
  }

  ghost predicate WatchOk(s: Sys, c: Copy, watch: Watch) {
    match watch
    case Resting => true
    case Reading(readAt) => IsEvent(s.log, readAt, ReadFlag(c, false))
    case Found(readAt) => IsEvent(s.log, readAt, ReadFlag(c, false))
    case Showing(readAt, shownAt) =>
      readAt < shownAt && IsEvent(s.log, readAt, ReadFlag(c, false)) && IsEvent(s.log, shownAt, ShowedWindow(c))
  }

  ghost predicate Quiet(s: Sys) {
    && (forall c :: c in s.watches ==> WatchOk(s, c, s.watches[c]))
    && (forall c, d :: c in s.copies && d in s.copies && InClaim(s.copies[c]) && InClaim(s.copies[d]) ==> c == d)
    && (forall c :: c in s.copies && AskedAt(s.copies[c]).Some? ==>
          && IsEvent(s.log, AskedAt(s.copies[c]).value, Asked(c))
          && (s.request || AnsweredSince(s.log, AskedAt(s.copies[c]).value)))
  }

  lemma LogGrows(log: seq<Event>, event: Event)
    ensures forall at, e :: IsEvent(log, at, e) ==> IsEvent(log + [event], at, e)
    ensures forall k: nat :: IsAnswer(log, k) ==> IsAnswer(log + [event], k)
    ensures forall asked: nat :: AnsweredSince(log, asked) ==> AnsweredSince(log + [event], asked)
    ensures IsEvent(log + [event], |log|, event)
  {
    forall k: nat | IsAnswer(log, k) ensures IsAnswer(log + [event], k) {
      assert (log + [event])[k] == log[k];
    }
    forall asked: nat | AnsweredSince(log, asked) ensures AnsweredSince(log + [event], asked) {
      var k: nat :| asked < k && IsAnswer(log, k);
      assert IsAnswer(log + [event], k);
    }
  }

  lemma QuietNext(s: Sys, step: Step)
    requires Quiet(s) && Alone(s, step)
    ensures Quiet(Next(s, step))
  {
    match step
    case WriteRequest(c, ok) => if At(s, c).Asking? && ok { QuietAsking(s, c); }
    case ReadLeaving(_) => if |Next(s, step).log| == |s.log| + 1 { QuietAnswering(s, step); }
    case ShowWindow(_, _) => if |Next(s, step).log| == |s.log| + 1 { QuietAnswering(s, step); }
    case RemoveAnswered(_, _) => if |Next(s, step).log| == |s.log| + 1 { QuietAnswering(s, step); }
    case FindRequest(c, _) => assert WatchOf(s, c).Resting? || WatchOk(s, c, WatchOf(s, c));
    case _ => QuietClaiming(s, step);
  }

  /** The steps of `claim`, and a copy's end. */
  lemma QuietClaiming(s: Sys, step: Step)
    requires Quiet(s) && Alone(s, step)
    requires step.Launch? || step.TakeLock? || step.Look? || step.CheckTime? || step.RemoveOwn? || step.Leave? || step.End?
    ensures Quiet(Next(s, step))
  {
    hide Quiet;
    match step
    case Launch(c) => QuietMoving(s, Next(s, step), c);
    case TakeLock(c, ok) => QuietTaking(s, c, ok);
    case Look(c, _) => QuietMoving(s, Next(s, step), c);
    case CheckTime(c, late) => QuietMoving(s, Next(s, step), c);
    case RemoveOwn(c, ok) => QuietRemoving(s, c, ok);
    case Leave(c) => QuietMoving(s, Next(s, step), c);
    case End(c) => QuietMoving(s, Next(s, step), c);
  }

  lemma QuietTaking(s: Sys, c: Copy, ok: bool)
    requires Quiet(s)
    ensures Quiet(Next(s, TakeLock(c, ok)))
  {
    hide Quiet;
    QuietMoving(s, Next(s, TakeLock(c, ok)), c);
  }

  /** Who takes its own request away is the only one in `claim`: nobody is left waiting for it. */
  lemma QuietRemoving(s: Sys, c: Copy, ok: bool)
    requires Quiet(s)
    ensures Quiet(Next(s, RemoveOwn(c, ok)))
  {
    var u := Next(s, RemoveOwn(c, ok));
    if u != s {
      NobodyWaits(s, u, c);
      LogGrows(s.log, Cleared(c));
    }
  }

  lemma NobodyWaits(s: Sys, u: Sys, c: Copy)
    requires forall d :: d in s.copies && InClaim(s.copies[d]) ==> d == c
    requires c in s.copies && c in u.copies && u.copies == s.copies[c := u.copies[c]] && u.copies[c].Done?
    ensures forall d :: d in u.copies ==> !InClaim(u.copies[d]) && AskedAt(u.copies[d]).None?
  {
  }

  /** One copy moved within `claim`, or into it alone, or out of it. */
  lemma QuietMoving(s: Sys, u: Sys, c: Copy)
    requires Quiet(s)
    requires u.log == s.log && u.watches == s.watches && u.request == s.request
    requires u.copies == s.copies || (c in u.copies && u.copies == s.copies[c := u.copies[c]])
    requires u.copies == s.copies || InClaim(At(s, c)) || !InClaim(u.copies[c]) || (forall d :: d in s.copies ==> !InClaim(s.copies[d]))
    requires u.copies == s.copies || AskedAt(u.copies[c]).None? || AskedAt(u.copies[c]) == AskedAt(At(s, c))
    ensures Quiet(u)
  {
  }

  lemma QuietAsking(s: Sys, c: Copy)
    requires Quiet(s) && At(s, c).Asking?
    ensures Quiet(Next(s, WriteRequest(c, true)))
  {
    LogGrows(s.log, Asked(c));
  }

  lemma QuietAnswering(s: Sys, step: Step)
    requires Quiet(s) && (step.ReadLeaving? || step.ShowWindow? || step.RemoveAnswered?)
    requires |Next(s, step).log| == |s.log| + 1
    ensures Quiet(Next(s, step))
  {
    var u := Next(s, step);
    LogGrows(s.log, u.log[|s.log|]);
    assert WatchOf(s, step.copy).Resting? || WatchOk(s, step.copy, WatchOf(s, step.copy));
    if step.RemoveAnswered? {
      assert IsAnswer(u.log, |s.log|);
    }
    forall d | d in u.copies && AskedAt(u.copies[d]).Some?
      ensures IsEvent(u.log, AskedAt(u.copies[d]).value, Asked(d))
      ensures u.request || AnsweredSince(u.log, AskedAt(u.copies[d]).value)
    {
      assert IsEvent(s.log, AskedAt(s.copies[d]).value, Asked(d));
    }
  }

  lemma {:induction false} QuietAfter(steps: seq<Step>)
    requires OneAtATime(steps)
    ensures Quiet(After(START, steps))
    decreases |steps|
  {
    if steps != [] {
      QuietAfter(steps[..|steps| - 1]);
      QuietNext(After(START, steps[..|steps| - 1]), steps[|steps| - 1]);
    }
  }

  /** The call with which a copy's `claim` comes to that. */
  ghost predicate Concludes(s: Sys, step: Step, c: Copy, result: Result) {
    match result
    case Ours => step.RemoveOwn? && step.copy == c && At(s, c).Clearing?
    case Shown => step.Look? && step.copy == c && At(s, c).Looking? && (!step.ok || !s.request)
    case Stuck => step.RemoveOwn? && step.copy == c && At(s, c).GivingUp?
    case Unguarded => (step == TakeLock(c, false) && At(s, c).Trying?) || (step == WriteRequest(c, false) && At(s, c).Asking?)
  }

  lemma ConcludesNow(s: Sys, step: Step, c: Copy)
    requires At(Next(s, step), c).Done?
    ensures At(s, c) == At(Next(s, step), c) || Concludes(s, step, c, At(Next(s, step), c).result)
  {
  }

  lemma {:induction false} ConcludedBy(steps: seq<Step>, c: Copy) returns (i: nat)
    requires At(After(START, steps), c).Done?
    ensures i < |steps| && Concludes(After(START, steps[..i]), steps[i], c, At(After(START, steps), c).result)
    decreases |steps|
  {
    hide After;
    if steps == [] {
      NothingYet();
      assert false;
    } else {
      hide Next, Concludes;
      var n := |steps| - 1;
      AfterLast(steps);
      ConcludesNow(After(START, steps[..n]), steps[n], c);
      if At(After(START, steps[..n]), c) == At(After(START, steps), c) {
        i := ConcludedBy(steps[..n], c);
      } else {
        i := n;
      }
    }
  }

  lemma ConcludesThere(s: Sys, step: Step, c: Copy, result: Result)
    ensures Concludes(s, step, c, result) ==> At(Next(s, step), c) == Done(result)
    ensures At(s, c) == Done(result) || At(s, c).Gone? ==> At(Next(s, step), c) == Done(result) || At(Next(s, step), c).Gone?
  {
  }

  /** And a copy that made such a call has come to that, until it ends: a call that failed in time to `Unguarded`. */
  lemma {:induction false} Concluded(steps: seq<Step>, i: nat, c: Copy, result: Result)
    requires i < |steps| && Concludes(After(START, steps[..i]), steps[i], c, result)
    ensures At(After(START, steps), c) == Done(result) || At(After(START, steps), c).Gone?
    decreases |steps|
  {
    hide After, Next, Concludes;
    var n := |steps| - 1;
    AfterLast(steps);
    ConcludesThere(After(START, steps[..n]), steps[n], c, result);
    if i < n {
      Concluded(steps[..n], i, c, result);
    }
  }

  // ---- The request ----

  /** The last that the log says of the request is that it was written. */
  ghost predicate IsAsked(log: seq<Event>) {
    exists k :: 0 <= k < |log| && log[k].Asked? && forall j :: k < j < |log| ==> !log[j].Answered? && !log[j].Cleared?
  }

  /** In every schedule there is a request exactly when nobody has answered or cleared what was asked last. */
  lemma {:induction false} RequestIff(steps: seq<Step>)
    ensures After(START, steps).request <==> IsAsked(After(START, steps).log)
    decreases |steps|
  {
    hide After, Next, IsAsked;
    if steps == [] {
      NothingYet();
      NobodyAsks();
    } else {
      var n := |steps| - 1;
      AfterLast(steps);
      RequestIff(steps[..n]);
      RequestNow(After(START, steps[..n]), steps[n]);
    }
  }

  lemma NobodyAsks()
    ensures !IsAsked([])
  {
  }

  lemma RequestNow(s: Sys, step: Step)
    requires s.request <==> IsAsked(s.log)
    ensures Next(s, step).request <==> IsAsked(Next(s, step).log)
  {
    hide IsAsked;
    var u := Next(s, step);
    if u.log != s.log {
      AskedOn(s.log, u.log[|s.log|]);
    }
  }

  lemma AskedOn(log: seq<Event>, event: Event)
    ensures IsAsked(log + [event]) <==> event.Asked? || (IsAsked(log) && !event.Answered? && !event.Cleared?)
  {
    var more := log + [event];
    assert more[|log|] == event;
    if event.Asked? {
      assert IsAsked(more);
    } else if !event.Answered? && !event.Cleared? {
      if IsAsked(log) {
        var k :| 0 <= k < |log| && log[k].Asked? && forall j :: k < j < |log| ==> !log[j].Answered? && !log[j].Cleared?;
        assert more[k].Asked?;
      }
    }
    if IsAsked(more) && !event.Asked? {
      var k :| 0 <= k < |more| && more[k].Asked? && forall j :: k < j < |more| ==> !more[j].Answered? && !more[j].Cleared?;
      assert k < |log| && log[k] == more[k];
      forall j | k < j < |log| ensures !log[j].Answered? && !log[j].Cleared? {
        assert more[j] == log[j];
      }
    }
  }

  lemma HolderAnswers(steps: seq<Step>, h: Copy) returns (more: seq<Step>, u: Sys)
    requires var s := After(START, steps); Holds(s, h) && WatchOf(s, h).Resting? && h !in s.leaving && s.request
    ensures more == steps + [ReadLeaving(h), FindRequest(h, true), ShowWindow(h, true), RemoveAnswered(h, true)]
    ensures var s := After(START, steps);
            var n := |s.log|;
            && u == After(START, more) && u.copies == s.copies && u.lock == s.lock && !u.request
            && u.log == s.log + [ReadFlag(h, false), ShowedWindow(h), Answered(h, n, n + 1)]
  {
    hide After;
    var s := After(START, steps);
    more, u := OneMore(steps, s, ReadLeaving(h));
    more, u := OneMore(more, u, FindRequest(h, true));
    more, u := OneMore(more, u, ShowWindow(h, true));
    more, u := OneMore(more, u, RemoveAnswered(h, true));
  }

  lemma AskerSees(steps: seq<Step>, c: Copy) returns (more: seq<Step>, u: Sys)
    requires var s := After(START, steps); At(s, c).Timing? && s.lock.Some? && !s.request
    ensures more == steps + [CheckTime(c, false), TakeLock(c, true), Look(c, true)]
    ensures u == After(START, more) && u == Goto(After(START, steps), c, Done(Shown))
  {
    hide After;
    var s := After(START, steps);
    more, u := OneMore(steps, s, CheckTime(c, false));
    more, u := OneMore(more, u, TakeLock(c, true));
    more, u := OneMore(more, u, Look(c, true));
  }

  /** Left to themselves, a holder that stays answers a copy that asks, which then gives way to the window. */
  lemma AskedIsAnswered(steps: seq<Step>, h: Copy, c: Copy) returns (more: seq<Step>, u: Sys)
    requires var s := After(START, steps);
             && Holds(s, h) && WatchOf(s, h).Resting? && !HasLeft(steps, h) && At(s, c).Timing? && s.request
    ensures steps <= more && u == After(START, more) && At(u, c) == Done(Shown) && Holds(u, h) && !u.request
    ensures var n := |After(START, steps).log|;
            u.log == After(START, steps).log + [ReadFlag(h, false), ShowedWindow(h), Answered(h, n, n + 1)]
  {
    hide After, HasLeft;
    LeftIff(steps, h);
    LockIsKept(steps);
    more, u := HolderAnswers(steps, h);
    more, u := AskerSees(more, c);
  }

  lemma {:induction false} AlsoBefore(steps: seq<Step>, i: nat)
    requires OneAtATime(steps) && i <= |steps|
    ensures OneAtATime(steps[..i])
    decreases |steps|
  {
    if i == |steps| {
      assert steps[..i] == steps;
    } else {
      AlsoBefore(steps[..|steps| - 1], i);
      assert steps[..|steps| - 1][..i] == steps[..i];
    }
  }

  /** The answer at `k` was given by a holder that had not been told to leave when it read its flag. */
  ghost predicate IsWilling(steps: seq<Step>, k: nat) {
    var log := After(START, steps).log;
    && IsAnswer(log, k)
    && exists j: nat :: j < |steps| && steps[j] == ReadLeaving(log[k].holder) && |After(START, steps[..j]).log| == log[k].readAt
                        && !HasLeft(steps[..j], log[k].holder)
  }

  lemma AnswersAreWilling(steps: seq<Step>, k: nat)
    requires IsAnswer(After(START, steps).log, k)
    ensures IsWilling(steps, k)
  {
    hide After, HasLeft;
    var j := FlagRead(steps, After(START, steps).log[k].readAt);
  }

  /**
   A copy that came to `Shown` gives way to a real window, unless it could not look: since it asked, a
   holder that had not been told to leave when it read its flag then showed its window and took the
   request away.
   */
  lemma ShownMeansShown(steps: seq<Step>, c: Copy) returns (i: nat)
    requires OneAtATime(steps) && At(After(START, steps), c) == Done(Shown)
    ensures i < |steps| && steps[i].Look? && steps[i].copy == c
    ensures !steps[i].ok || exists asked: nat, k: nat ::
              IsEvent(After(START, steps[..i]).log, asked, Asked(c)) && asked < k && IsWilling(steps[..i], k)
  {
    hide After, IsWilling;
    i := ConcludedBy(steps, c);
    AlsoBefore(steps, i);
    QuietAfter(steps[..i]);
    if steps[i].ok {
      var s := After(START, steps[..i]);
      assert AnsweredSince(s.log, At(s, c).asked);
      var k: nat :| At(s, c).asked < k && IsAnswer(s.log, k);
      AnswersAreWilling(steps[..i], k);
    }
  }

  /** A copy that came to `Stuck` had run out of time. */
  lemma {:induction false} StuckIsLate(steps: seq<Step>, c: Copy) returns (i: nat)
    requires At(After(START, steps), c).GivingUp? || At(After(START, steps), c) == Done(Stuck)
    ensures i < |steps| && steps[i] == CheckTime(c, true) && At(After(START, steps[..i]), c).Timing?
    decreases |steps|
  {
    hide After;
    if steps == [] {
      NothingYet();
      assert false;
    } else {
      hide Next;
      var n := |steps| - 1;
      var s := After(START, steps[..n]);
      AfterLast(steps);
      LateNow(s, steps[n], c);
      if At(s, c).GivingUp? || At(s, c) == Done(Stuck) {
        i := StuckIsLate(steps[..n], c);
      } else {
        i := n;
      }
    }
  }

  lemma LateNow(s: Sys, step: Step, c: Copy)
    requires At(Next(s, step), c).GivingUp? || At(Next(s, step), c) == Done(Stuck)
    ensures At(s, c).GivingUp? || At(s, c) == Done(Stuck) || (step == CheckTime(c, true) && At(s, c).Timing?)
  {
  }

  ghost predicate SomebodyAsked(log: seq<Event>, n: nat) {
    exists k :: 0 <= k < |log| && k < n && log[k].Asked?
  }

  /** A request, and a holder that found one, mean that somebody asked; and so does a window that was shown. */
  ghost predicate OnRequest(s: Sys) {
    && (s.request ==> SomebodyAsked(s.log, |s.log|))
    && (forall c :: c in s.watches && (s.watches[c].Found? || s.watches[c].Showing?) ==> SomebodyAsked(s.log, |s.log|))
    && (forall k :: 0 <= k < |s.log| && s.log[k].ShowedWindow? ==> SomebodyAsked(s.log, k))
  }

  lemma OnRequestNext(s: Sys, step: Step)
    requires OnRequest(s)
    ensures OnRequest(Next(s, step))
  {
    var u := Next(s, step);
    if u.log != s.log {
      assert u.log == s.log + [u.log[|s.log|]];
      AskedGrows(s.log, u.log[|s.log|]);
    }
  }

  lemma AskedGrows(log: seq<Event>, event: Event)
    ensures forall n: nat :: SomebodyAsked(log, n) ==> SomebodyAsked(log + [event], n)
    ensures SomebodyAsked(log, |log|) || event.Asked? ==> SomebodyAsked(log + [event], |log| + 1)
  {
    forall n: nat | SomebodyAsked(log, n) ensures SomebodyAsked(log + [event], n) {
      var k :| 0 <= k < |log| && k < n && log[k].Asked?;
      assert (log + [event])[k] == log[k];
    }
    if event.Asked? {
      assert (log + [event])[|log|] == event;
    }
    if SomebodyAsked(log, |log|) {
      var k :| 0 <= k < |log| && log[k].Asked?;
      assert (log + [event])[k] == log[k];
    }
  }

  /** In every schedule a window is shown only after somebody asked. */
  lemma {:induction false} ShownOnRequest(steps: seq<Step>)
    ensures OnRequest(After(START, steps))
    decreases |steps|
  {
    hide OnRequest, Next;
    if steps == [] {
      NothingYet();
      NobodyAskedYet();
    } else {
      ShownOnRequest(steps[..|steps| - 1]);
      OnRequestNext(After(START, steps[..|steps| - 1]), steps[|steps| - 1]);
    }
  }

  lemma NobodyAskedYet()
    ensures OnRequest(START)
  {
  }

  lemma AskedAlone() returns (steps: seq<Step>)
    ensures OneAtATime(steps)
    ensures var s := After(START, steps);
            At(s, 1) == Timing(1) && s.request && s.lock == Some(0) && s.log == [Cleared(0), Asked(1)]
  {
    steps := [];
    var s := START;
    steps, s := OneMoreAlone(steps, s, Launch(0));
    steps, s := OneMoreAlone(steps, s, TakeLock(0, true));
    steps, s := OneMoreAlone(steps, s, RemoveOwn(0, true));
    steps, s := OneMoreAlone(steps, s, Launch(1));
    steps, s := OneMoreAlone(steps, s, TakeLock(1, true));
    steps, s := OneMoreAlone(steps, s, WriteRequest(1, true));
  }

  /** One copy asks, cannot look at its request, and gives way to a window that nobody showed. */
  lemma AFailedLookMissesTheWindow() returns (steps: seq<Step>)
    ensures OneAtATime(steps) && At(After(START, steps), 1) == Done(Shown)
    ensures After(START, steps).request && forall k: nat :: !IsAnswer(After(START, steps).log, k)
  {
    hide After, OneAtATime;
    steps := AskedAlone();
    var s := After(START, steps);
    steps, s := OneMoreAlone(steps, s, CheckTime(1, false));
    steps, s := OneMoreAlone(steps, s, TakeLock(1, true));
    steps, s := OneMoreAlone(steps, s, Look(1, false));
  }

  lemma OneMoreAlone(steps: seq<Step>, s: Sys, step: Step) returns (more: seq<Step>, u: Sys)
    requires After(START, steps) == s && OneAtATime(steps) && Alone(s, step)
    ensures more == steps + [step] && u == Next(s, step) && After(START, more) == u && OneAtATime(more)
  {
    more, u := OneMore(steps, s, step);
    assert more[..|steps|] == steps;
  }

  /** Another copy asked at `from` or later. */
  ghost predicate AskedSince(log: seq<Event>, from: nat, c: Copy) {
    exists at: nat, d: Copy :: from <= at && d != c && IsEvent(log, at, Asked(d))
  }

  /** Copy `c` is through with `claim`, and any request there is another copy's, made since. */
  ghost predicate HasReturned(s: Sys, c: Copy, from: nat) {
    (At(s, c).Done? || At(s, c).Gone?) && from <= |s.log| && (s.request ==> AskedSince(s.log, from, c))
  }

  /** A copy that is through stays so, and only one that is not makes a request, and logs it. */
  lemma NextLogs(s: Sys, step: Step, c: Copy)
    ensures var u := Next(s, step);
            && (At(s, c).Done? || At(s, c).Gone? ==> At(u, c).Done? || At(u, c).Gone?)
            && (u.log == s.log || (|u.log| == |s.log| + 1 && u.log == s.log + [u.log[|s.log|]]))
            && (u.request && !s.request ==> u.log == s.log + [Asked(step.copy)] && At(s, step.copy).Asking?)
  {
  }

  lemma NextReturned(s: Sys, step: Step, c: Copy, from: nat)
    requires HasReturned(s, c, from)
    ensures HasReturned(Next(s, step), c, from)
  {
    hide Next;
    var u := Next(s, step);
    NextLogs(s, step, c);
    if u.log != s.log {
      LogGrows(s.log, u.log[|s.log|]);
      if AskedSince(s.log, from, c) {
        var at: nat, d: Copy :| from <= at && d != c && IsEvent(s.log, at, Asked(d));
        assert IsEvent(u.log, at, Asked(d));
      } else if u.request {
        assert IsEvent(u.log, |s.log|, Asked(step.copy));
      }
    }
  }

  lemma {:induction false} StaysReturned(s: Sys, more: seq<Step>, c: Copy, from: nat)
    requires HasReturned(s, c, from)
    ensures HasReturned(After(s, more), c, from)
    decreases |more|
  {
    hide HasReturned, Next;
    if more != [] {
      StaysReturned(s, more[..|more| - 1], c, from);
      NextReturned(After(s, more[..|more| - 1]), more[|more| - 1], c, from);
    }
  }

  /**
   When `claim` returns `Ours`, `Shown` or `Stuck` there is no request file exactly when there was
   none before its last call or that call went through; and then, whatever happens next, one that is
   there again is another copy's, written since.
   */
  lemma ReturnsWithoutRequest(steps: seq<Step>, step: Step, more: seq<Step>, c: Copy)
    requires var s := After(START, steps);
             !At(s, c).Done? && At(Next(s, step), c).Done? && At(Next(s, step), c).result != Unguarded
    ensures var s := After(START, steps);
            var u := Next(s, step);
            && (step.Look? || step.RemoveOwn?)
            && (!u.request <==> !s.request || step.ok)
            && (!u.request && After(u, more).request ==> AskedSince(After(u, more).log, |u.log|, c))
  {
    var u := Next(After(START, steps), step);
    if !u.request {
      StaysReturned(u, more, c, |u.log|);
    }
  }

  // ---- Any number asking ----

  /** Another copy took the request away, starting or giving up. */
  ghost predicate ClearedSince(log: seq<Event>, asked: nat, c: Copy) {
    exists k: nat, d: Copy :: asked < k && d != c && IsEvent(log, k, Cleared(d))
  }

  ghost predicate Explained(s: Sys) {
    && (forall c :: c in s.watches ==> WatchOk(s, c, s.watches[c]))
    && (forall c :: c in s.copies && AskedAt(s.copies[c]).Some? ==>
          && IsEvent(s.log, AskedAt(s.copies[c]).value, Asked(c))
          && (s.request || IsGone(s.log, AskedAt(s.copies[c]).value, c)))
  }

  ghost predicate IsGone(log: seq<Event>, asked: nat, c: Copy) {
    AnsweredSince(log, asked) || ClearedSince(log, asked, c)
  }

  lemma GoneStays(log: seq<Event>, event: Event, asked: nat, c: Copy)
    requires IsGone(log, asked, c)
    ensures IsGone(log + [event], asked, c)
  {
    LogGrows(log, event);
    if ClearedSince(log, asked, c) {
      var k: nat, d: Copy :| asked < k && d != c && IsEvent(log, k, Cleared(d));
      assert IsEvent(log + [event], k, Cleared(d));
    }
  }

  /** The steps that write nothing in the log. */
  lemma ExplainedStays(s: Sys, step: Step)
    requires Explained(s) && Next(s, step).log == s.log
    ensures Explained(Next(s, step))
  {
    hide Explained, Next;
    var u, c := Next(s, step), step.copy;
    if step.FindRequest? || step.ShowWindow? || step.RemoveAnswered? || step.ReadLeaving? {
      WatchMoves(s, step);
    } else {
      CopyMoves(s, step);
    }
    ExplainedIfSame(s, u, c);
  }

  lemma WatchMoves(s: Sys, step: Step)
    requires Explained(s) && Next(s, step).log == s.log
    requires step.FindRequest? || step.ShowWindow? || step.RemoveAnswered? || step.ReadLeaving?
    ensures var u, c := Next(s, step), step.copy;
            && u.request == s.request && u.copies == s.copies
            && (u.watches == s.watches || (c in u.watches && u.watches == s.watches[c := u.watches[c]] && WatchOk(u, c, u.watches[c])))
  {
    assert WatchOf(s, step.copy).Resting? || WatchOk(s, step.copy, WatchOf(s, step.copy));
  }

  lemma CopyMoves(s: Sys, step: Step)
    requires Next(s, step).log == s.log
    requires !(step.FindRequest? || step.ShowWindow? || step.RemoveAnswered? || step.ReadLeaving?)
    ensures var u, c := Next(s, step), step.copy;
            && u.request == s.request && u.watches == s.watches
            && (u.copies == s.copies
                || (c in u.copies && u.copies == s.copies[c := u.copies[c]]
                    && (AskedAt(u.copies[c]).None? || AskedAt(u.copies[c]) == AskedAt(At(s, c)))))
  {
  }

  lemma ExplainedIfSame(s: Sys, u: Sys, c: Copy)
    requires Explained(s) && u.log == s.log && u.request == s.request
    requires u.watches == s.watches || (c in u.watches && u.watches == s.watches[c := u.watches[c]] && WatchOk(u, c, u.watches[c]))
    requires u.copies == s.copies || (c in u.copies && u.copies == s.copies[c := u.copies[c]])
    requires u.copies == s.copies || AskedAt(u.copies[c]).None? || AskedAt(u.copies[c]) == AskedAt(At(s, c))
    ensures Explained(u)
  {
  }

  lemma ExplainedGrows(s: Sys, step: Step)
    requires Explained(s) && |Next(s, step).log| == |s.log| + 1
    ensures Explained(Next(s, step))
  {
    var u := Next(s, step);
    var event := u.log[|s.log|];
    LogGrows(s.log, event);
    assert WatchOf(s, step.copy).Resting? || WatchOk(s, step.copy, WatchOf(s, step.copy));
    forall c | c in u.copies && AskedAt(u.copies[c]).Some?
      ensures IsEvent(u.log, AskedAt(u.copies[c]).value, Asked(c))
      ensures u.request || IsGone(u.log, AskedAt(u.copies[c]).value, c)
    {
      AskedExplained(s, step, c);
    }
  }

  lemma AskedExplained(s: Sys, step: Step, c: Copy)
    requires Explained(s) && |Next(s, step).log| == |s.log| + 1
    requires c in Next(s, step).copies && AskedAt(Next(s, step).copies[c]).Some?
    ensures var u := Next(s, step);
            var asked := AskedAt(u.copies[c]).value;
            IsEvent(u.log, asked, Asked(c)) && (u.request || IsGone(u.log, asked, c))
  {
    var u := Next(s, step);
    var event := u.log[|s.log|];
    var asked := AskedAt(u.copies[c]).value;
    LogGrows(s.log, event);
    if !(step.WriteRequest? && step.copy == c) {
      assert u.copies[c] == s.copies[c] && IsEvent(s.log, asked, Asked(c));
      if !s.request {
        GoneStays(s.log, event, asked, c);
      } else if step.RemoveAnswered? {
        assert WatchOk(s, step.copy, WatchOf(s, step.copy));
        assert IsAnswer(u.log, |s.log|);
      } else if step.RemoveOwn? {
        assert IsEvent(u.log, |s.log|, Cleared(step.copy));
      }
    }
  }

  lemma {:induction false} ExplainedAfter(steps: seq<Step>)
    ensures Explained(After(START, steps))
    decreases |steps|
  {
    if steps != [] {
      var s, step := After(START, steps[..|steps| - 1]), steps[|steps| - 1];
      ExplainedAfter(steps[..|steps| - 1]);
      if Next(s, step).log == s.log {
        ExplainedStays(s, step);
      } else {
        ExplainedGrows(s, step);
      }
    }
  }

  /**
   However many copies ask, one that came to `Shown` was answered that way, or another copy cleared the
   request after it was made, or it could not look.
   */
  lemma ShownOrCleared(steps: seq<Step>, c: Copy) returns (i: nat)
    requires At(After(START, steps), c) == Done(Shown)
    ensures i < |steps| && steps[i].Look? && steps[i].copy == c
    ensures var log := After(START, steps[..i]).log;
            !steps[i].ok || exists asked: nat, k: nat ::
              IsEvent(log, asked, Asked(c)) && asked < k
              && (IsWilling(steps[..i], k) || (k < |log| && log[k].Cleared? && log[k].copy != c))
  {
    hide After, IsWilling, AnsweredSince;
    i := ConcludedBy(steps, c);
    ExplainedAfter(steps[..i]);
    if steps[i].ok {
      var s := After(START, steps[..i]);
      var asked := At(s, c).asked;
      assert IsEvent(s.log, asked, Asked(c));
      if ClearedSince(s.log, asked, c) {
        var k: nat, d: Copy :| asked < k && d != c && IsEvent(s.log, k, Cleared(d));
      } else {
        var k := AnswerSince(s.log, asked);
        AnswersAreWilling(steps[..i], k);
      }
    }
  }

  lemma AnswerSince(log: seq<Event>, asked: nat) returns (k: nat)
    requires AnsweredSince(log, asked)
    ensures asked < k && IsAnswer(log, k)
  {
    k :| asked < k && IsAnswer(log, k);
  }

  // ---- Two at a time ----

  /**
   Two copies in `claim` at once: the first has taken the lock and not yet cleared what was left
   over when the second asks. It clears the second's request, which gives way to a window that
   nobody showed.
   */
  lemma TwoAtATimeCanMissTheWindow() returns (steps: seq<Step>)
    ensures At(After(START, steps), 1) == Done(Shown)
    ensures forall k: nat :: !IsAnswer(After(START, steps).log, k)
  {
    steps := [];
    var s := START;
    steps, s := OneMore(steps, s, Launch(0));
    steps, s := OneMore(steps, s, TakeLock(0, true));
    steps, s := OneMore(steps, s, Launch(1));
    steps, s := OneMore(steps, s, TakeLock(1, true));
    steps, s := OneMore(steps, s, WriteRequest(1, true));
    steps, s := OneMore(steps, s, RemoveOwn(0, true));
    assert At(s, 1) == Timing(0) && !s.request && s.lock == Some(0) && s.log == [Asked(1), Cleared(0)];
    steps, s := OneMore(steps, s, CheckTime(1, false));
    steps, s := OneMore(steps, s, TakeLock(1, true));
    steps, s := OneMore(steps, s, Look(1, true));
  }

  lemma OneMore(steps: seq<Step>, s: Sys, step: Step) returns (more: seq<Step>, u: Sys)
    requires After(START, steps) == s
    ensures more == steps + [step] && u == Next(s, step) && After(START, more) == u
  {
    more := steps + [step];
    u := Next(s, step);
    assert more[..|steps|] == steps;
  }
}
