/**
 The thread that watches the inbox: when it waits, on what, and what it may wait on for good.
 */
module Watcher {

  type FileName = nat

  /** `RETRY_DEFERRED`, in seconds. */
  const RETRY := 5

  /** `wait_for`: `None` is a wait that only a signal ends. */
  datatype Wait = Forever | AtMost(seconds: nat)

  function WaitFor(pending: nat): (wait: Wait)
    ensures wait == Forever <==> pending == 0
    ensures wait.AtMost? ==> wait.seconds == 5
  {
    if pending > 0 then AtMost(RETRY) else Forever
  }

  datatype Pc = Waiting | Woken | Listing | Draining(listed: set<FileName>) | Stopped

  /**
   `signals`: sent, or on their way from the directory watch, and not yet received. Two fields are
   history: `deferred` is what the last drain counted as deferred, and `overlooked` what it neither
   removed nor counted, as far as it is still there.
   */
  datatype Sys = Sys(inbox: set<FileName>, signals: nat, open: bool, pending: nat, first: bool, pc: Pc,
                     deferred: set<FileName>, overlooked: set<FileName>)

  /** The directory watch is set up before the thread starts, with files already waiting. */
  function Start(inbox: set<FileName>): Sys {
    Sys(inbox, 0, true, 0, true, Waiting, {}, {})
  }

  /** `left` is put off by the drain; `stuck` it is done with, but their removal fails. */
  datatype Step =
    | Arrive(file: FileName)
    | Take(file: FileName)
    | LookAgain
    | Hang
    | Receive
    | TimeOut
    | Settle
    | List
    | FailToList(watching: nat)
    | Finish(left: set<FileName>, stuck: set<FileName>, watching: nat)

  /** The loop's body reads its clock or the channel; a step it is not ready for changes nothing. */
  function Next(s: Sys, step: Step): Sys {
    match step
    case Arrive(f) => if f in s.inbox then s else s.(inbox := s.inbox + {f}, signals := s.signals + 1)
    case Take(f) => s.(inbox := s.inbox - {f}, overlooked := s.overlooked - {f})
    case LookAgain => if s.open then s.(signals := s.signals + 1) else s
    case Hang => s.(open := false)
    case Receive =>
      if !s.pc.Waiting? || s.first then s
      else if s.signals > 0 then s.(signals := s.signals - 1, pc := Woken)
      else if !s.open then s.(pc := Stopped)
      else s
    case TimeOut =>
      if s.pc.Waiting? && (s.first || WaitFor(s.pending).AtMost?) then s.(first := false, pc := Listing) else s
    case Settle => if s.pc.Woken? then s.(signals := 0, pc := Listing) else s
    case List => if s.pc.Listing? then s.(pc := Draining(s.inbox)) else s
    case FailToList(watching) =>
      if s.pc.Listing? then s.(pending := watching, pc := Waiting, deferred := {}, overlooked := s.inbox) else s
    case Finish(left, stuck, watching) =>
      if s.pc.Draining? && left <= s.pc.listed && stuck <= s.pc.listed && left !! stuck then
        var inbox := s.inbox - (s.pc.listed - left - stuck);
        s.(inbox := inbox, pending := |left| + watching, pc := Waiting, deferred := left, overlooked := inbox * stuck)
      else s
  }

  function After(s: Sys, steps: seq<Step>): Sys
    decreases |steps|
  {
    if steps == [] then s else Next(After(s, steps[..|steps| - 1]), steps[|steps| - 1])
  }

  // ---- What every schedule keeps ----

  /** Files that the thread does not come back to of its own accord. */
  ghost function Unseen(s: Sys): set<FileName> {
    match s.pc
    case Draining(listed) => s.inbox - listed
    case Waiting => if s.first || s.pending > 0 then {} else s.inbox
    case _ => {}
  }

  /** Unless a signal is there, those are what the last drain overlooked. */
  ghost predicate Watched(s: Sys) {
    && s.overlooked <= s.inbox
    && (s.pc.Waiting? && !s.first && s.deferred != {} ==> s.pending > 0)
    && (s.signals == 0 ==> Unseen(s) <= if s.pc.Waiting? then s.overlooked else {})
  }

  lemma NextWatched(s: Sys, step: Step)
    requires Watched(s)
    ensures Watched(Next(s, step))
  {
    var u := Next(s, step);
    if step.Finish? && u != s {
      FinishWatched(s, step.left, step.stuck, step.watching);
    }
  }

  lemma FinishWatched(s: Sys, left: set<FileName>, stuck: set<FileName>, watching: nat)
    requires Watched(s) && s.pc.Draining? && left <= s.pc.listed && stuck <= s.pc.listed && left !! stuck
    ensures Watched(Next(s, Finish(left, stuck, watching)))
  {
    var u := Next(s, Finish(left, stuck, watching));
    if u.pending == 0 {
      assert left == {};
      assert u.inbox == Unseen(s) + s.inbox * stuck;
      assert u.overlooked == s.inbox * stuck;
    }
  }

  lemma {:induction false} AfterWatched(s: Sys, steps: seq<Step>)
    requires Watched(s)
    ensures Watched(After(s, steps))
    decreases |steps|
  {
    if steps != [] {
      AfterWatched(s, steps[..|steps| - 1]);
      NextWatched(After(s, steps[..|steps| - 1]), steps[|steps| - 1]);
    }
  }

  // ---- What the thread waits on ----

  /** The thread waits, without a timer, and no signal is there. */
  ghost predicate IsBlocked(s: Sys) {
    s.pc.Waiting? && !s.first && WaitFor(s.pending) == Forever && s.signals == 0
  }

  /**
   In every schedule, a thread that waits with neither timer nor signal has in its inbox exactly what
   its last drain could not remove, or could not list, and nobody took since: nothing that this drain
   deferred, and nothing that arrived after it.
   */
  lemma BlockedOnTheOverlooked(inbox: set<FileName>, steps: seq<Step>)
    requires IsBlocked(After(Start(inbox), steps))
    ensures var s := After(Start(inbox), steps); s.inbox == s.overlooked && s.deferred == {}
  {
    AfterWatched(Start(inbox), steps);
  }

  /** So it waits that way on a file exactly when its last drain overlooked one that is still there. */
  lemma BlockedOnAFullInboxIff(inbox: set<FileName>, steps: seq<Step>)
    ensures var s := After(Start(inbox), steps);
            IsBlocked(s) && s.inbox != {} <==> IsBlocked(s) && s.overlooked != {}
  {
    AfterWatched(Start(inbox), steps);
  }

  /** The thread never waits without a timer while its last drain deferred anything. */
  lemma NeverWaitsOnTheDeferred(inbox: set<FileName>, steps: seq<Step>)
    ensures var s := After(Start(inbox), steps);
            s.pc.Waiting? && !s.first && s.deferred != {} ==> WaitFor(s.pending) == AtMost(RETRY) && Next(s, TimeOut).pc.Listing?
  {
    AfterWatched(Start(inbox), steps);
  }

  /** Where drains list and remove what they are to, it never waits for good on an inbox that holds anything. */
  lemma NeverWaitsOnAFullInbox(inbox: set<FileName>, steps: seq<Step>)
    requires forall i :: 0 <= i < |steps| ==> !steps[i].FailToList? && (steps[i].Finish? ==> steps[i].stuck == {})
    ensures var s := After(Start(inbox), steps); s.inbox != {} ==> !IsBlocked(s)
  {
    NothingOverlooked(inbox, steps);
    AfterWatched(Start(inbox), steps);
  }

  lemma {:induction false} NothingOverlooked(inbox: set<FileName>, steps: seq<Step>)
    requires forall i :: 0 <= i < |steps| ==> !steps[i].FailToList? && (steps[i].Finish? ==> steps[i].stuck == {})
    ensures After(Start(inbox), steps).overlooked == {}
    decreases |steps|
  {
    if steps != [] {
      NothingOverlooked(inbox, steps[..|steps| - 1]);
      OverlooksNothing(After(Start(inbox), steps[..|steps| - 1]), steps[|steps| - 1]);
    }
  }

  lemma OverlooksNothing(s: Sys, step: Step)
    requires s.overlooked == {} && !step.FailToList? && (step.Finish? ==> step.stuck == {})
    ensures Next(s, step).overlooked == {}
  {
  }

  /** A signal leads to a drain that lists every file there is; the signals that came with it are spent on it. */
  lemma WakingListsEverything(s: Sys)
    requires s.pc.Waiting? && !s.first && s.signals > 0
    ensures After(s, [Receive, Settle, List]).pc == Draining(s.inbox) && After(s, [Receive, Settle, List]).signals == 0
    ensures After(s, [Receive]).signals == s.signals - 1
  {
    var woken, settled := Next(s, Receive), Next(Next(s, Receive), Settle);
    assert [Receive, Settle, List][..2] == [Receive, Settle];
    assert [Receive, Settle][..1] == [Receive];
    assert [Receive][..0] == [];
    assert After(s, [Receive]) == woken;
    assert After(s, [Receive, Settle]) == settled;
  }

  /** Asked to look again, whatever it has seen before, a thread that waits comes to list everything. */
  lemma LookingAgainListsEverything(s: Sys)
    requires s.pc.Waiting? && !s.first && s.open
    ensures After(Next(s, LookAgain), [Receive, Settle, List]).pc == Draining(s.inbox)
  {
    WakingListsEverything(Next(s, LookAgain));
  }

  // ---- What it goes by ----

  lemma AfterLast(s: Sys, steps: seq<Step>)
    requires steps != []
    ensures var n := |steps| - 1;
            && After(s, steps) == Next(After(s, steps[..n]), steps[n])
            && forall i :: 0 <= i <= n ==> steps[..n][..i] == steps[..i]
  {
    hide Next;
  }

  /** The step ends a drain, or the attempt to list the inbox. */
  ghost predicate Drains(s: Sys, step: Step) {
    (step.FailToList? && s.pc.Listing?)
    || (step.Finish? && s.pc.Draining? && step.left <= s.pc.listed && step.stuck <= s.pc.listed && step.left !! step.stuck)
  }

  /** The files it puts off, and the turns it watches. */
  ghost function PutOff(step: Step): nat {
    match step
    case Finish(left, _, watching) => |left| + watching
    case FailToList(watching) => watching
    case _ => 0
  }

  ghost predicate IsLastDrain(s: Sys, steps: seq<Step>, i: nat) {
    && i < |steps| && Drains(After(s, steps[..i]), steps[i])
    && forall j :: i < j < |steps| ==> !Drains(After(s, steps[..j]), steps[j])
  }

  lemma PendingNow(s: Sys, step: Step)
    ensures Drains(s, step) ==> Next(s, step).pending == PutOff(step) && Next(s, step).pc.Waiting? && Next(s, step).first == s.first
    ensures !Drains(s, step) ==> Next(s, step).pending == s.pending && (Next(s, step).pc.Waiting? ==> s.pc.Waiting? && Next(s, step).first == s.first)
  {
  }

  /**
   In every schedule a thread that waits after a drain goes by what its last one put off and watches:
   it has a timer exactly when that was anything.
   */
  lemma {:induction false} PendingIsPutOff(inbox: set<FileName>, steps: seq<Step>) returns (i: nat)
    requires After(Start(inbox), steps).pc.Waiting? && !After(Start(inbox), steps).first
    ensures IsLastDrain(Start(inbox), steps, i)
    ensures After(Start(inbox), steps).pending == PutOff(steps[i])
    ensures WaitFor(After(Start(inbox), steps).pending).Forever? <==> PutOff(steps[i]) == 0
    decreases |steps|
  {
    if steps == [] {
      assert false;
    } else {
      hide Next, Drains, After;
      var n := |steps| - 1;
      var s := After(Start(inbox), steps[..n]);
      AfterLast(Start(inbox), steps);
      PendingNow(s, steps[n]);
      if Drains(s, steps[n]) {
        i := n;
      } else {
        i := PendingIsPutOff(inbox, steps[..n]);
      }
    }
  }

  /** The channel is open until its other end hangs up. */
  lemma {:induction false} OpenIff(inbox: set<FileName>, steps: seq<Step>)
    ensures After(Start(inbox), steps).open <==> Hang !in steps
    decreases |steps|
  {
    if steps != [] {
      hide Next, After;
      var n := |steps| - 1;
      AfterLast(Start(inbox), steps);
      OpenIff(inbox, steps[..n]);
      assert steps == steps[..n] + [steps[n]];
      OpenNow(After(Start(inbox), steps[..n]), steps[n]);
    } else {
      assert After(Start(inbox), []) == Start(inbox);
    }
  }

  lemma OpenNow(s: Sys, step: Step)
    ensures Next(s, step).open <==> s.open && !step.Hang?
    ensures Next(s, step).pc.Stopped? ==> s.pc.Stopped? || (step.Receive? && s.pc.Waiting? && !s.open && s.signals == 0)
    ensures s.pc.Stopped? ==> Next(s, step).pc.Stopped?
  {
  }

  /** The thread stops only once the other end has hung up and every signal sent before is received. */
  lemma {:induction false} StopsAfterHangUp(inbox: set<FileName>, steps: seq<Step>) returns (i: nat)
    requires After(Start(inbox), steps).pc.Stopped?
    ensures i < |steps| && steps[i].Receive? && Hang in steps[..i] && After(Start(inbox), steps[..i]).signals == 0
    decreases |steps|
  {
    if steps == [] {
      assert false;
    } else {
      hide Next, After;
      var n := |steps| - 1;
      var s := After(Start(inbox), steps[..n]);
      AfterLast(Start(inbox), steps);
      OpenNow(s, steps[n]);
      OpenIff(inbox, steps[..n]);
      if s.pc.Stopped? {
        i := StopsAfterHangUp(inbox, steps[..n]);
      } else {
        i := n;
      }
    }
  }

  /** And then it does stop, at the next call, if it is waiting with no signal left. */
  lemma HungUpStops(inbox: set<FileName>, steps: seq<Step>)
    requires var s := After(Start(inbox), steps); Hang in steps && s.pc.Waiting? && !s.first && s.signals == 0
    ensures Next(After(Start(inbox), steps), Receive).pc.Stopped?
  {
    hide After;
    OpenIff(inbox, steps);
  }

  // ---- What is in the inbox ----

  /** The step takes a file away: somebody else's, or a drain that is done with it and can remove it. */
  ghost predicate TakesAway(s: Sys, step: Step, f: FileName) {
    step == Take(f) || (step.Finish? && Drains(s, step) && f in s.pc.listed && f !in step.left && f !in step.stuck)
  }

  lemma ThereNow(s: Sys, step: Step, f: FileName)
    ensures f in Next(s, step).inbox <==> (f in s.inbox || step == Arrive(f)) && !TakesAway(s, step, f)
  {
  }

  /** The file came at step `i`, or was there from the start, and nothing has taken it away since. */
  ghost predicate CameAndStayed(inbox: set<FileName>, steps: seq<Step>, f: FileName, i: nat) {
    && i <= |steps| && (if i == 0 then f in inbox else steps[i - 1] == Arrive(f))
    && forall j :: i <= j < |steps| ==> !TakesAway(After(Start(inbox), steps[..j]), steps[j], f)
  }

  /** In every schedule a file is in the inbox exactly when it came and nothing took it away since. */
  lemma {:induction false} ThereIff(inbox: set<FileName>, steps: seq<Step>, f: FileName)
    ensures f in After(Start(inbox), steps).inbox <==> exists i: nat :: CameAndStayed(inbox, steps, f, i)
    decreases |steps|
  {
    hide After, TakesAway, Next;
    if steps == [] {
      assert After(Start(inbox), []) == Start(inbox) by {
        StartsThere(inbox);
      }
      assert f in inbox ==> CameAndStayed(inbox, steps, f, 0);
    } else {
      var n := |steps| - 1;
      var s := After(Start(inbox), steps[..n]);
      AfterLast(Start(inbox), steps);
      ThereIff(inbox, steps[..n], f);
      ThereNow(s, steps[n], f);
      assert forall i: nat :: i <= n ==> (CameAndStayed(inbox, steps, f, i) <==> CameAndStayed(inbox, steps[..n], f, i) && !TakesAway(s, steps[n], f));
      assert CameAndStayed(inbox, steps, f, n + 1) <==> steps[n] == Arrive(f);
      NotBoth(s, steps[n], f);
    }
  }

  lemma NotBoth(s: Sys, step: Step, f: FileName)
    ensures step == Arrive(f) ==> !TakesAway(s, step, f)
  {
  }

  lemma StartsThere(inbox: set<FileName>)
    ensures After(Start(inbox), []) == Start(inbox)
  {
  }

  // ---- Where it waits for good ----

  lemma OneMore(s0: Sys, steps: seq<Step>, s: Sys, step: Step) returns (more: seq<Step>, u: Sys)
    requires After(s0, steps) == s
    ensures more == steps + [step] && u == Next(s, step) && After(s0, more) == u
  {
    more, u := steps + [step], Next(s, step);
    assert more[..|steps|] == steps;
  }

  /** A file whose rows are stored and whose removal fails: nothing is counted, and nothing comes back to it. */
  lemma AFailedRemovalIsWaitedOn(file: FileName) returns (steps: seq<Step>)
    ensures var s := After(Start({file}), steps); IsBlocked(s) && s.inbox == {file}
  {
    var s := Start({file});
    steps := [];
    steps, s := OneMore(Start({file}), steps, s, TimeOut);
    steps, s := OneMore(Start({file}), steps, s, List);
    steps, s := OneMore(Start({file}), steps, s, Finish({}, {file}, 0));
  }

  /** A directory that cannot be listed: the report is empty, the signal is spent, and the file is there. */
  lemma AFailedListingIsWaitedOn(file: FileName) returns (steps: seq<Step>)
    ensures var s := After(Start({}), steps); IsBlocked(s) && s.inbox == {file}
  {
    var s := Start({});
    steps := [];
    steps, s := OneMore(Start({}), steps, s, TimeOut);
    steps, s := OneMore(Start({}), steps, s, List);
    steps, s := OneMore(Start({}), steps, s, Finish({}, {}, 0));
    steps, s := OneMore(Start({}), steps, s, Arrive(file));
    steps, s := OneMore(Start({}), steps, s, Receive);
    steps, s := OneMore(Start({}), steps, s, Settle);
    steps, s := OneMore(Start({}), steps, s, FailToList(0));
  }
}
