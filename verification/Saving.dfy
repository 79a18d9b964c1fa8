/**
 Saving the file the user opened: compared with what they opened, prepared, compared again and
 renamed into place under one lock, while agents write the file at any moment.
 */
module Saving {
  import opened Options

  type Text = string
  type SaverId = nat

  /** `MAX_VIEW_BYTES`. */
  const MAX_BYTES := 1024 * 1024

  datatype Request = Request(expected: Text, text: Text)

  /** In `save_working_file_before_replace`: what it does next. `comparedAt` is a point in the history. */
  datatype Pc =
    | Idle
    | Waiting(request: Request)                      // the lock
    | Checking(request: Request)                     // size, path and metadata
    | Reading(request: Request)                      // the first comparison
    | Preparing(request: Request)                    // the temporary file
    | Comparing(request: Request)                    // the second comparison
    | Renaming(request: Request, comparedAt: nat)    // the path once more, and the rename
    | Done(saved: bool)

  /** What has happened to the file since the start. */
  datatype Event =
    | Outside(content: Option<Text>)
    | Saved(saver: SaverId, request: Request, comparedAt: nat)

  datatype Sys = Sys(initial: Option<Text>, history: seq<Event>, lock: Option<SaverId>, savers: map<SaverId, Pc>)

  function Start(content: Option<Text>): Sys {
    Sys(content, [], None, map[])
  }

  function ContentAfter(e: Event): Option<Text> {
    match e
    case Outside(content) => content
    case Saved(_, request, _) => Some(request.text)
  }

  /** The file after the first `n` events. */
  function FileAt(s: Sys, n: nat): Option<Text>
    requires n <= |s.history|
  {
    if n == 0 then s.initial else ContentAfter(s.history[n - 1])
  }

  function File(s: Sys): Option<Text> {
    FileAt(s, |s.history|)
  }

  /** `ok` is false where a check or a call to the file system fails. */
  datatype Step =
    | Write(content: Option<Text>)
    | Ask(saver: SaverId, request: Request)
    | Acquire(saver: SaverId)
    | Check(saver: SaverId, ok: bool)
    | Read(saver: SaverId, ok: bool)
    | Prepare(saver: SaverId, ok: bool)
    | Compare(saver: SaverId, ok: bool)
    | Rename(saver: SaverId, ok: bool)

  function At(s: Sys, id: SaverId): Pc {
    if id in s.savers then s.savers[id] else Idle
  }

  function Goto(s: Sys, id: SaverId, pc: Pc): Sys {
    s.(savers := s.savers[id := pc])
  }

  /** Leaving the function lets go of the lock. */
  function Return(s: Sys, id: SaverId, saved: bool): Sys {
    Goto(s.(lock := None), id, Done(saved))
  }

  predicate MayBeSaved(text: Text) {
    |text| <= MAX_BYTES && '\0' !in text
  }

  function Next(s: Sys, step: Step): Sys {
    match step
    case Write(content) => s.(history := s.history + [Outside(content)])
    case Ask(id, request) => if At(s, id).Idle? then Goto(s, id, Waiting(request)) else s
    case Acquire(id) =>
      if At(s, id).Waiting? && s.lock.None? then Goto(s.(lock := Some(id)), id, Checking(At(s, id).request)) else s
    case Check(id, ok) =>
      if !At(s, id).Checking? then s
      else if MayBeSaved(At(s, id).request.text) && ok then Goto(s, id, Reading(At(s, id).request))
      else Return(s, id, false)
    case Read(id, ok) =>
      if !At(s, id).Reading? then s
      else if ok && File(s) == Some(At(s, id).request.expected) then Goto(s, id, Preparing(At(s, id).request))
      else Return(s, id, false)
    case Prepare(id, ok) =>
      if !At(s, id).Preparing? then s
      else if ok then Goto(s, id, Comparing(At(s, id).request))
      else Return(s, id, false)
    case Compare(id, ok) =>
      if !At(s, id).Comparing? then s
      else if ok && File(s) == Some(At(s, id).request.expected) then Goto(s, id, Renaming(At(s, id).request, |s.history|))
      else Return(s, id, false)
    case Rename(id, ok) =>
      if !At(s, id).Renaming? then s
      else if ok then
        var Renaming(request, comparedAt) := At(s, id);
        Return(s.(history := s.history + [Saved(id, request, comparedAt)]), id, true)
      else Return(s, id, false)
  }

  ghost function After(s: Sys, steps: seq<Step>): Sys
    decreases |steps|
  {
    if steps == [] then s else Next(After(s, steps[..|steps| - 1]), steps[|steps| - 1])
  }

  // ---- What every schedule keeps ----

  predicate InSave(pc: Pc) {
    !pc.Idle? && !pc.Waiting? && !pc.Done?
  }

  /** At `comparedAt` the file was what the saver expects, and only outside writes came since. */
  ghost predicate Compared(s: Sys, expected: Text, comparedAt: nat, until: nat)
    requires until <= |s.history|
  {
    && comparedAt <= until
    && FileAt(s, comparedAt) == Some(expected)
    && forall k :: comparedAt <= k < until ==> s.history[k].Outside?
  }

  /** Not over a mebibyte, and with no NUL in it. */
  predicate IsText(text: Text) {
    |text| <= 1_048_576 && forall i :: 0 <= i < |text| ==> text[i] != '\0'
  }

  ghost predicate Safe(s: Sys) {
    && (forall id: SaverId :: s.lock == Some(id) <==> InSave(At(s, id)))
    && (forall id :: id in s.savers && s.savers[id].Renaming? ==>
          Compared(s, s.savers[id].request.expected, s.savers[id].comparedAt, |s.history|))
    && (forall j :: 0 <= j < |s.history| && s.history[j].Saved? ==>
          && Compared(s, s.history[j].request.expected, s.history[j].comparedAt, j)
          && At(s, s.history[j].saver) == Done(true)
          && IsText(s.history[j].request.text))
    && (forall id :: id in s.savers && InSave(s.savers[id]) && !s.savers[id].Checking? ==> IsText(s.savers[id].request.text))
  }

  lemma ComparedStays(s: Sys, e: Event, expected: Text, comparedAt: nat, until: nat)
    requires until <= |s.history| && Compared(s, expected, comparedAt, until)
    ensures var u := s.(history := s.history + [e]);
            Compared(u, expected, comparedAt, until) && (e.Outside? && until == |s.history| ==> Compared(u, expected, comparedAt, until + 1))
  {
  }

  lemma WriteSafe(s: Sys, content: Option<Text>)
    requires Safe(s)
    ensures Safe(Next(s, Write(content)))
  {
    var u := Next(s, Write(content));
    forall id | id in u.savers && u.savers[id].Renaming?
      ensures Compared(u, u.savers[id].request.expected, u.savers[id].comparedAt, |u.history|)
    {
      ComparedStays(s, Outside(content), u.savers[id].request.expected, u.savers[id].comparedAt, |s.history|);
    }
    forall j | 0 <= j < |u.history| && u.history[j].Saved?
      ensures Compared(u, u.history[j].request.expected, u.history[j].comparedAt, j)
    {
      ComparedStays(s, Outside(content), s.history[j].request.expected, s.history[j].comparedAt, j);
    }
  }

  lemma RenameSafe(s: Sys, id: SaverId)
    requires Safe(s) && At(s, id).Renaming?
    ensures Safe(Next(s, Rename(id, true)))
  {
    var u := Next(s, Rename(id, true));
    var n := |s.history|;
    assert forall other :: other in s.savers && InSave(s.savers[other]) ==> InSave(At(s, other)) && other == id;
    var e := u.history[n];
    forall j | 0 <= j < |u.history| && u.history[j].Saved?
      ensures Compared(u, u.history[j].request.expected, u.history[j].comparedAt, j)
    {
      ComparedStays(s, e, u.history[j].request.expected, u.history[j].comparedAt, j);
    }
  }

  lemma NextSafe(s: Sys, step: Step)
    requires Safe(s)
    ensures Safe(Next(s, step))
  {
    match step
    case Write(content) => WriteSafe(s, content);
    case Rename(id, ok) =>
      if At(s, id).Renaming? && ok {
        RenameSafe(s, id);
      } else {
        SavingSafe(s, step);
      }
    case _ => SavingSafe(s, step);
  }

  /** The steps that leave the file alone. */
  lemma SavingSafe(s: Sys, step: Step)
    requires Safe(s) && !step.Write? && Next(s, step).history == s.history
    ensures Safe(Next(s, step))
  {
    var u := Next(s, step);
    assert forall n :: 0 <= n <= |s.history| ==> FileAt(u, n) == FileAt(s, n);
  }

  lemma {:induction false} AfterSafe(s: Sys, steps: seq<Step>)
    requires Safe(s)
    ensures Safe(After(s, steps))
    decreases |steps|
  {
    if steps != [] {
      AfterSafe(s, steps[..|steps| - 1]);
      NextSafe(After(s, steps[..|steps| - 1]), steps[|steps| - 1]);
    }
  }

  // ---- The promises ----

  /**
   In every schedule the lock is held by the one saver that is in a save, and by nobody else: a save
   that has come to its end, well or not, has let go of it, and the next that waits can start.
   */
  lemma LockedIff(content: Option<Text>, steps: seq<Step>, id: SaverId)
    ensures var s := After(Start(content), steps);
            && (s.lock == Some(id) <==> InSave(At(s, id)))
            && (At(s, id).Waiting? && (forall other: SaverId :: !InSave(At(s, other))) ==> InSave(At(Next(s, Acquire(id)), id)))
  {
    AfterSafe(Start(content), steps);
    var s := After(Start(content), steps);
    if s.lock.Some? {
      assert InSave(At(s, s.lock.value));
    }
  }

  /** Nothing that is not text, or is too long, is ever saved. */
  lemma OnlyTextIsSaved(content: Option<Text>, steps: seq<Step>, j: nat)
    requires var s := After(Start(content), steps); j < |s.history| && s.history[j].Saved?
    ensures IsText(After(Start(content), steps).history[j].request.text)
  {
    AfterSafe(Start(content), steps);
  }

  /** The step ends the save: what is to be saved is not text, a comparison finds another text, or a check or call fails. */
  ghost predicate Refuses(s: Sys, step: Step, id: SaverId) {
    match At(s, id)
    case Checking(request) => step == Check(id, false) || (step == Check(id, true) && !IsText(request.text))
    case Reading(request) => step == Read(id, false) || (step == Read(id, true) && File(s) != Some(request.expected))
    case Preparing(_) => step == Prepare(id, false)
    case Comparing(request) => step == Compare(id, false) || (step == Compare(id, true) && File(s) != Some(request.expected))
    case Renaming(_, _) => step == Rename(id, false)
    case _ => false
  }

  lemma DoneNow(s: Sys, step: Step, id: SaverId)
    ensures At(Next(s, step), id) == Done(false) <==> At(s, id) == Done(false) || Refuses(s, step, id)
    ensures At(Next(s, step), id) == Done(true) <==> At(s, id) == Done(true) || (step == Rename(id, true) && At(s, id).Renaming?)
  {
  }

  ghost predicate RefusesAt(content: Option<Text>, steps: seq<Step>, i: nat, id: SaverId) {
    i < |steps| && Refuses(After(Start(content), steps[..i]), steps[i], id)
  }

  ghost predicate HasSaved(s: Sys, id: SaverId) {
    exists j :: 0 <= j < |s.history| && s.history[j].Saved? && s.history[j].saver == id
  }

  lemma SavedNow(s: Sys, step: Step, id: SaverId)
    ensures HasSaved(Next(s, step), id) <==> HasSaved(s, id) || (step == Rename(id, true) && At(s, id).Renaming?)
  {
    var u := Next(s, step);
    assert s.history <= u.history;
    if HasSaved(s, id) {
      var j :| 0 <= j < |s.history| && s.history[j].Saved? && s.history[j].saver == id;
      assert u.history[j] == s.history[j];
    } else if step == Rename(id, true) && At(s, id).Renaming? {
      assert u.history[|s.history|].Saved?;
    }
  }

  /** In every schedule a save has failed exactly when some step refused it, and succeeded exactly when it replaced the file. */
  lemma {:induction false} DoneIff(content: Option<Text>, steps: seq<Step>, id: SaverId)
    ensures var s := After(Start(content), steps);
            && (At(s, id) == Done(false) <==> exists i: nat :: RefusesAt(content, steps, i, id))
            && (At(s, id) == Done(true) <==> HasSaved(s, id))
    decreases |steps|
  {
    hide Refuses, Next, HasSaved;
    if steps == [] {
      NothingYet(Start(content));
      NobodySaved(content, id);
    } else {
      var n := |steps| - 1;
      var s := After(Start(content), steps[..n]);
      assert After(Start(content), steps) == Next(s, steps[n]);
      assert forall k :: 0 <= k <= n ==> steps[..n][..k] == steps[..k];
      hide After;
      DoneIff(content, steps[..n], id);
      DoneNow(s, steps[n], id);
      SavedNow(s, steps[n], id);
      assert forall i: nat :: i < n ==> (RefusesAt(content, steps, i, id) <==> RefusesAt(content, steps[..n], i, id));
      assert RefusesAt(content, steps, n, id) <==> Refuses(s, steps[n], id);
    }
  }

  lemma NobodySaved(content: Option<Text>, id: SaverId)
    ensures !HasSaved(Start(content), id)
  {
  }

  /** The step is one of saver `id`'s. */
  predicate IsStepOf(step: Step, id: SaverId) {
    !step.Write? && step.saver == id
  }

  /** None of the steps of saver `id` changed the file. */
  ghost predicate ChangedNothing(s0: Sys, steps: seq<Step>, id: SaverId) {
    forall k :: 0 <= k < |steps| && IsStepOf(steps[k], id) ==> File(After(s0, steps[..k + 1])) == File(After(s0, steps[..k]))
  }

  /** A step that does not leave its saver with a success leaves the file alone. */
  lemma StepChangesNothing(s: Sys, step: Step, id: SaverId)
    requires IsStepOf(step, id) && (At(Next(s, step), id) == Done(true) ==> At(s, id) == Done(true))
    ensures File(Next(s, step)) == File(s)
  {
  }

  lemma DoneStays(s: Sys, step: Step, id: SaverId)
    requires At(s, id).Done?
    ensures At(Next(s, step), id) == At(s, id)
  {
  }

  /** A save that fails changes nothing: at none of its steps, in whatever schedule, does the file change. */
  lemma {:induction false} FailedSaveChangesNothing(content: Option<Text>, steps: seq<Step>, id: SaverId)
    requires At(After(Start(content), steps), id) != Done(true)
    ensures ChangedNothing(Start(content), steps, id)
    decreases |steps|
  {
    hide Next, File;
    if steps != [] {
      var n := |steps| - 1;
      var s := After(Start(content), steps[..n]);
      assert After(Start(content), steps) == Next(s, steps[n]) && steps[..n + 1] == steps;
      if At(s, id).Done? {
        DoneStays(s, steps[n], id);
      }
      FailedSaveChangesNothing(content, steps[..n], id);
      if IsStepOf(steps[n], id) {
        StepChangesNothing(s, steps[n], id);
      }
      assert forall k :: 0 <= k <= n ==> steps[..n][..k] == steps[..k];
    }
  }

  /**
   Only outside writes come between a save's last comparison and its rename, and it replaces the
   text the user opened exactly when there was none, or the last of them wrote that text.
   */
  lemma ReplacesExpectedOrOutside(content: Option<Text>, steps: seq<Step>, j: nat)
    requires var s := After(Start(content), steps); j < |s.history| && s.history[j].Saved?
    ensures var s := After(Start(content), steps);
            var Saved(_, request, comparedAt) := s.history[j];
            && FileAt(s, j + 1) == Some(request.text)
            && comparedAt <= j && (forall k :: comparedAt <= k < j ==> s.history[k].Outside?)
            && (FileAt(s, j) == Some(request.expected) <==> comparedAt == j || s.history[j - 1] == Outside(Some(request.expected)))
  {
    AfterSafe(Start(content), steps);
    var s := After(Start(content), steps);
    var at := s.history[j].comparedAt;
    assert Compared(s, s.history[j].request.expected, at, j);
    assert at < j ==> s.history[j - 1].Outside?;
  }

  /** Two saves from one baseline both succeed only if something put the baseline back between them. */
  lemma BothSavedMeansRestored(content: Option<Text>, steps: seq<Step>, i: nat, j: nat)
    requires var s := After(Start(content), steps);
             && i < j < |s.history| && s.history[i].Saved? && s.history[j].Saved?
             && s.history[i].request.expected == s.history[j].request.expected
             && s.history[i].request.text != s.history[i].request.expected
    ensures var s := After(Start(content), steps);
            exists k :: i < k < j && ContentAfter(s.history[k]) == Some(s.history[j].request.expected)
  {
    AfterSafe(Start(content), steps);
    var s := After(Start(content), steps);
    var at := s.history[j].comparedAt;
    assert Compared(s, s.history[j].request.expected, at, j);
    assert at > i;
    assert FileAt(s, i + 1) == Some(s.history[i].request.text);
    assert ContentAfter(s.history[at - 1]) == Some(s.history[j].request.expected);
  }

  lemma OneMore(s0: Sys, steps: seq<Step>, s: Sys, step: Step) returns (more: seq<Step>, u: Sys)
    requires After(s0, steps) == s
    ensures more == steps + [step] && u == Next(s, step) && After(s0, more) == u
  {
    more, u := steps + [step], Next(s, step);
    assert more[..|steps|] == steps;
  }

  lemma NothingYet(s0: Sys)
    ensures After(s0, []) == s0
  {
  }

  /** What is written in that gap is lost: the save succeeds over it. */
  lemma AWriteInTheGapIsLost() returns (steps: seq<Step>)
    ensures var s := After(Start(Some("a")), steps);
            && |s.history| == 2 && s.history[0] == Outside(Some("agent")) && File(s) == Some("b")
            && At(s, 0) == Done(true)
  {
    hide After;
    var s := Start(Some("a"));
    steps := [];
    NothingYet(s);
    steps, s := OneMore(Start(Some("a")), steps, s, Ask(0, Request("a", "b")));
    steps, s := OneMore(Start(Some("a")), steps, s, Acquire(0));
    steps, s := OneMore(Start(Some("a")), steps, s, Check(0, true));
    steps, s := OneMore(Start(Some("a")), steps, s, Read(0, true));
    steps, s := OneMore(Start(Some("a")), steps, s, Prepare(0, true));
    steps, s := OneMore(Start(Some("a")), steps, s, Compare(0, true));
    steps, s := OneMore(Start(Some("a")), steps, s, Write(Some("agent")));
    assert At(s, 0) == Renaming(Request("a", "b"), 0) && s.history == [Outside(Some("agent"))];
    steps, s := OneMore(Start(Some("a")), steps, s, Rename(0, true));
  }
}
