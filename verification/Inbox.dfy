/**
 The agents' inbox: where an entry belongs, the rows it stands for, and one client's drain of the
 directory into the event table.
 */
module Inbox {
  import opened ActivityStore
  import opened Options

  type FileName = nat
  type WorkspaceId = nat
  type SessionId = nat

  /** `codex::NOT_READY_GRACE_MS`. */
  const GRACE := 5 * 60 * 1000

  /** `(producer, source_key)`: what makes a second import of a row a no-op. */
  datatype RowKey = Reported(producer: nat, entry: nat) | Derived(key: nat)

  datatype How = AsReported | SessionFile | Notify

  /**
   An entry as a hook left it. A trigger stands for a Codex turn: `turn` are the keys of the
   events its session file describes once it is finished, `fallback` the key of the one recorded
   from the trigger alone.
   */
  datatype Entry = Entry(
    id: nat, at: int, producer: nat, trigger: bool, turn: seq<nat>, fallback: nat,
    run: Option<RunId>, native: Option<nat>, workspace: Option<WorkspaceId>, record: Option<SessionId>)

  datatype File = Unreadable | Readable(entry: Entry)

  /** The tables a link is looked up in. */
  datatype Places = Places(
    runs: map<RunId, (WorkspaceId, Option<SessionId>)>, byNative: map<nat, RunId>,
    workspaces: set<WorkspaceId>, sessions: set<SessionId>)

  /** Which of the lookups go through. */
  datatype Lookups = Lookups(session: bool, run: bool, native: bool, workspace: bool)

  datatype Link = Link(workspace: WorkspaceId, session: Option<SessionId>, run: Option<RunId>)

  datatype Row = Row(key: RowKey, link: Link, how: How)

  /** What reading the session file found. */
  datatype Reading = Finished | NotYet | Failed

  // ---- Placing an entry ----

  function FromRun(places: Places, r: RunId, record: Option<SessionId>): Link
    requires r in places.runs
  {
    var (workspace, session) := places.runs[r];
    Link(workspace, if session.Some? then session else record, Some(r))
  }

  function PlaceOf(places: Places, e: Entry, ok: Lookups): Option<Link> {
    var record := if e.record.Some? && ok.session && e.record.value in places.sessions then e.record else None;
    if e.run.Some? && ok.run && e.run.value in places.runs then
      Some(FromRun(places, e.run.value, record))
    else if e.native.Some? && ok.native && e.native.value in places.byNative && places.byNative[e.native.value] in places.runs then
      Some(FromRun(places, places.byNative[e.native.value], record))
    else if e.workspace.Some? && ok.workspace && e.workspace.value in places.workspaces then
      Some(Link(e.workspace.value, record, None))
    else
      None
  }

  /** The entry names a run or a workspace that the database knows. */
  predicate Placeable(places: Places, e: Entry) {
    KnowsRun(places, e) || KnowsNative(places, e) || KnowsWorkspace(places, e)
  }

  predicate KnowsRun(places: Places, e: Entry) {
    e.run.Some? && e.run.value in places.runs
  }

  predicate KnowsNative(places: Places, e: Entry) {
    e.native.Some? && e.native.value in places.byNative && places.byNative[e.native.value] in places.runs
  }

  predicate KnowsWorkspace(places: Places, e: Entry) {
    e.workspace.Some? && e.workspace.value in places.workspaces
  }

  /** No lookup of a name the entry is known by is answered. */
  predicate Unanswered(places: Places, e: Entry, ok: Lookups) {
    && (ok.run ==> !KnowsRun(places, e))
    && (ok.native ==> !KnowsNative(places, e))
    && (ok.workspace ==> !KnowsWorkspace(places, e))
  }

  /** The lookup of a name the entry is known by fails. */
  predicate FailsForKnown(places: Places, e: Entry, ok: Lookups) {
    (KnowsRun(places, e) && !ok.run) || (KnowsNative(places, e) && !ok.native) || (KnowsWorkspace(places, e) && !ok.workspace)
  }

  /** With every lookup answered, an entry is placed exactly when something it names is known. */
  lemma PlacedIffKnown(places: Places, e: Entry)
    ensures PlaceOf(places, e, Lookups(true, true, true, true)).Some? <==> Placeable(places, e)
  {
  }

  /**
   A lookup that fails is taken for an unknown name. A placeable entry finds no place, and is then
   dropped, exactly when the lookup of every name it is known by failed.
   */
  lemma UnplacedIffLookupsFailed(places: Places, e: Entry, ok: Lookups)
    ensures PlaceOf(places, e, ok).None? <==> Unanswered(places, e, ok)
  {
  }

  /**
   Where it is placed: with a known run that it names, or else with the run of a session id the agent
   gave, in that run's workspace and session; or else in a known workspace that it names. A session
   that only the entry names is taken where there is no other and it is known.
   */
  lemma PlacedWith(places: Places, e: Entry, ok: Lookups)
    requires PlaceOf(places, e, ok).Some?
    ensures var link := PlaceOf(places, e, ok).value;
            && (KnowsRun(places, e) && ok.run ==> link.run == e.run)
            && (!(KnowsRun(places, e) && ok.run) && KnowsNative(places, e) && ok.native ==> link.run == Some(places.byNative[e.native.value]))
            && (link.run.Some? ==> link.run.value in places.runs && link.workspace == places.runs[link.run.value].0)
            && (link.run.None? ==> Some(link.workspace) == e.workspace && link.workspace in places.workspaces)
            && (link.run.Some? && places.runs[link.run.value].1.Some? ==> link.session == places.runs[link.run.value].1)
            && (link.run.None? || places.runs[link.run.value].1.None? ==>
                  link.session == if e.record.Some? && ok.session && e.record.value in places.sessions then e.record else None)
  {
  }

  // ---- What an entry stands for ----

  function TurnRows(keys: seq<nat>, link: Link): (rows: seq<Row>)
    ensures |rows| == |keys|
    ensures forall i :: 0 <= i < |keys| ==> rows[i] == Row(Derived(keys[i]), link, SessionFile)
  {
    seq(|keys|, i requires 0 <= i < |keys| => Row(Derived(keys[i]), link, SessionFile))
  }

  /** What a drain does with a file once it has read it. */
  datatype Plan = Drop | Unplaced | Wait | Store(rows: seq<Row>)

  function PlanFor(file: File, places: Places, ok: Lookups, reading: Reading, now: int): Plan {
    match file
    case Unreadable => Drop
    case Readable(e) =>
      match PlaceOf(places, e, ok)
      case None => Unplaced
      case Some(link) =>
        if !e.trigger then Store([Row(Reported(e.producer, e.id), link, AsReported)])
        else
          match reading
          case Finished => Store(TurnRows(e.turn, link))
          case NotYet => if now - e.at < GRACE then Wait else Store([Row(Derived(e.fallback), link, Notify)])
          case Failed => Store([Row(Derived(e.fallback), link, Notify)])
  }

  /**
   The entry stands for the row, placed by these tables: an event as the hook reported it; a turn's
   own events once its session file is finished; and the one from the trigger alone when that failed
   or the turn's time is up.
   */
  ghost predicate StandsFor(places: Places, ok: Lookups, e: Entry, reading: Reading, now: int, row: Row) {
    && PlaceOf(places, e, ok) == Some(row.link)
    && if !e.trigger then row.key == Reported(e.producer, e.id) && row.how == AsReported
       else if reading.Finished? then row.how == SessionFile && exists i :: 0 <= i < |e.turn| && row.key == Derived(e.turn[i])
       else (reading.Failed? || now - e.at >= GRACE) && row.how == Notify && row.key == Derived(e.fallback)
  }

  /** A drain puts an entry off, drops it, or goes on to store exactly what it stands for. */
  lemma PlanStores(e: Entry, places: Places, ok: Lookups, reading: Reading, now: int)
    ensures var plan := PlanFor(Readable(e), places, ok, reading, now);
            && !plan.Drop?
            && (plan.Unplaced? <==> PlaceOf(places, e, ok).None?)
            && (plan.Wait? <==> PlaceOf(places, e, ok).Some? && e.trigger && reading.NotYet? && now < e.at + 300_000)
            && (plan.Store? ==> forall row :: row in plan.rows <==> StandsFor(places, ok, e, reading, now, row))
  {
    var plan := PlanFor(Readable(e), places, ok, reading, now);
    if plan.Store? && e.trigger && reading.Finished? {
      var link := PlaceOf(places, e, ok).value;
      forall row | StandsFor(places, ok, e, reading, now, row) ensures row in plan.rows {
        var i :| 0 <= i < |e.turn| && row.key == Derived(e.turn[i]);
        assert plan.rows[i] == row;
      }
    }
  }

  // ---- The event table ----

  predicate HasKey(events: seq<Row>, key: RowKey) {
    exists i :: 0 <= i < |events| && events[i].key == key
  }

  ghost predicate KeysOnce(events: seq<Row>) {
    forall i, j :: 0 <= i < j < |events| ==> events[i].key != events[j].key
  }

  /** `add_event`: a key seen before is ignored. */
  function Added(events: seq<Row>, row: Row): seq<Row> {
    if HasKey(events, row.key) then events else events + [row]
  }

  lemma AddedKeeps(events: seq<Row>, row: Row, key: RowKey)
    ensures HasKey(Added(events, row), key) <==> HasKey(events, key) || key == row.key
    ensures KeysOnce(events) ==> KeysOnce(Added(events, row))
    ensures events <= Added(events, row)
  {
    var after := Added(events, row);
    if HasKey(events, key) {
      var i :| 0 <= i < |events| && events[i].key == key;
      assert after[i].key == key;
    } else if key == row.key {
      assert after[|after| - 1].key == key;
    }
  }

  /** The rows up to the first the database refuses are written; `refused` is what it refuses. */
  function Written(events: seq<Row>, rows: seq<Row>, refused: set<RowKey>): seq<Row>
    decreases |rows|
  {
    if rows == [] || rows[0].key in refused then events
    else Written(Added(events, rows[0]), rows[1..], refused)
  }

  predicate Refuses(rows: seq<Row>, refused: set<RowKey>) {
    exists i :: 0 <= i < |rows| && rows[i].key in refused
  }

  predicate AllStored(events: seq<Row>, rows: seq<Row>) {
    forall i :: 0 <= i < |rows| ==> HasKey(events, rows[i].key)
  }

  /** Writing never removes or repeats a row, and stores all of them unless one is refused. */
  lemma {:induction false} WrittenStores(events: seq<Row>, rows: seq<Row>, refused: set<RowKey>)
    requires KeysOnce(events)
    ensures KeysOnce(Written(events, rows, refused))
    ensures events <= Written(events, rows, refused)
    ensures !Refuses(rows, refused) ==> AllStored(Written(events, rows, refused), rows)
    decreases |rows|
  {
    if rows != [] && rows[0].key !in refused {
      var next := Added(events, rows[0]);
      AddedKeeps(events, rows[0], rows[0].key);
      WrittenStores(next, rows[1..], refused);
      if !Refuses(rows, refused) {
        assert !Refuses(rows[1..], refused) by {
          forall i | 0 <= i < |rows[1..]| ensures rows[1..][i].key !in refused {
            assert rows[1..][i] == rows[i + 1];
          }
        }
        StoredStays(next, Written(events, rows, refused), rows[0].key);
        forall i | 0 <= i < |rows| ensures HasKey(Written(events, rows, refused), rows[i].key) {
          assert i > 0 ==> rows[i] == rows[1..][i - 1];
        }
      }
    }
  }

  lemma StoredStays(events: seq<Row>, later: seq<Row>, key: RowKey)
    requires events <= later && HasKey(events, key)
    ensures HasKey(later, key)
  {
    var i :| 0 <= i < |events| && events[i].key == key;
    assert later[i].key == key;
  }

  /** The circumstances of one drain: what is known, what is readable when, and what fails. */
  datatype World = World(places: Places, lookups: Lookups, readings: map<FileName, Reading>, now: int,
                         refused: set<RowKey>, stuck: set<FileName>)

  function PlanOf(w: World, files: map<FileName, File>, f: FileName): Plan
    requires f in files
  {
    PlanFor(files[f], w.places, w.lookups, ReadingOf(w, f), w.now)
  }

  /** The file's entry stands for the row, as things are in this drain. */
  ghost predicate IsRowOf(w: World, files: map<FileName, File>, f: FileName, row: Row) {
    f in files && files[f].Readable? && StandsFor(w.places, w.lookups, files[f].entry, ReadingOf(w, f), w.now, row)
  }

  function ReadingOf(w: World, f: FileName): Reading {
    if f in w.readings then w.readings[f] else Failed
  }

  /** The file is left for a later drain. */
  predicate IsDeferred(w: World, plan: Plan) {
    plan.Wait? || (plan.Store? && Refuses(plan.rows, w.refused))
  }

  /** What a drain of `order` leaves: the event table, the files, and how many it put off. */
  datatype Outcome = Outcome(events: seq<Row>, files: map<FileName, File>, deferred: nat)

  function Drained(w: World, events: seq<Row>, files: map<FileName, File>, order: seq<FileName>): Outcome
    requires forall f :: f in order ==> f in files
    decreases |order|
  {
    if order == [] then Outcome(events, files, 0)
    else
      var n := |order| - 1;
      DrainedOne(w, Drained(w, events, files, order[..n]), order[n], PlanOf(w, files, order[n]))
  }

  function DrainedOne(w: World, before: Outcome, f: FileName, plan: Plan): Outcome {
    var events := if plan.Store? then Written(before.events, plan.rows, w.refused) else before.events;
    if IsDeferred(w, plan) then Outcome(events, before.files, before.deferred + 1)
    else Outcome(events, if f in w.stuck then before.files else before.files - {f}, before.deferred)
  }

  datatype InboxReport = InboxReport(imported: nat, duplicates: nat, unlinked: nat, unreadable: nat, deferred: nat, workspaces: set<WorkspaceId>)

  const EMPTY_REPORT := InboxReport(0, 0, 0, 0, 0, {})

  lemma {:induction false} WrittenGrows(events: seq<Row>, rows: seq<Row>, refused: set<RowKey>)
    ensures events <= Written(events, rows, refused)
    decreases |rows|
  {
    if rows != [] && rows[0].key !in refused {
      WrittenGrows(Added(events, rows[0]), rows[1..], refused);
    }
  }

  /** The workspaces of the rows from the `n`-th on. */
  ghost predicate Gained(events: seq<Row>, n: nat, w: WorkspaceId) {
    exists k :: n <= k < |events| && events[k].link.workspace == w
  }

  lemma NoneGained(events: seq<Row>, all: bool)
    ensures AreGained({}, events, |events|, all)
  {
  }

  /** They have gained rows; and, if `all`, nobody else has. */
  ghost predicate AreGained(workspaces: set<WorkspaceId>, events: seq<Row>, n: nat, all: bool) {
    && (forall v :: v in workspaces ==> Gained(events, n, v))
    && (all ==> forall v :: Gained(events, n, v) ==> v in workspaces)
  }

  lemma GainedMore(first: seq<Row>, earlier: seq<Row>, later: seq<Row>, before: set<WorkspaceId>, after: set<WorkspaceId>, all: bool)
    requires first <= earlier <= later && before <= after
    requires AreGained(before, earlier, |first|, all) && AreGained(after - before, later, |earlier|, false)
    requires all ==> forall v :: Gained(later, |earlier|, v) ==> v in after
    ensures AreGained(after, later, |first|, all)
  {
    forall v | v in after ensures Gained(later, |first|, v) {
      assert v !in before ==> v in after - before;
      var k :| |first| <= k < |later| && later[k].link.workspace == v;
    }
    forall v | Gained(earlier, |first|, v) ensures Gained(later, |first|, v) {
      var k :| |first| <= k < |earlier| && earlier[k].link.workspace == v;
      assert later[k].link.workspace == v;
    }
    forall v | Gained(later, |first|, v) ensures Gained(earlier, |first|, v) || Gained(later, |earlier|, v) {
      var k :| |first| <= k < |later| && later[k].link.workspace == v;
      assert k < |earlier| ==> earlier[k].link.workspace == v;
    }
  }

  ghost predicate SameLink(rows: seq<Row>) {
    forall i, j :: 0 <= i < |rows| && 0 <= j < |rows| ==> rows[i].link == rows[j].link
  }

  /** The files of the order, by their place, with such a plan. */
  ghost function Dropping(w: World, files: map<FileName, File>, order: seq<FileName>): set<nat>
    requires forall f :: f in order ==> f in files
  {
    set i | 0 <= i < |order| && PlanOf(w, files, order[i]).Drop?
  }

  ghost function Unplacing(w: World, files: map<FileName, File>, order: seq<FileName>): set<nat>
    requires forall f :: f in order ==> f in files
  {
    set i | 0 <= i < |order| && PlanOf(w, files, order[i]).Unplaced?
  }

  lemma OneMoreDropping(w: World, files: map<FileName, File>, order: seq<FileName>)
    requires order != [] && forall f :: f in order ==> f in files
    ensures var n := |order| - 1;
            && |Dropping(w, files, order)| == |Dropping(w, files, order[..n])| + (if PlanOf(w, files, order[n]).Drop? then 1 else 0)
            && |Unplacing(w, files, order)| == |Unplacing(w, files, order[..n])| + (if PlanOf(w, files, order[n]).Unplaced? then 1 else 0)
  {
    hide PlanOf;
    var n := |order| - 1;
    assert Dropping(w, files, order) == Dropping(w, files, order[..n]) + if PlanOf(w, files, order[n]).Drop? then {n} else {};
    assert Unplacing(w, files, order) == Unplacing(w, files, order[..n]) + if PlanOf(w, files, order[n]).Unplaced? then {n} else {};
  }

  lemma PlanHasOneLink(w: World, files: map<FileName, File>, f: FileName)
    requires f in files && PlanOf(w, files, f).Store?
    ensures SameLink(PlanOf(w, files, f).rows)
  {
  }

  class Client {
    var events: seq<Row>
    var files: map<FileName, File>

    constructor (events: seq<Row>, files: map<FileName, File>)
      ensures this.events == events && this.files == files
    {
      this.events := events;
      this.files := files;
    }

    /** The rows of one entry. Returns whether its file is done with. */
    method ImportRows(w: World, rows: seq<Row>, report: InboxReport) returns (done: bool, after: InboxReport)
      requires SameLink(rows)
      modifies this`events
      ensures done <==> !Refuses(rows, w.refused)
      ensures events == Written(old(events), rows, w.refused)
      ensures |events| - |old(events)| == after.imported - report.imported
      ensures done ==> after.imported + after.duplicates == report.imported + report.duplicates + |rows|
      ensures after.unlinked == report.unlinked && after.unreadable == report.unreadable && after.deferred == report.deferred
      ensures forall v :: v in after.workspaces <==> v in report.workspaces || (done && Gained(events, |old(events)|, v))
    {
      after := report;
      var anyNew := false;
      for i := 0 to |rows|
        invariant forall j :: 0 <= j < i ==> rows[j].key !in w.refused
        invariant Written(events, rows[i..], w.refused) == Written(old(events), rows, w.refused)
        invariant |events| - |old(events)| == after.imported - report.imported
        invariant after.imported + after.duplicates == report.imported + report.duplicates + i
        invariant anyNew <==> after.imported > report.imported
        invariant after.imported >= report.imported && (anyNew ==> i > 0)
        invariant after == report.(imported := after.imported, duplicates := after.duplicates)
        invariant |events| >= |old(events)| && forall k :: |old(events)| <= k < |events| ==> events[k].link == rows[0].link
      {
        assert rows[i..][0] == rows[i] && rows[i..][1..] == rows[i + 1..];
        if rows[i].key in w.refused {
          return false, after;
        }
        if HasKey(events, rows[i].key) {
          after := after.(duplicates := after.duplicates + 1);
        } else {
          events := events + [rows[i]];
          after := after.(imported := after.imported + 1);
          anyNew := true;
        }
      }
      if anyNew {
        assert events[|old(events)|].link == rows[0].link;
        assert forall v :: Gained(events, |old(events)|, v) <==> v == rows[0].link.workspace;
        after := after.(workspaces := after.workspaces + {rows[0].link.workspace});
      }
      done := true;
    }

    /** One file: returns whether it was put off. */
    method ImportFile(w: World, f: FileName, report: InboxReport) returns (after: InboxReport)
      requires f in files
      modifies this
      ensures Outcome(events, files, after.deferred) ==
              DrainedOne(w, Outcome(old(events), old(files), report.deferred), f, PlanOf(w, old(files), f))
      ensures after.imported - report.imported == |events| - |old(events)|
      ensures old(events) <= events
      ensures after.unreadable == report.unreadable + (if PlanOf(w, old(files), f).Drop? then 1 else 0)
      ensures after.unlinked == report.unlinked + (if PlanOf(w, old(files), f).Unplaced? then 1 else 0)
      ensures report.workspaces <= after.workspaces && AreGained(after.workspaces - report.workspaces, events, |old(events)|, false)
      ensures w.refused == {} ==> forall v :: Gained(events, |old(events)|, v) ==> v in after.workspaces
    {
      var plan := PlanOf(w, files, f);
      var done := true;
      after := report;
      match plan {
        case Drop => after := after.(unreadable := after.unreadable + 1);
        case Unplaced => after := after.(unlinked := after.unlinked + 1);
        case Wait => done := false;
        case Store(rows) =>
          PlanHasOneLink(w, files, f);
          WrittenGrows(events, rows, w.refused);
          done, after := ImportRows(w, rows, after);
      }
      if !done {
        after := after.(deferred := after.deferred + 1);
      } else if f !in w.stuck {
        files := files - {f};
      }
    }

    /** `import_inbox`, over the entries in the order they are listed. */
    method ImportInbox(w: World, order: seq<FileName>) returns (report: InboxReport)
      requires forall f :: f in order ==> f in files
      requires forall i, j :: 0 <= i < j < |order| ==> order[i] != order[j]
      modifies this
      ensures Outcome(events, files, report.deferred) == Drained(w, old(events), old(files), order)
      ensures report.imported == |events| - |old(events)| && old(events) <= events
      ensures report.unreadable == |Dropping(w, old(files), order)| && report.unlinked == |Unplacing(w, old(files), order)|
      ensures AreGained(report.workspaces, events, |old(events)|, w.refused == {})
    {
      hide AreGained, PlanFor;
      report := EMPTY_REPORT;
      NoneGained(events, w.refused == {});
      for i := 0 to |order|
        invariant old(events) <= events
        invariant report.unreadable == |Dropping(w, old(files), order[..i])| && report.unlinked == |Unplacing(w, old(files), order[..i])|
        invariant AreGained(report.workspaces, events, |old(events)|, w.refused == {})
        invariant Outcome(events, files, report.deferred) == Drained(w, old(events), old(files), order[..i])
        invariant forall j :: i <= j < |order| ==> order[j] in files && files[order[j]] == old(files)[order[j]]
        invariant report.imported == |events| - |old(events)|
      {
        assert order[..i + 1][..i] == order[..i] && order[..i + 1][i] == order[i];
        OneMoreDropping(w, old(files), order[..i + 1]);
        ghost var earlier, before := events, report.workspaces;
        report := ImportFile(w, order[i], report);
        GainedMore(old(events), earlier, events, before, report.workspaces, w.refused == {});
      }
      assert order[..|order|] == order;
    }
  }

  // ---- What a drain leaves ----

  ghost function DeferredOf(w: World, files: map<FileName, File>, order: seq<FileName>): set<FileName>
    requires forall f :: f in order ==> f in files
  {
    set f | f in order && IsDeferred(w, PlanOf(w, files, f))
  }

  /**
   The files a drain leaves are those it never listed, those it counted as deferred, and those
   whose removal failed; the count is the number of the second.
   */
  lemma {:induction false} DrainLeavesTheDeferred(w: World, events: seq<Row>, files: map<FileName, File>, order: seq<FileName>)
    requires forall f :: f in order ==> f in files
    requires forall i, j :: 0 <= i < j < |order| ==> order[i] != order[j]
    ensures var d := Drained(w, events, files, order);
            && d.deferred == |DeferredOf(w, files, order)|
            && d.files == map f | f in files && (f !in order || f in w.stuck || f in DeferredOf(w, files, order)) :: files[f]
    decreases |order|
  {
    if order != [] {
      var n := |order| - 1;
      DrainLeavesTheDeferred(w, events, files, order[..n]);
      OneMoreDeferred(w, files, order);
      OneMoreDrained(w, Drained(w, events, files, order[..n]), files, order);
    }
  }

  lemma OneMoreDeferred(w: World, files: map<FileName, File>, order: seq<FileName>)
    requires forall f :: f in order ==> f in files
    requires forall i, j :: 0 <= i < j < |order| ==> order[i] != order[j]
    requires order != []
    ensures var n := |order| - 1;
            && order[n] !in order[..n]
            && (forall g :: g in order <==> g in order[..n] || g == order[n])
            && DeferredOf(w, files, order) ==
               DeferredOf(w, files, order[..n]) + if IsDeferred(w, PlanOf(w, files, order[n])) then {order[n]} else {}
  {
    var n := |order| - 1;
    assert order[n] !in order[..n];
    assert forall g :: g in order <==> g in order[..n] || g == order[n];
  }

  lemma OneMoreDrained(w: World, before: Outcome, files: map<FileName, File>, order: seq<FileName>)
    requires order != [] && forall f :: f in order ==> f in files
    requires var n := |order| - 1;
             var earlier := DeferredOf(w, files, order[..n]);
             && before.deferred == |earlier|
             && before.files == (map f | f in files && (f !in order[..n] || f in w.stuck || f in earlier) :: files[f])
             && order[n] !in order[..n]
             && (forall g :: g in order <==> g in order[..n] || g == order[n])
             && DeferredOf(w, files, order) == earlier + if IsDeferred(w, PlanOf(w, files, order[n])) then {order[n]} else {}
    ensures var n := |order| - 1;
            var d := DrainedOne(w, before, order[n], PlanOf(w, files, order[n]));
            var deferred := DeferredOf(w, files, order);
            && d.deferred == |deferred|
            && d.files == map f | f in files && (f !in order || f in w.stuck || f in deferred) :: files[f]
  {
    hide PlanOf, IsDeferred, Written;
    var n := |order| - 1;
    assert order[n] !in DeferredOf(w, files, order[..n]);
  }

  /** Every row written is one of those given. */
  lemma {:induction false} WrittenFrom(events: seq<Row>, rows: seq<Row>, refused: set<RowKey>, row: Row)
    requires row in Written(events, rows, refused)
    ensures row in events || row in rows
    decreases |rows|
  {
    if rows != [] && rows[0].key !in refused {
      WrittenFrom(Added(events, rows[0]), rows[1..], refused, row);
    }
  }

  /** Every row that a drain adds is one that a file it listed stands for. */
  lemma {:induction false} DrainAddsOnly(w: World, events: seq<Row>, files: map<FileName, File>, order: seq<FileName>, row: Row)
    requires forall f :: f in order ==> f in files
    requires row in Drained(w, events, files, order).events && row !in events
    ensures exists f :: f in order && IsRowOf(w, files, f, row)
    decreases |order|
  {
    if order != [] {
      hide IsRowOf, IsDeferred;
      var n := |order| - 1;
      var before := Drained(w, events, files, order[..n]);
      if row in before.events {
        DrainAddsOnly(w, events, files, order[..n], row);
      } else {
        var plan := PlanOf(w, files, order[n]);
        WrittenFrom(before.events, plan.rows, w.refused, row);
        PlannedIsRowOf(w, files, order[n], row);
      }
    }
  }

  lemma PlannedIsRowOf(w: World, files: map<FileName, File>, f: FileName, row: Row)
    requires f in files && PlanOf(w, files, f).Store?
    ensures row in PlanOf(w, files, f).rows <==> IsRowOf(w, files, f, row)
  {
    PlanStores(files[f].entry, w.places, w.lookups, ReadingOf(w, f), w.now);
  }

  /** A drain keeps every row, repeats none, and stores every row that a file it does not put off stands for. */
  lemma DrainStores(w: World, events: seq<Row>, files: map<FileName, File>, order: seq<FileName>)
    requires forall f :: f in order ==> f in files
    requires KeysOnce(events)
    ensures var d := Drained(w, events, files, order);
            && KeysOnce(d.events) && events <= d.events
            && forall f, row :: f in order && f !in DeferredOf(w, files, order) && IsRowOf(w, files, f, row) ==> HasKey(d.events, row.key)
  {
    hide IsRowOf, IsDeferred, PlanOf, Drained;
    DrainStoresPlans(w, events, files, order);
    var d := Drained(w, events, files, order);
    forall f, row | f in order && f !in DeferredOf(w, files, order) && IsRowOf(w, files, f, row) ensures HasKey(d.events, row.key) {
      StoodForIsPlanned(w, files, f, row);
      var i :| 0 <= i < |PlanOf(w, files, f).rows| && PlanOf(w, files, f).rows[i] == row;
    }
  }

  lemma StoodForIsPlanned(w: World, files: map<FileName, File>, f: FileName, row: Row)
    requires f in files && IsRowOf(w, files, f, row) && !IsDeferred(w, PlanOf(w, files, f))
    ensures PlanOf(w, files, f).Store? && row in PlanOf(w, files, f).rows
  {
    PlanStores(files[f].entry, w.places, w.lookups, ReadingOf(w, f), w.now);
  }

  lemma {:induction false} DrainStoresPlans(w: World, events: seq<Row>, files: map<FileName, File>, order: seq<FileName>)
    requires forall f :: f in order ==> f in files
    requires KeysOnce(events)
    ensures var d := Drained(w, events, files, order);
            && KeysOnce(d.events) && events <= d.events
            && forall f :: f in order && PlanOf(w, files, f).Store? && !IsDeferred(w, PlanOf(w, files, f)) ==>
                 AllStored(d.events, PlanOf(w, files, f).rows)
    decreases |order|
  {
    if order != [] {
      var n := |order| - 1;
      var before := Drained(w, events, files, order[..n]);
      var d := Drained(w, events, files, order);
      DrainStoresPlans(w, events, files, order[..n]);
      var plan := PlanOf(w, files, order[n]);
      if plan.Store? {
        WrittenStores(before.events, plan.rows, w.refused);
      }
      forall f | f in order && PlanOf(w, files, f).Store? && !IsDeferred(w, PlanOf(w, files, f))
        ensures AllStored(d.events, PlanOf(w, files, f).rows)
      {
        if f != order[n] {
          assert f in order[..n];
          AllStoredStays(before.events, d.events, PlanOf(w, files, f).rows);
        }
      }
    }
  }

  lemma AllStoredStays(events: seq<Row>, later: seq<Row>, rows: seq<Row>)
    requires events <= later && AllStored(events, rows)
    ensures AllStored(later, rows)
  {
    forall i | 0 <= i < |rows| ensures HasKey(later, rows[i].key) {
      StoredStays(events, later, rows[i].key);
    }
  }

  /**
   The first drain after a turn's grace period, or after its file is finished, consumes it when
   the writes go through, whatever earlier drains wrote of it. A finished turn then has every event of
   its own stored, once; one whose time is up, or whose file cannot be read, the one of its trigger;
   and an event that a hook reported is stored itself.
   */
  lemma DrainConsumes(w: World, events: seq<Row>, files: map<FileName, File>, order: seq<FileName>, f: FileName)
    requires forall g :: g in order ==> g in files
    requires forall i, j :: 0 <= i < j < |order| ==> order[i] != order[j]
    requires KeysOnce(events) && w.refused == {} && f in order && f !in w.stuck
    requires files[f].Readable? && PlaceOf(w.places, files[f].entry, w.lookups).Some?
    requires files[f].entry.trigger && f in w.readings && w.readings[f].NotYet? ==> w.now >= files[f].entry.at + 300_000
    ensures var d := Drained(w, events, files, order);
            var e := files[f].entry;
            && f !in d.files && KeysOnce(d.events) && events <= d.events
            && (forall row :: IsRowOf(w, files, f, row) ==> HasKey(d.events, row.key))
            && (!e.trigger ==> HasKey(d.events, Reported(e.producer, e.id)))
            && (e.trigger && f in w.readings && w.readings[f].Finished? ==> forall i :: 0 <= i < |e.turn| ==> HasKey(d.events, Derived(e.turn[i])))
            && (e.trigger && !(f in w.readings && w.readings[f].Finished?) ==> HasKey(d.events, Derived(e.fallback)))
  {
    hide Drained, PlanFor;
    var d, e := Drained(w, events, files, order), files[f].entry;
    PlanStores(e, w.places, w.lookups, ReadingOf(w, f), w.now);
    assert !IsDeferred(w, PlanOf(w, files, f));
    DrainLeavesTheDeferred(w, events, files, order);
    DrainStores(w, events, files, order);
    var link := PlaceOf(w.places, e, w.lookups).value;
    if !e.trigger {
      assert IsRowOf(w, files, f, Row(Reported(e.producer, e.id), link, AsReported));
    } else if ReadingOf(w, f).Finished? {
      forall i | 0 <= i < |e.turn| ensures HasKey(d.events, Derived(e.turn[i])) {
        assert IsRowOf(w, files, f, Row(Derived(e.turn[i]), link, SessionFile));
      }
    } else {
      assert IsRowOf(w, files, f, Row(Derived(e.fallback), link, Notify));
    }
  }

  /** Until then a turn whose file is unfinished stays where it is, and is counted. */
  lemma DrainWaits(w: World, events: seq<Row>, files: map<FileName, File>, order: seq<FileName>, f: FileName)
    requires forall g :: g in order ==> g in files
    requires forall i, j :: 0 <= i < j < |order| ==> order[i] != order[j]
    requires f in order && files[f].Readable? && files[f].entry.trigger
    requires PlaceOf(w.places, files[f].entry, w.lookups).Some?
    requires f in w.readings && w.readings[f].NotYet? && w.now < files[f].entry.at + 300_000
    ensures f in Drained(w, events, files, order).files && Drained(w, events, files, order).deferred > 0
  {
    DrainLeavesTheDeferred(w, events, files, order);
    assert f in DeferredOf(w, files, order);
  }
}
