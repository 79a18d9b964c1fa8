/**
 Any number of clients draining one inbox, interleaved at every call, with reads, lookups, writes and
 removals failing arbitrarily and clients dying anywhere. A step its client is not ready for
 changes nothing, so every sequence of steps is a schedule.
 */
module InboxClients {
  import opened Inbox
  import opened Options

  /** Why a client is done with a file. */
  datatype Why = Broken | NoPlace | Wrote(rows: seq<Row>)

  datatype Pc =
    | Idle
    | Listed(queue: seq<FileName>)
    | Writing(file: FileName, rows: seq<Row>, next: nat, queue: seq<FileName>)
    | Removing(file: FileName, why: Why, queue: seq<FileName>)

  /**
   `places` are the tables entries are placed by, which change as runs and workspaces come and go.
   `arrived` is every file a hook ever left; `unread` those a client could not read; `unplaced` those
   a client found no place for; `overdue` the turns a client went on to record from their trigger
   alone. The names are never used again.
   */
  datatype Sys = Sys(
    events: seq<Row>, places: Places, files: map<FileName, File>, clients: map<nat, Pc>,
    arrived: map<FileName, File>, unread: set<FileName>, unplaced: set<FileName>, overdue: set<FileName>)

  const START := Sys([], Places(map[], map[], {}, {}), map[], map[], map[], {}, {}, {})

  datatype Step =
    | Arrive(name: FileName, file: File)
    | List(client: nat, order: seq<FileName>)
    | Tables(places: Places)
    | Read(client: nat, lookups: Lookups, reading: Reading, now: int)
    | FailToRead(client: nat)
    | Write(client: nat, ok: bool)
    | Remove(client: nat, ok: bool)
    | Crash(client: nat)

  function At(s: Sys, c: nat): Pc {
    if c in s.clients then s.clients[c] else Idle
  }

  function Goto(s: Sys, c: nat, pc: Pc): Sys {
    s.(clients := s.clients[c := pc])
  }

  function Next(s: Sys, step: Step): Sys {
    match step
    case Arrive(name, file) =>
      if name in s.arrived then s else s.(files := s.files[name := file], arrived := s.arrived[name := file])
    case List(c, order) =>
      if (At(s, c).Idle? || At(s, c) == Listed([])) && (set f | f in order) == s.files.Keys then Goto(s, c, Listed(order)) else s
    case Tables(places) => s.(places := places)
    case Read(c, lookups, reading, now) =>
      if !At(s, c).Listed? || At(s, c).queue == [] then s
      else
        var f := At(s, c).queue[0];
        var queue := At(s, c).queue[1..];
        // A file another client removed meanwhile cannot be read.
        var file := if f in s.files then s.files[f] else Unreadable;
        (match PlanFor(file, s.places, lookups, reading, now)
         case Drop => Goto(s, c, Removing(f, Broken, queue))
         case Unplaced => Goto(s.(unplaced := s.unplaced + {f}), c, Removing(f, NoPlace, queue))
         case Wait => Goto(s, c, Listed(queue))
         case Store(rows) =>
           Goto(s.(overdue := s.overdue + if IsOverdue(file, reading, now) then {f} else {}), c, Writing(f, rows, 0, queue)))
    case FailToRead(c) =>
      if !At(s, c).Listed? || At(s, c).queue == [] then s
      else
        var f := At(s, c).queue[0];
        Goto(s.(unread := s.unread + ({f} * s.files.Keys)), c, Removing(f, Broken, At(s, c).queue[1..]))
    case Write(c, ok) =>
      if !At(s, c).Writing? then s
      else
        var Writing(f, rows, next, queue) := At(s, c);
        if next >= |rows| then Goto(s, c, Removing(f, Wrote(rows), queue))
        else if !ok then Goto(s, c, Listed(queue))
        else Goto(s.(events := Added(s.events, rows[next])), c, Writing(f, rows, next + 1, queue))
    case Remove(c, ok) =>
      if !At(s, c).Removing? then s
      else
        var Removing(f, _, queue) := At(s, c);
        Goto(s.(files := if ok then s.files - {f} else s.files), c, Listed(queue))
    case Crash(c) => Goto(s, c, Idle)
  }

  /** A turn whose session file cannot be read, or is not finished in time. */
  predicate IsOverdue(file: File, reading: Reading, now: int) {
    file.Readable? && file.entry.trigger && (reading.Failed? || (reading.NotYet? && now - file.entry.at >= GRACE))
  }

  function After(s: Sys, steps: seq<Step>): Sys
    decreases |steps|
  {
    if steps == [] then s else Next(After(s, steps[..|steps| - 1]), steps[|steps| - 1])
  }

  // ---- What every schedule keeps ----

  /** `rows` are all the rows a reading of the entry gives, under one link: only an overdue turn's are its trigger's. */
  ghost predicate RowsOf(file: File, rows: seq<Row>, overdue: bool) {
    && file.Readable?
    && exists link: Link ::
         var e := file.entry;
         if !e.trigger then rows == [Row(Reported(e.producer, e.id), link, AsReported)]
         else rows == TurnRows(e.turn, link) || (overdue && rows == [Row(Derived(e.fallback), link, Notify)])
  }

  /** The event a hook reported, or every event of a turn, is in the table; of an overdue one, that of its trigger may do. */
  ghost predicate Recorded(events: seq<Row>, file: File, overdue: bool) {
    && file.Readable?
    && var e := file.entry;
       if !e.trigger then HasKey(events, Reported(e.producer, e.id))
       else (forall i :: 0 <= i < |e.turn| ==> HasKey(events, Derived(e.turn[i]))) || (overdue && HasKey(events, Derived(e.fallback)))
  }

  ghost predicate MayGo(s: Sys, f: FileName) {
    f in s.arrived
    && (s.arrived[f].Unreadable? || f in s.unread || f in s.unplaced || Recorded(s.events, s.arrived[f], f in s.overdue))
  }

  ghost predicate PcOk(s: Sys, pc: Pc) {
    match pc
    case Idle => true
    case Listed(queue) => forall f :: f in queue ==> f in s.arrived
    case Writing(f, rows, next, queue) =>
      && (forall g :: g in queue ==> g in s.arrived)
      && f in s.arrived && RowsOf(s.arrived[f], rows, f in s.overdue) && next <= |rows|
      && forall i :: 0 <= i < next ==> HasKey(s.events, rows[i].key)
    case Removing(f, why, queue) =>
      && (forall g :: g in queue ==> g in s.arrived)
      && f in s.arrived && (f in s.files ==> MayGo(s, f))
  }

  ghost predicate Safe(s: Sys) {
    && KeysOnce(s.events)
    && (forall f :: f in s.files ==> f in s.arrived && s.arrived[f] == s.files[f])
    && (forall f :: f in s.arrived && f !in s.files ==> MayGo(s, f))
    && (forall c :: c in s.clients ==> PcOk(s, s.clients[c]))
  }

  /** Rows, arrivals and findings are never taken back. */
  ghost predicate Later(s: Sys, u: Sys) {
    && s.events <= u.events
    && (forall f :: f in s.arrived ==> f in u.arrived && u.arrived[f] == s.arrived[f])
    && s.unread <= u.unread && s.unplaced <= u.unplaced && s.overdue <= u.overdue
    && (forall f :: f in u.files && f in s.arrived ==> f in s.files)
  }

  lemma RecordedStays(events: seq<Row>, later: seq<Row>, file: File, overdue: bool, more: bool)
    requires events <= later && Recorded(events, file, overdue) && (overdue ==> more)
    ensures Recorded(later, file, more)
  {
    var e := file.entry;
    forall key | HasKey(events, key) ensures HasKey(later, key) {
      StoredStays(events, later, key);
    }
  }

  lemma MayGoStays(s: Sys, u: Sys, f: FileName)
    requires Later(s, u) && MayGo(s, f)
    ensures MayGo(u, f)
  {
    if Recorded(s.events, s.arrived[f], f in s.overdue) {
      RecordedStays(s.events, u.events, s.arrived[f], f in s.overdue, f in u.overdue);
    }
  }

  lemma PcStays(s: Sys, u: Sys, pc: Pc)
    requires Later(s, u) && PcOk(s, pc)
    ensures PcOk(u, pc)
  {
    match pc
    case Writing(f, rows, next, queue) =>
      forall i | 0 <= i < next ensures HasKey(u.events, rows[i].key) {
        StoredStays(s.events, u.events, rows[i].key);
      }
    case Removing(f, why, queue) =>
      if f in u.files {
        MayGoStays(s, u, f);
      }
    case _ =>
  }

  /** Once all rows of a reading are stored, the entry is recorded. */
  lemma AllRowsRecord(events: seq<Row>, file: File, rows: seq<Row>, overdue: bool)
    requires RowsOf(file, rows, overdue) && AllStored(events, rows)
    ensures Recorded(events, file, overdue)
  {
    var e := file.entry;
    var link: Link :|
      if !e.trigger then rows == [Row(Reported(e.producer, e.id), link, AsReported)]
      else rows == TurnRows(e.turn, link) || (overdue && rows == [Row(Derived(e.fallback), link, Notify)]);
    if !e.trigger || rows != TurnRows(e.turn, link) {
      assert HasKey(events, rows[0].key);
    } else {
      forall i | 0 <= i < |e.turn| ensures HasKey(events, Derived(e.turn[i])) {
        assert HasKey(events, rows[i].key);
      }
    }
  }

  lemma Moved(s: Sys, u: Sys, c: nat)
    requires Safe(s) && Later(s, u) && KeysOnce(u.events)
    requires u.arrived == s.arrived && c in u.clients && u.clients == s.clients[c := u.clients[c]]
    requires PcOk(u, u.clients[c])
    requires u.files == s.files || (exists f :: u.files == s.files - {f} && (f in s.files ==> MayGo(s, f)))
    ensures Safe(u)
  {
    forall d | d in u.clients ensures PcOk(u, u.clients[d]) {
      if d != c {
        PcStays(s, u, s.clients[d]);
      }
    }
    forall f | f in u.arrived && f !in u.files ensures MayGo(u, f) {
      MayGoStays(s, u, f);
    }
  }

  lemma NextSafe(s: Sys, step: Step)
    requires Safe(s)
    ensures Safe(Next(s, step)) && Later(s, Next(s, step))
  {
    var u := Next(s, step);
    match step
    case Arrive(name, file) => ArriveSafe(s, name, file);
    case List(c, order) => if u != s { Moved(s, u, c); }
    case Tables(places) => TablesSafe(s, places);
    case Read(c, lookups, reading, now) => ReadSafe(s, c, lookups, reading, now);
    case FailToRead(c) => FailToReadSafe(s, c);
    case Write(c, ok) => WriteSafe(s, c, ok);
    case Remove(c, ok) => if At(s, c).Removing? { assert PcOk(s, At(s, c)); Moved(s, u, c); }
    case Crash(c) => Moved(s, u, c);
  }

  lemma ArriveSafe(s: Sys, name: FileName, file: File)
    requires Safe(s)
    ensures Safe(Next(s, Arrive(name, file))) && Later(s, Next(s, Arrive(name, file)))
  {
    var u := Next(s, Arrive(name, file));
    forall c | c in u.clients ensures PcOk(u, u.clients[c]) {
      PcStays(s, u, s.clients[c]);
    }
    forall f | f in u.arrived && f !in u.files ensures MayGo(u, f) {
      MayGoStays(s, u, f);
    }
  }

  lemma TablesSafe(s: Sys, places: Places)
    requires Safe(s)
    ensures Safe(Next(s, Tables(places))) && Later(s, Next(s, Tables(places)))
  {
    var u := Next(s, Tables(places));
    forall c | c in u.clients ensures PcOk(u, u.clients[c]) {
      PcStays(s, u, s.clients[c]);
    }
    forall f | f in u.arrived && f !in u.files ensures MayGo(u, f) {
      MayGoStays(s, u, f);
    }
  }

  lemma ReadSafe(s: Sys, c: nat, lookups: Lookups, reading: Reading, now: int)
    requires Safe(s)
    ensures var u := Next(s, Read(c, lookups, reading, now)); Safe(u) && Later(s, u)
  {
    var u := Next(s, Read(c, lookups, reading, now));
    if At(s, c).Listed? && At(s, c).queue != [] {
      assert PcOk(s, At(s, c));
      var f := At(s, c).queue[0];
      assert f in At(s, c).queue;
      if u.clients[c].Writing? {
        assert RowsOf(s.files[f], u.clients[c].rows, f in u.overdue);
      }
      ReadMoved(s, u, c, f);
    }
  }

  lemma FailToReadSafe(s: Sys, c: nat)
    requires Safe(s)
    ensures Safe(Next(s, FailToRead(c))) && Later(s, Next(s, FailToRead(c)))
  {
    var u := Next(s, FailToRead(c));
    if At(s, c).Listed? && At(s, c).queue != [] {
      assert PcOk(s, At(s, c));
      var f := At(s, c).queue[0];
      assert f in At(s, c).queue;
      Moved(s, u, c);
    }
  }

  lemma ReadMoved(s: Sys, u: Sys, c: nat, f: FileName)
    requires Safe(s) && u == Goto(s.(unplaced := u.unplaced, overdue := u.overdue), c, At(u, c))
    requires s.unplaced <= u.unplaced && s.overdue <= u.overdue
    requires PcOk(u, At(u, c))
    ensures Safe(u) && Later(s, u)
  {
    Moved(s, u, c);
  }

  lemma WriteSafe(s: Sys, c: nat, ok: bool)
    requires Safe(s)
    ensures Safe(Next(s, Write(c, ok))) && Later(s, Next(s, Write(c, ok)))
  {
    var u := Next(s, Write(c, ok));
    if At(s, c).Writing? {
      var Writing(f, rows, next, queue) := At(s, c);
      assert PcOk(s, At(s, c));
      if next >= |rows| {
        AllRowsRecord(s.events, s.arrived[f], rows, f in s.overdue);
      } else if ok {
        AddedKeeps(s.events, rows[next], rows[next].key);
        forall i | 0 <= i < next + 1 ensures HasKey(u.events, rows[i].key) {
          AddedKeeps(s.events, rows[next], rows[i].key);
        }
      }
      Moved(s, u, c);
    }
  }

  lemma {:induction false} AfterSafe(s: Sys, steps: seq<Step>)
    requires Safe(s)
    ensures Safe(After(s, steps)) && Later(s, After(s, steps))
    decreases |steps|
  {
    if steps != [] {
      var before := After(s, steps[..|steps| - 1]);
      AfterSafe(s, steps[..|steps| - 1]);
      NextSafe(before, steps[|steps| - 1]);
    }
  }

  // ---- Entries dropped for want of a place ----

  /** The client reads `f`, finds no place for it, and goes on to remove it. */
  ghost predicate IsDropping(s: Sys, step: Step, f: FileName) {
    && step.Read? && IsReading(s, step.client, f)
    && PlanFor(s.files[f], s.places, step.lookups, step.reading, step.now).Unplaced?
  }

  /** `f` is the next file that client `c` reads, and it is there. */
  ghost predicate IsReading(s: Sys, c: nat, f: FileName) {
    At(s, c).Listed? && At(s, c).queue != [] && At(s, c).queue[0] == f && f in s.files
  }

  /** Some step of the schedule dropped `f` for want of a place. */
  ghost predicate WasDropped(steps: seq<Step>, f: FileName) {
    exists i :: 0 <= i < |steps| && IsDropping(After(START, steps[..i]), steps[i], f)
  }

  /** The same, by a step at which no lookup of a name the entry is known by was answered. */
  ghost predicate WasUnanswered(steps: seq<Step>, f: FileName, e: Entry) {
    exists i :: 0 <= i < |steps| && steps[i].Read? && IsDropping(After(START, steps[..i]), steps[i], f)
                && Unanswered(After(START, steps[..i]).places, e, steps[i].lookups)
  }

  /** The same, by a step at which the tables knew nothing that the entry names. */
  ghost predicate WasUnplaceable(steps: seq<Step>, f: FileName, e: Entry) {
    exists i :: 0 <= i < |steps| && IsDropping(After(START, steps[..i]), steps[i], f)
                && !Placeable(After(START, steps[..i]).places, e)
  }

  /** The client fails to read `f`, and goes on to remove it. */
  ghost predicate FailsToRead(s: Sys, step: Step, f: FileName) {
    step.FailToRead? && IsReading(s, step.client, f)
  }

  /** Some client failed to read `f`. */
  ghost predicate WasUnread(steps: seq<Step>, f: FileName) {
    exists i :: 0 <= i < |steps| && FailsToRead(After(START, steps[..i]), steps[i], f)
  }

  /** The client reads the turn `f` and finds that its session file failed, or that its time is up. */
  ghost predicate FindsOverdue(s: Sys, step: Step, f: FileName) {
    && step.Read? && IsReading(s, step.client, f) && IsOverdue(s.files[f], step.reading, step.now)
    && PlanFor(s.files[f], s.places, step.lookups, step.reading, step.now).Store?
  }

  ghost predicate WasOverdue(steps: seq<Step>, f: FileName) {
    exists i :: 0 <= i < |steps| && FindsOverdue(After(START, steps[..i]), steps[i], f)
  }

  lemma NextFindings(s: Sys, step: Step, f: FileName)
    ensures f in Next(s, step).unread <==> f in s.unread || FailsToRead(s, step, f)
    ensures f in Next(s, step).unplaced <==> f in s.unplaced || IsDropping(s, step, f)
    ensures f in Next(s, step).overdue <==> f in s.overdue || FindsOverdue(s, step, f)
  {
  }

  /** What the state remembers of a file is what some step found. */
  lemma {:induction false} FindingsIff(steps: seq<Step>, f: FileName)
    ensures f in After(START, steps).unread <==> WasUnread(steps, f)
    ensures f in After(START, steps).unplaced <==> WasDropped(steps, f)
    ensures f in After(START, steps).overdue <==> WasOverdue(steps, f)
    decreases |steps|
  {
    hide FailsToRead, IsDropping, FindsOverdue, WasUnread, WasDropped, WasOverdue;
    if steps == [] {
      NothingFoundYet(f);
    } else {
      hide After, Next;
      var n := |steps| - 1;
      AfterLast(steps);
      FindingsIff(steps[..n], f);
      NextFindings(After(START, steps[..n]), steps[n], f);
      FoundSince(steps, f);
    }
  }

  lemma FoundSince(steps: seq<Step>, f: FileName)
    requires steps != []
    ensures var n := |steps| - 1;
            var s := After(START, steps[..n]);
            && (WasUnread(steps, f) <==> WasUnread(steps[..n], f) || FailsToRead(s, steps[n], f))
            && (WasDropped(steps, f) <==> WasDropped(steps[..n], f) || IsDropping(s, steps[n], f))
            && (WasOverdue(steps, f) <==> WasOverdue(steps[..n], f) || FindsOverdue(s, steps[n], f))
  {
    hide After, FailsToRead, IsDropping, FindsOverdue;
    var n := |steps| - 1;
    assert forall i :: 0 <= i < n ==> steps[..n][..i] == steps[..i] && steps[..n][i] == steps[i];
  }

  lemma NothingFoundYet(f: FileName)
    ensures !WasUnread([], f) && !WasDropped([], f) && !WasOverdue([], f)
  {
  }

  lemma AfterLast(steps: seq<Step>)
    requires steps != []
    ensures After(START, steps) == Next(After(START, steps[..|steps| - 1]), steps[|steps| - 1])
  {
    hide Next;
  }

  lemma StartIsSafe()
    ensures Safe(START)
  {
  }

  /** A file that is read is as it arrived. */
  lemma ReadAsArrived(steps: seq<Step>, i: nat, f: FileName)
    requires i <= |steps| && f in After(START, steps[..i]).files
    ensures var s, u := After(START, steps[..i]), After(START, steps);
            f in s.arrived && f in u.arrived && s.files[f] == s.arrived[f] == u.arrived[f]
  {
    hide After;
    StartIsSafe();
    AfterSafe(START, steps[..i]);
    AfterSafe(After(START, steps[..i]), steps[i..]);
    AfterOn(steps, i);
  }

  lemma AfterOn(steps: seq<Step>, i: nat)
    requires i <= |steps|
    ensures After(After(START, steps[..i]), steps[i..]) == After(START, steps)
    decreases |steps| - i
  {
    if i == |steps| {
      assert steps[..i] == steps && steps[i..] == [];
    } else {
      AfterOnLast(steps, i);
    }
  }

  lemma {:induction false} AfterOnLast(steps: seq<Step>, i: nat)
    requires i < |steps|
    ensures After(After(START, steps[..i]), steps[i..]) == After(START, steps)
    decreases |steps|
  {
    hide Next;
    var n := |steps| - 1;
    var s := After(START, steps[..i]);
    assert steps[i..][..n - i] == steps[..n][i..] && steps[i..][n - i] == steps[n];
    assert steps[..n][..i] == steps[..i];
    if i < n {
      AfterOnLast(steps[..n], i);
    } else {
      assert steps[..n][i..] == [];
    }
    assert After(s, steps[i..]) == Next(After(s, steps[i..][..n - i]), steps[n]);
  }

  /**
   Whether a client drops the readable entry it reads, in any schedule: exactly when no lookup of a
   name the entry is known by is answered, by the tables as they are then.
   */
  lemma DroppedIff(steps: seq<Step>, i: nat, f: FileName)
    requires i < |steps| && steps[i].Read? && IsReading(After(START, steps[..i]), steps[i].client, f)
    requires f in After(START, steps).arrived && After(START, steps).arrived[f].Readable?
    ensures IsDropping(After(START, steps[..i]), steps[i], f) <==>
            Unanswered(After(START, steps[..i]).places, After(START, steps).arrived[f].entry, steps[i].lookups)
  {
    hide After;
    ReadAsArrived(steps, i, f);
    var s := After(START, steps[..i]);
    UnplacedIffLookupsFailed(s.places, s.files[f].entry, steps[i].lookups);
  }

  /** An entry that is dropped was placeable exactly when the lookup of a name it was known by failed. */
  lemma DroppedThoughPlaceableIff(steps: seq<Step>, i: nat, f: FileName)
    requires i < |steps| && IsDropping(After(START, steps[..i]), steps[i], f)
    ensures var s, u := After(START, steps[..i]), After(START, steps);
            && f in u.arrived && u.arrived[f].Readable?
            && (Placeable(s.places, u.arrived[f].entry) <==> FailsForKnown(s.places, u.arrived[f].entry, steps[i].lookups))
  {
    hide After;
    ReadAsArrived(steps, i, f);
    DroppedIff(steps, i, f);
  }

  /**
   In every schedule, no source key is stored twice, and an entry that is gone from the inbox was
   unreadable, has its own event or all events of its turn stored, is a turn whose session file a client
   found failing or late and that has the event of its trigger stored, or was dropped by a client that failed to read it, or none of
   whose lookups of the names it was known by was answered.
   */
  lemma NothingLostNothingTwice(steps: seq<Step>, f: FileName)
    requires f in After(START, steps).arrived
    ensures var s := After(START, steps);
            && (forall i, j :: 0 <= i < j < |s.events| ==> s.events[i].key != s.events[j].key)
            && (f in s.files || s.arrived[f].Unreadable? || Recorded(s.events, s.arrived[f], WasOverdue(steps, f))
                || WasUnread(steps, f) || WasUnanswered(steps, f, s.arrived[f].entry))
  {
    hide After, WasUnread, WasOverdue, WasDropped, WasUnanswered;
    StartIsSafe();
    AfterSafe(START, steps);
    FindingsIff(steps, f);
    if WasDropped(steps, f) && After(START, steps).arrived[f].Readable? {
      DroppedUnanswered(steps, f);
    }
  }

  lemma DroppedUnanswered(steps: seq<Step>, f: FileName)
    requires WasDropped(steps, f) && f in After(START, steps).arrived && After(START, steps).arrived[f].Readable?
    ensures WasUnanswered(steps, f, After(START, steps).arrived[f].entry)
  {
    hide After;
    var i :| 0 <= i < |steps| && IsDropping(After(START, steps[..i]), steps[i], f);
    DroppedIff(steps, i, f);
  }

  /** Where every lookup is answered, only an entry that could not be read, or names nothing known, is gone unstored. */
  lemma AnsweredDropsOnlyTheUnplaceable(steps: seq<Step>, f: FileName)
    requires forall i :: 0 <= i < |steps| && steps[i].Read? ==> steps[i].lookups == Lookups(true, true, true, true)
    requires f in After(START, steps).arrived
    ensures var s := After(START, steps);
            || f in s.files || s.arrived[f].Unreadable? || Recorded(s.events, s.arrived[f], WasOverdue(steps, f))
            || WasUnread(steps, f) || WasUnplaceable(steps, f, s.arrived[f].entry)
  {
    hide After, WasUnread, WasOverdue;
    NothingLostNothingTwice(steps, f);
    var s := After(START, steps);
    if f !in s.files && s.arrived[f].Readable? && !Recorded(s.events, s.arrived[f], WasOverdue(steps, f)) && !WasUnread(steps, f) {
      var e := s.arrived[f].entry;
      var i :| 0 <= i < |steps| && steps[i].Read? && IsDropping(After(START, steps[..i]), steps[i], f)
               && Unanswered(After(START, steps[..i]).places, e, steps[i].lookups);
      assert !Placeable(After(START, steps[..i]).places, e);
    }
  }

  // ---- Where stored rows come from ----

  /** A client reads an entry that stands for the row, by the tables and with the lookups it has then. */
  ghost predicate ReadsRow(s: Sys, step: Step, row: Row) {
    && step.Read?
    && exists f :: IsReading(s, step.client, f) && s.files[f].Readable?
                   && StandsFor(s.places, step.lookups, s.files[f].entry, step.reading, step.now, row)
  }

  /** Stored, or about to be. */
  ghost predicate IsRow(s: Sys, row: Row) {
    row in s.events || exists c :: c in s.clients && s.clients[c].Writing? && row in s.clients[c].rows
  }

  lemma RowsNow(s: Sys, step: Step, c: nat, row: Row)
    requires At(Next(s, step), c).Writing? && row in At(Next(s, step), c).rows
    ensures (At(s, c).Writing? && row in At(s, c).rows) || ReadsRow(s, step, row)
  {
    if step.Read? && step.client == c && At(s, c).Listed? && At(s, c).queue != [] {
      var f := At(s, c).queue[0];
      if f in s.files && s.files[f].Readable? {
        PlanStores(s.files[f].entry, s.places, step.lookups, step.reading, step.now);
        assert IsReading(s, c, f);
      }
    }
  }

  lemma RowNow(s: Sys, step: Step, row: Row)
    requires IsRow(Next(s, step), row)
    ensures IsRow(s, row) || ReadsRow(s, step, row)
  {
    hide ReadsRow;
    var u := Next(s, step);
    if row in u.events {
      if row !in s.events {
        assert step.Write? && At(s, step.client).Writing?;
        assert row in At(s, step.client).rows;
      }
    } else {
      var c :| c in u.clients && u.clients[c].Writing? && row in u.clients[c].rows;
      RowsNow(s, step, c, row);
    }
  }

  /** In every schedule a stored row is one that an entry stood for when some client read it. */
  lemma {:induction false} EveryRowWasRead(steps: seq<Step>, row: Row) returns (i: nat)
    requires IsRow(After(START, steps), row)
    ensures i < |steps| && ReadsRow(After(START, steps[..i]), steps[i], row)
    decreases |steps|
  {
    hide After, IsRow, ReadsRow;
    if steps == [] {
      NothingYet();
      NoRowYet(row);
      assert false;
    } else {
      hide Next;
      var n := |steps| - 1;
      AfterLast(steps);
      RowNow(After(START, steps[..n]), steps[n], row);
      if IsRow(After(START, steps[..n]), row) {
        i := EveryRowWasRead(steps[..n], row);
        assert steps[..n][..i] == steps[..i];
      } else {
        i := n;
      }
    }
  }

  lemma NoRowYet(row: Row)
    ensures !IsRow(START, row)
  {
  }

  lemma OneMore(steps: seq<Step>, s: Sys, step: Step) returns (more: seq<Step>, u: Sys)
    requires After(START, steps) == s
    ensures more == steps + [step] && u == Next(s, step) && After(START, more) == u
  {
    more, u := steps + [step], Next(s, step);
    assert more[..|steps|] == steps;
  }

  /** It names run 3, of workspace 4. */
  const KNOWN := Entry(1, 0, 0, false, [], 0, Some(3), None, None, None)
  const TABLES := Places(map[3 := (4, None)], map[], {4}, {})

  lemma KnownEntryListed() returns (steps: seq<Step>)
    ensures After(START, steps) ==
            Sys([], TABLES, map[7 := Readable(KNOWN)], map[0 := Listed([7])], map[7 := Readable(KNOWN)], {}, {}, {})
    ensures forall i :: 0 <= i < |steps| ==> !steps[i].Read?
  {
    hide After;
    var s := START;
    steps := [];
    NothingYet();
    steps, s := OneMore(steps, s, Tables(TABLES));
    steps, s := OneMore(steps, s, Arrive(7, Readable(KNOWN)));
    assert (set f | f in [7]) == {7} == s.files.Keys;
    steps, s := OneMore(steps, s, List(0, [7]));
  }

  lemma NothingYet()
    ensures After(START, []) == START
  {
  }

  /** An entry that names a run the tables know is gone, unstored, after one lookup that failed. */
  lemma AKnownEntryIsDropped() returns (steps: seq<Step>)
    ensures var s := After(START, steps);
            && KnowsRun(s.places, KNOWN) && 7 in s.arrived && s.arrived[7] == Readable(KNOWN)
            && 7 !in s.files && s.events == []
  {
    hide After;
    steps := KnownEntryListed();
    var s := After(START, steps);
    steps, s := OneMore(steps, s, Read(0, Lookups(true, false, true, true), Finished, 0));
    assert At(s, 0) == Removing(7, NoPlace, []);
    steps, s := OneMore(steps, s, Remove(0, true));
  }

  /** And one is gone, unstored, after one read that failed, although it is readable and names a known run. */
  lemma AReadableEntryIsDropped() returns (steps: seq<Step>)
    ensures var s := After(START, steps);
            && KnowsRun(s.places, KNOWN) && 7 in s.arrived && s.arrived[7] == Readable(KNOWN)
            && 7 !in s.files && s.events == []
            && forall i :: 0 <= i < |steps| ==> !steps[i].Read?
  {
    hide After;
    steps := KnownEntryListed();
    var s := After(START, steps);
    steps, s := OneMore(steps, s, FailToRead(0));
    assert At(s, 0) == Removing(7, Broken, []);
    steps, s := OneMore(steps, s, Remove(0, true));
  }

  ghost predicate IsOnly(events: seq<Row>, key: RowKey, i: nat) {
    forall j :: 0 <= j < |events| ==> (events[j].key == key <==> j == i)
  }

  /** What is stored stays stored, once, whatever any client does next. */
  lemma StoredForGood(steps: seq<Step>, more: seq<Step>, key: RowKey)
    requires HasKey(After(START, steps).events, key)
    ensures StoredOnce(After(After(START, steps), more).events, key)
  {
    AfterSafe(START, steps);
    var s := After(START, steps);
    var u := After(s, more);
    AfterSafe(s, more);
    StoredStays(s.events, u.events, key);
    var i: nat :| i < |u.events| && u.events[i].key == key;
    assert IsOnly(u.events, key, i);
  }

  ghost predicate StoredOnce(events: seq<Row>, key: RowKey) {
    exists i: nat :: i < |events| && IsOnly(events, key, i)
  }
}
