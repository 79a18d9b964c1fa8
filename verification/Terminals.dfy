/**
 The terminal tabs of the window: which there are, which one each workspace shows, and exits that
 overtake the tab they belong to.
 */
module Terminals {
  import opened Options

  type SessionId = nat
  type WorkspaceId = nat
  type ExitInfo = int

  /** What the core says of a session; its labels, the workspace among them, are fixed at its start. */
  datatype Session = Session(id: SessionId, workspace: Option<WorkspaceId>, exit: Option<ExitInfo>)

  datatype Tab = Tab(id: SessionId, workspace: WorkspaceId, exit: Option<ExitInfo>)

  datatype State = State(tabs: seq<Tab>, active: map<WorkspaceId, SessionId>, early: map<SessionId, ExitInfo>)

  const EMPTY := State([], map[], map[])

  predicate HasTab(tabs: seq<Tab>, id: SessionId) {
    exists i :: 0 <= i < |tabs| && tabs[i].id == id
  }

  function TabFor(s: Session, early: map<SessionId, ExitInfo>): Option<Tab> {
    if s.workspace.None? then None
    else Some(Tab(s.id, s.workspace.value, if s.exit.Some? then s.exit else if s.id in early then Some(early[s.id]) else None))
  }

  // ---- The actions ----

  /** The tabs of the sessions that have none yet. */
  function NewTabs(tabs: seq<Tab>, sessions: seq<Session>, early: map<SessionId, ExitInfo>): seq<Tab> {
    if sessions == [] then []
    else
      var tab := TabFor(sessions[0], early);
      (if HasTab(tabs, sessions[0].id) || tab.None? then [] else [tab.value]) + NewTabs(tabs, sessions[1..], early)
  }

  /** A workspace that shows nothing shows the first of its tabs. */
  function Filled(active: map<WorkspaceId, SessionId>, adopted: seq<Tab>): map<WorkspaceId, SessionId>
    decreases |adopted|
  {
    if adopted == [] then active
    else
      Filled(if adopted[0].workspace in active then active else active[adopted[0].workspace := adopted[0].id], adopted[1..])
  }

  function Hydrated(s: State, sessions: seq<Session>): State {
    var adopted := NewTabs(s.tabs, sessions, s.early);
    s.(tabs := s.tabs + adopted, active := Filled(s.active, adopted))
  }

  function Adopted(s: State, session: Session): State {
    match TabFor(session, s.early)
    case None => s
    case Some(tab) =>
      s.(tabs := if HasTab(s.tabs, tab.id) then s.tabs else s.tabs + [tab], active := s.active[tab.workspace := tab.id])
  }

  function Without(tabs: seq<Tab>, id: SessionId): seq<Tab> {
    if tabs == [] then [] else (if tabs[0].id == id then [] else [tabs[0]]) + Without(tabs[1..], id)
  }

  function In(tabs: seq<Tab>, w: WorkspaceId): seq<Tab> {
    if tabs == [] then [] else (if tabs[0].workspace == w then [tabs[0]] else []) + In(tabs[1..], w)
  }

  /** The first tab with the id, or the number of tabs. */
  function IndexOf(tabs: seq<Tab>, id: SessionId): (at: nat)
    ensures at <= |tabs| && (at < |tabs| ==> tabs[at].id == id)
    ensures at == |tabs| <==> !HasTab(tabs, id)
  {
    if tabs == [] || tabs[0].id == id then 0
    else
      assert HasTab(tabs, id) ==> HasTab(tabs[1..], id) by {
        if HasTab(tabs, id) {
          var i :| 0 <= i < |tabs| && tabs[i].id == id;
          assert tabs[1..][i - 1].id == id;
        }
      }
      assert HasTab(tabs[1..], id) ==> HasTab(tabs, id) by {
        if HasTab(tabs[1..], id) {
          var i :| 0 <= i < |tabs[1..]| && tabs[1..][i].id == id;
          assert tabs[i + 1].id == id;
        }
      }
      1 + IndexOf(tabs[1..], id)
  }

  /** What a workspace shows once a tab it showed is closed: the one that took its place, or none. */
  function Closed(s: State, id: SessionId): State {
    var at := IndexOf(s.tabs, id);
    if at == |s.tabs| then s
    else
      var w := s.tabs[at].workspace;
      var siblings := In(s.tabs, w);
      var remaining := Without(siblings, id);
      var index := IndexOf(siblings, id);
      var active :=
        if w !in s.active || s.active[w] != id then s.active
        else if remaining == [] then s.active - {w}
        else s.active[w := remaining[if index < |remaining| then index else |remaining| - 1].id];
      s.(tabs := Without(s.tabs, id), active := active)
  }

  function Outside(tabs: seq<Tab>, gone: set<WorkspaceId>): seq<Tab> {
    if tabs == [] then [] else (if tabs[0].workspace in gone then [] else [tabs[0]]) + Outside(tabs[1..], gone)
  }

  function WorkspacesClosed(s: State, gone: set<WorkspaceId>): State {
    s.(tabs := Outside(s.tabs, gone), active := s.active - gone)
  }

  function Activated(s: State, id: SessionId): State {
    var at := IndexOf(s.tabs, id);
    if at == |s.tabs| then s else s.(active := s.active[s.tabs[at].workspace := id])
  }

  function WithExit(tabs: seq<Tab>, id: SessionId, exit: ExitInfo): (marked: seq<Tab>)
    ensures |marked| == |tabs|
    ensures forall i :: 0 <= i < |tabs| ==> marked[i] == if tabs[i].id == id then tabs[i].(exit := Some(exit)) else tabs[i]
  {
    seq(|tabs|, i requires 0 <= i < |tabs| => if tabs[i].id == id then tabs[i].(exit := Some(exit)) else tabs[i])
  }

  function Exited(s: State, id: SessionId, exit: ExitInfo): State {
    s.(tabs := WithExit(s.tabs, id, exit), early := if HasTab(s.tabs, id) then s.early else s.early[id := exit])
  }

  class TerminalStore {
    var tabs: seq<Tab>
    var active: map<WorkspaceId, SessionId>
    var earlyExits: map<SessionId, ExitInfo>

    ghost function Contents(): State
      reads this
    {
      State(tabs, active, earlyExits)
    }

    constructor ()
      ensures Contents() == EMPTY
    {
      tabs, active, earlyExits := [], map[], map[];
    }

    method Hydrate(sessions: seq<Session>)
      modifies this
      ensures Contents() == Hydrated(old(Contents()), sessions)
    {
      var adopted := NewTabs(tabs, sessions, earlyExits);
      ghost var before := active;
      for i := 0 to |adopted|
        invariant tabs == old(tabs) && earlyExits == old(earlyExits)
        invariant Filled(active, adopted[i..]) == Filled(before, adopted)
      {
        assert adopted[i..][0] == adopted[i] && adopted[i..][1..] == adopted[i + 1..];
        if adopted[i].workspace !in active {
          active := active[adopted[i].workspace := adopted[i].id];
        }
      }
      tabs := tabs + adopted;
    }

    method Adopt(session: Session)
      modifies this
      ensures Contents() == Adopted(old(Contents()), session)
    {
      var tab := TabFor(session, earlyExits);
      if tab.None? {
        return;
      }
      if !HasTab(tabs, tab.value.id) {
        tabs := tabs + [tab.value];
      }
      active := active[tab.value.workspace := tab.value.id];
    }

    method Close(id: SessionId)
      modifies this
      ensures Contents() == Closed(old(Contents()), id)
    {
      var at := IndexOf(tabs, id);
      if at == |tabs| {
        return;
      }
      var w := tabs[at].workspace;
      var siblings := In(tabs, w);
      var index := IndexOf(siblings, id);
      var remaining := Without(siblings, id);
      if w in active && active[w] == id {
        if |remaining| == 0 {
          active := active - {w};
        } else {
          active := active[w := remaining[if index < |remaining| then index else |remaining| - 1].id];
        }
      }
      tabs := Without(tabs, id);
    }

    method CloseWorkspaces(gone: set<WorkspaceId>)
      modifies this
      ensures Contents() == WorkspacesClosed(old(Contents()), gone)
    {
      tabs := Outside(tabs, gone);
      active := active - gone;
    }

    method Activate(id: SessionId)
      modifies this
      ensures Contents() == Activated(old(Contents()), id)
    {
      var at := IndexOf(tabs, id);
      if at < |tabs| {
        active := active[tabs[at].workspace := id];
      }
    }

    method MarkExited(id: SessionId, exit: ExitInfo)
      modifies this
      ensures Contents() == Exited(old(Contents()), id, exit)
    {
      if !HasTab(tabs, id) {
        earlyExits := earlyExits[id := exit];
      }
      tabs := WithExit(tabs, id, exit);
    }
  }

  // ---- Every run ----

  datatype Step =
    | Hydrate(sessions: seq<Session>)
    | Adopt(session: Session)
    | Close(id: SessionId)
    | CloseWorkspaces(gone: set<WorkspaceId>)
    | Activate(id: SessionId)
    | MarkExited(id: SessionId, exit: ExitInfo)

  /** The labels of a session say what `home` says, and the core lists a session once. */
  ghost predicate Tells(home: map<SessionId, WorkspaceId>, step: Step) {
    match step
    case Hydrate(sessions) =>
      && (forall i :: 0 <= i < |sessions| ==> IsHome(home, sessions[i]))
      && (forall i, j :: 0 <= i < j < |sessions| ==> sessions[i].id != sessions[j].id)
    case Adopt(session) => IsHome(home, session)
    case _ => true
  }

  ghost predicate IsHome(home: map<SessionId, WorkspaceId>, s: Session) {
    s.workspace == if s.id in home then Some(home[s.id]) else None
  }

  function Next(s: State, step: Step): State {
    match step
    case Hydrate(sessions) => Hydrated(s, sessions)
    case Adopt(session) => Adopted(s, session)
    case Close(id) => Closed(s, id)
    case CloseWorkspaces(gone) => WorkspacesClosed(s, gone)
    case Activate(id) => Activated(s, id)
    case MarkExited(id, exit) => Exited(s, id, exit)
  }

  function After(s: State, steps: seq<Step>): State
    decreases |steps|
  {
    if steps == [] then s else Next(After(s, steps[..|steps| - 1]), steps[|steps| - 1])
  }

  ghost predicate Unique(tabs: seq<Tab>) {
    forall i, j :: 0 <= i < j < |tabs| ==> tabs[i].id != tabs[j].id
  }

  /** The tab of `id` in workspace `w` is there. */
  ghost predicate HasIn(tabs: seq<Tab>, w: WorkspaceId, id: SessionId) {
    exists i :: 0 <= i < |tabs| && tabs[i].id == id && tabs[i].workspace == w
  }

  /** A workspace shows a tab exactly when it has any, and shows one of its own. */
  ghost predicate ActiveOk(tabs: seq<Tab>, active: map<WorkspaceId, SessionId>) {
    && (forall i :: 0 <= i < |tabs| ==> tabs[i].workspace in active)
    && (forall w :: w in active ==> HasIn(tabs, w, active[w]))
  }

  ghost predicate Safe(home: map<SessionId, WorkspaceId>, s: State) {
    && Unique(s.tabs)
    && (forall i :: 0 <= i < |s.tabs| ==> s.tabs[i].id in home && s.tabs[i].workspace == home[s.tabs[i].id])
    && ActiveOk(s.tabs, s.active)
    && (forall i :: 0 <= i < |s.tabs| && s.tabs[i].id in s.early ==> s.tabs[i].exit.Some?)
  }

  // ---- Filters ----

  lemma {:induction false} WithoutKeeps(tabs: seq<Tab>, id: SessionId, t: Tab)
    ensures t in Without(tabs, id) <==> t in tabs && t.id != id
    decreases |tabs|
  {
    if tabs != [] {
      WithoutKeeps(tabs[1..], id, t);
    }
  }

  lemma {:induction false} InKeeps(tabs: seq<Tab>, w: WorkspaceId, t: Tab)
    ensures t in In(tabs, w) <==> t in tabs && t.workspace == w
    decreases |tabs|
  {
    if tabs != [] {
      InKeeps(tabs[1..], w, t);
    }
  }

  lemma {:induction false} OutsideKeeps(tabs: seq<Tab>, gone: set<WorkspaceId>, t: Tab)
    ensures t in Outside(tabs, gone) <==> t in tabs && t.workspace !in gone
    decreases |tabs|
  {
    if tabs != [] {
      OutsideKeeps(tabs[1..], gone, t);
    }
  }

  lemma {:induction false} WithoutUnique(tabs: seq<Tab>, id: SessionId)
    requires Unique(tabs)
    ensures Unique(Without(tabs, id))
    decreases |tabs|
  {
    if tabs != [] {
      var rest := Without(tabs[1..], id);
      WithoutUnique(tabs[1..], id);
      forall j | 0 <= j < |rest| ensures rest[j].id != tabs[0].id {
        WithoutKeeps(tabs[1..], id, rest[j]);
        assert rest[j] in rest;
      }
    }
  }

  lemma {:induction false} OutsideUnique(tabs: seq<Tab>, gone: set<WorkspaceId>)
    requires Unique(tabs)
    ensures Unique(Outside(tabs, gone))
    decreases |tabs|
  {
    if tabs != [] {
      var rest := Outside(tabs[1..], gone);
      OutsideUnique(tabs[1..], gone);
      forall j | 0 <= j < |rest| ensures rest[j].id != tabs[0].id {
        OutsideKeeps(tabs[1..], gone, rest[j]);
        assert rest[j] in rest;
      }
    }
  }

  // ---- What each action does ----

  /** The tab is that of one of the sessions, with the exit the session has, or else the one that overtook it. */
  ghost predicate IsOfOne(sessions: seq<Session>, early: map<SessionId, ExitInfo>, tab: Tab) {
    exists k :: 0 <= k < |sessions| && IsOf(sessions[k], early, tab)
  }

  ghost predicate IsOf(s: Session, early: map<SessionId, ExitInfo>, tab: Tab) {
    && s.id == tab.id && s.workspace == Some(tab.workspace)
    && (s.exit.Some? ==> tab.exit == s.exit)
    && (s.exit.None? && s.id in early ==> tab.exit == Some(early[s.id]))
    && (s.exit.None? && s.id !in early ==> tab.exit == None)
  }

  lemma {:induction false} NewTabsHave(tabs: seq<Tab>, sessions: seq<Session>, early: map<SessionId, ExitInfo>, k: nat)
    requires k < |sessions| && sessions[k].workspace.Some? && !HasTab(tabs, sessions[k].id)
    ensures exists i :: 0 <= i < |NewTabs(tabs, sessions, early)|
                        && NewTabs(tabs, sessions, early)[i].id == sessions[k].id
                        && NewTabs(tabs, sessions, early)[i].workspace == sessions[k].workspace.value
    decreases |sessions|
  {
    var rest := NewTabs(tabs, sessions[1..], early);
    var all := NewTabs(tabs, sessions, early);
    if k == 0 {
      assert all[0].id == sessions[0].id;
    } else {
      NewTabsHave(tabs, sessions[1..], early, k - 1);
      var i :| 0 <= i < |rest| && rest[i].id == sessions[k].id && rest[i].workspace == sessions[k].workspace.value;
      assert all[|all| - |rest| + i] == rest[i];
    }
  }

  lemma {:induction false} NewTabsAreNew(tabs: seq<Tab>, sessions: seq<Session>, early: map<SessionId, ExitInfo>, i: nat)
    requires i < |NewTabs(tabs, sessions, early)|
    ensures var tab := NewTabs(tabs, sessions, early)[i];
            && !HasTab(tabs, tab.id)
            && IsOfOne(sessions, early, tab)
    decreases |sessions|
  {
    var rest := NewTabs(tabs, sessions[1..], early);
    var all := NewTabs(tabs, sessions, early);
    if i < |all| - |rest| {
      assert IsOf(sessions[0], early, all[i]);
    } else {
      assert all[i] == rest[i - (|all| - |rest|)];
      NewTabsAreNew(tabs, sessions[1..], early, i - (|all| - |rest|));
      var k :| 0 <= k < |sessions[1..]| && IsOf(sessions[1..][k], early, all[i]);
      assert sessions[k + 1] == sessions[1..][k];
    }
  }

  /** A tab is the first of its workspace from place `from` on. */
  ghost predicate IsFirstIn(tabs: seq<Tab>, from: nat, w: WorkspaceId, id: SessionId) {
    exists i :: from <= i < |tabs| && tabs[i].workspace == w && tabs[i].id == id && forall j :: from <= j < i ==> tabs[j].workspace != w
  }

  lemma {:induction false} FilledWithFirst(active: map<WorkspaceId, SessionId>, adopted: seq<Tab>, w: WorkspaceId)
    ensures w in active ==> w in Filled(active, adopted) && Filled(active, adopted)[w] == active[w]
    ensures w !in active ==> (w in Filled(active, adopted) <==> exists i :: 0 <= i < |adopted| && adopted[i].workspace == w)
    ensures w !in active && w in Filled(active, adopted) ==> IsFirstIn(adopted, 0, w, Filled(active, adopted)[w])
    decreases |adopted|
  {
    if adopted != [] {
      var first := adopted[0];
      var next := if first.workspace in active then active else active[first.workspace := first.id];
      FilledWithFirst(next, adopted[1..], w);
      assert forall i :: 0 < i < |adopted| ==> adopted[i] == adopted[1..][i - 1];
    }
  }

  /**
   `hydrate`: the tabs there are stay as they are and where they are, behind them comes one for each
   session that has a workspace and no tab, and for nobody else; a workspace goes on showing what it
   shows, and one that shows nothing shows the first of its new tabs.
   */
  lemma HydrateShowsAll(s: State, sessions: seq<Session>)
    ensures var u := Next(s, Hydrate(sessions));
            && s.tabs <= u.tabs && u.early == s.early
            && (forall k :: 0 <= k < |sessions| && sessions[k].workspace.Some? ==> HasTab(u.tabs, sessions[k].id))
            && (forall i :: |s.tabs| <= i < |u.tabs| ==>
                  !HasTab(s.tabs, u.tabs[i].id)
                  && IsOfOne(sessions, s.early, u.tabs[i]))
            && (forall w :: w in s.active ==> w in u.active && u.active[w] == s.active[w])
            && (forall i :: |s.tabs| <= i < |u.tabs| ==> u.tabs[i].workspace in u.active)
            && (forall w :: w in u.active && w !in s.active ==> IsFirstIn(u.tabs, |s.tabs|, w, u.active[w]))
  {
    hide NewTabs, Filled, IsFirstIn, HasTab, IsOfOne;
    HydratedTabs(s, sessions);
    HydratedActive(s, sessions);
  }

  lemma HydratedTabs(s: State, sessions: seq<Session>)
    ensures var u := Hydrated(s, sessions);
            && (forall k :: 0 <= k < |sessions| && sessions[k].workspace.Some? ==> HasTab(u.tabs, sessions[k].id))
            && (forall i :: |s.tabs| <= i < |u.tabs| ==>
                  !HasTab(s.tabs, u.tabs[i].id)
                  && IsOfOne(sessions, s.early, u.tabs[i]))
  {
    hide NewTabs, Filled;
    var u := Hydrated(s, sessions);
    var adopted := NewTabs(s.tabs, sessions, s.early);
    var n := |s.tabs|;
    forall k | 0 <= k < |sessions| && sessions[k].workspace.Some? ensures HasTab(u.tabs, sessions[k].id) {
      if HasTab(s.tabs, sessions[k].id) {
        var i :| 0 <= i < n && s.tabs[i].id == sessions[k].id;
        assert u.tabs[i] == s.tabs[i];
      } else {
        NewTabsHave(s.tabs, sessions, s.early, k);
        var i :| 0 <= i < |adopted| && adopted[i].id == sessions[k].id;
        assert u.tabs[n + i] == adopted[i];
      }
    }
    forall i | n <= i < |u.tabs|
      ensures !HasTab(s.tabs, u.tabs[i].id)
      ensures IsOfOne(sessions, s.early, u.tabs[i])
    {
      assert u.tabs[i] == adopted[i - n];
      NewTabsAreNew(s.tabs, sessions, s.early, i - n);
    }
  }

  lemma HydratedActive(s: State, sessions: seq<Session>)
    ensures var u := Hydrated(s, sessions);
            && (forall w :: w in s.active ==> w in u.active && u.active[w] == s.active[w])
            && (forall i :: |s.tabs| <= i < |u.tabs| ==> u.tabs[i].workspace in u.active)
            && (forall w :: w in u.active && w !in s.active ==> IsFirstIn(u.tabs, |s.tabs|, w, u.active[w]))
  {
    hide NewTabs, Filled, IsFirstIn;
    var u := Hydrated(s, sessions);
    var adopted := NewTabs(s.tabs, sessions, s.early);
    forall i | |s.tabs| <= i < |u.tabs| ensures u.tabs[i].workspace in u.active {
      assert u.tabs[i] == adopted[i - |s.tabs|];
      FilledWithFirst(s.active, adopted, u.tabs[i].workspace);
    }
    forall w ensures w in s.active ==> w in u.active && u.active[w] == s.active[w]
             ensures w in u.active && w !in s.active ==> IsFirstIn(u.tabs, |s.tabs|, w, u.active[w]) {
      FilledWithFirst(s.active, adopted, w);
      if w in u.active && w !in s.active {
        FirstBehind(s.tabs, adopted, w, u.active[w]);
      }
    }
  }

  lemma FirstBehind(tabs: seq<Tab>, adopted: seq<Tab>, w: WorkspaceId, id: SessionId)
    requires IsFirstIn(adopted, 0, w, id)
    ensures IsFirstIn(tabs + adopted, |tabs|, w, id)
  {
    var i :| 0 <= i < |adopted| && adopted[i].workspace == w && adopted[i].id == id && forall j :: 0 <= j < i ==> adopted[j].workspace != w;
    assert (tabs + adopted)[|tabs| + i] == adopted[i];
    forall j | |tabs| <= j < |tabs| + i ensures (tabs + adopted)[j].workspace != w {
      assert (tabs + adopted)[j] == adopted[j - |tabs|];
    }
  }

  /** `adopt`: a session's tab is there, added at the end if it was not, and shown; one without a workspace changes nothing. */
  lemma AdoptShows(s: State, session: Session)
    ensures var u := Next(s, Adopt(session));
            match session.workspace
            case None => u == s
            case Some(w) =>
              && HasTab(u.tabs, session.id) && s.tabs <= u.tabs && |u.tabs| == |s.tabs| + (if HasTab(s.tabs, session.id) then 0 else 1)
              && (!HasTab(s.tabs, session.id) ==> IsOf(session, s.early, u.tabs[|s.tabs|]))
              && u.active == s.active[w := session.id] && u.early == s.early
  {
    var u := Adopted(s, session);
    if session.workspace.Some? {
      if i :| 0 <= i < |s.tabs| && s.tabs[i].id == session.id {
        assert u.tabs[i] == s.tabs[i];
      } else {
        assert u.tabs[|s.tabs|].id == session.id;
      }
    }
  }

  /** `activate`: the workspace of a known tab shows it, and nothing else changes. */
  lemma ActivateShows(s: State, id: SessionId, i: nat)
    requires i < |s.tabs| && Unique(s.tabs) && s.tabs[i].id == id
    ensures Next(s, Activate(id)) == s.(active := s.active[s.tabs[i].workspace := id])
  {
    var at := IndexOf(s.tabs, id);
    assert at < |s.tabs| && s.tabs[at].id == id;
  }

  lemma {:induction false} InParts(a: seq<Tab>, b: seq<Tab>, w: WorkspaceId)
    ensures In(a + b, w) == In(a, w) + In(b, w)
    decreases |a|
  {
    if a == [] {
      assert a + b == b && In(a, w) + In(b, w) == In(b, w);
    } else {
      var first := if a[0].workspace == w then [a[0]] else [];
      assert (a + b)[1..] == a[1..] + b;
      InParts(a[1..], b, w);
      assert In(a + b, w) == first + (In(a[1..], w) + In(b, w));
    }
  }

  lemma {:induction false} WithoutParts(a: seq<Tab>, b: seq<Tab>, id: SessionId)
    ensures Without(a + b, id) == Without(a, id) + Without(b, id)
    decreases |a|
  {
    if a == [] {
      assert a + b == b;
    } else {
      assert (a + b)[1..] == a[1..] + b;
      WithoutParts(a[1..], b, id);
    }
  }

  lemma {:induction false} OutsideParts(a: seq<Tab>, b: seq<Tab>, gone: set<WorkspaceId>)
    ensures Outside(a + b, gone) == Outside(a, gone) + Outside(b, gone)
    decreases |a|
  {
    if a == [] {
      assert a + b == b;
    } else {
      assert (a + b)[1..] == a[1..] + b;
      OutsideParts(a[1..], b, gone);
    }
  }

  lemma {:induction false} WithoutNone(tabs: seq<Tab>, id: SessionId)
    requires !HasTab(tabs, id)
    ensures Without(tabs, id) == tabs
    decreases |tabs|
  {
    if tabs != [] {
      assert !HasTab(tabs[1..], id) by {
        assert forall i :: 0 <= i < |tabs[1..]| ==> tabs[1..][i] == tabs[i + 1];
      }
      WithoutNone(tabs[1..], id);
    }
  }

  lemma {:induction false} IndexBehind(a: seq<Tab>, b: seq<Tab>, id: SessionId)
    requires !HasTab(a, id) && b != [] && b[0].id == id
    ensures IndexOf(a + b, id) == |a|
    decreases |a|
  {
    if a == [] {
      assert a + b == b;
    } else {
      assert (a + b)[1..] == a[1..] + b && a[0].id != id;
      assert !HasTab(a[1..], id) by {
        assert forall i :: 0 <= i < |a[1..]| ==> a[1..][i] == a[i + 1];
      }
      IndexBehind(a[1..], b, id);
    }
  }

  lemma {:induction false} NoneOfIn(tabs: seq<Tab>, w: WorkspaceId)
    ensures In(tabs, w) == [] <==> forall i :: 0 <= i < |tabs| ==> tabs[i].workspace != w
    decreases |tabs|
  {
    if tabs != [] {
      NoneOfIn(tabs[1..], w);
      assert forall i :: 0 < i < |tabs| ==> tabs[i] == tabs[1..][i - 1];
      assert forall i :: 0 <= i < |tabs[1..]| ==> tabs[1..][i] == tabs[i + 1];
    }
  }

  /** A workspace's tabs begin with its first. */
  lemma {:induction false} FirstOfIn(tabs: seq<Tab>, w: WorkspaceId)
    requires In(tabs, w) != []
    ensures IsFirstIn(tabs, 0, w, In(tabs, w)[0].id)
    decreases |tabs|
  {
    hide IsFirstIn;
    if tabs[0].workspace == w {
      FirstIsIt(tabs, w);
    } else {
      FirstOfIn(tabs[1..], w);
      FirstBehind([tabs[0]], tabs[1..], w, In(tabs[1..], w)[0].id);
      assert [tabs[0]] + tabs[1..] == tabs;
      FirstFromStart(tabs, w, In(tabs[1..], w)[0].id);
    }
  }

  /** And end with its last. */
  lemma {:induction false} LastOfIn(tabs: seq<Tab>, w: WorkspaceId)
    requires In(tabs, w) != []
    ensures IsLastIn(tabs, w, In(tabs, w)[|In(tabs, w)| - 1].id)
    decreases |tabs|
  {
    hide IsLastIn;
    var rest := In(tabs[1..], w);
    if rest == [] {
      NoneOfIn(tabs[1..], w);
      FirstIsIt(tabs, w);
    } else {
      LastOfIn(tabs[1..], w);
      LastOfRest(tabs, w, rest[|rest| - 1].id);
      assert In(tabs, w)[|In(tabs, w)| - 1] == rest[|rest| - 1];
    }
  }

  lemma FirstFromStart(tabs: seq<Tab>, w: WorkspaceId, id: SessionId)
    requires tabs != [] && tabs[0].workspace != w && IsFirstIn(tabs, 1, w, id)
    ensures IsFirstIn(tabs, 0, w, id)
  {
  }

  lemma FirstIsIt(tabs: seq<Tab>, w: WorkspaceId)
    requires tabs != [] && tabs[0].workspace == w
    ensures IsFirstIn(tabs, 0, w, tabs[0].id)
    ensures (forall i :: 0 <= i < |tabs[1..]| ==> tabs[1..][i].workspace != w) ==> IsLastIn(tabs, w, tabs[0].id)
  {
    assert forall i :: 0 < i < |tabs| ==> tabs[i] == tabs[1..][i - 1];
  }

  ghost predicate IsLastIn(tabs: seq<Tab>, w: WorkspaceId, id: SessionId) {
    exists i :: 0 <= i < |tabs| && tabs[i].workspace == w && tabs[i].id == id && forall j :: i < j < |tabs| ==> tabs[j].workspace != w
  }

  lemma LastOfRest(tabs: seq<Tab>, w: WorkspaceId, id: SessionId)
    requires tabs != [] && IsLastIn(tabs[1..], w, id)
    ensures IsLastIn(tabs, w, id)
  {
    var rest := tabs[1..];
    var i :| 0 <= i < |rest| && rest[i].workspace == w && rest[i].id == id && forall j :: i < j < |rest| ==> rest[j].workspace != w;
    assert tabs[i + 1] == rest[i];
    forall j | i + 1 < j < |tabs| ensures tabs[j].workspace != w {
      assert tabs[j] == rest[j - 1];
    }
  }

  /**
   `close`: the tab goes and the others keep their order. A workspace that showed it shows the next of
   its tabs behind it, or else the last before it, or else none; no other workspace is touched.
   */
  lemma CloseGivesWay(s: State, id: SessionId, at: nat)
    requires at < |s.tabs| && Unique(s.tabs) && s.tabs[at].id == id
    ensures var u := Next(s, Close(id));
            var before, behind := s.tabs[..at], s.tabs[at + 1..];
            var w := s.tabs[at].workspace;
            && u.tabs == before + behind && u.early == s.early
            && (forall v :: v != w ==> (v in u.active <==> v in s.active) && (v in s.active ==> u.active[v] == s.active[v]))
            && (if w !in s.active || s.active[w] != id then u.active == s.active
                else if exists i :: 0 <= i < |behind| && behind[i].workspace == w then w in u.active && IsFirstIn(behind, 0, w, u.active[w])
                else if exists i :: 0 <= i < |before| && before[i].workspace == w then w in u.active && IsLastIn(before, w, u.active[w])
                else w !in u.active)
  {
    hide IsFirstIn, IsLastIn, In, Without, IndexOf, HasTab, Next, Unique;
    CloseIs(s, id, at);
    var before, behind, w := s.tabs[..at], s.tabs[at + 1..], s.tabs[at].workspace;
    var a, b := In(before, w), In(behind, w);
    NoneOfIn(before, w);
    NoneOfIn(behind, w);
    if a != [] {
      LastOfIn(before, w);
    }
    if b != [] {
      FirstOfIn(behind, w);
    }
    assert b != [] ==> (a + b)[|a|] == b[0];
    assert b == [] && a != [] ==> (a + b)[|a + b| - 1] == a[|a| - 1];
  }

  lemma CloseIs(s: State, id: SessionId, at: nat)
    requires at < |s.tabs| && Unique(s.tabs) && s.tabs[at].id == id
    ensures var before, behind, w := s.tabs[..at], s.tabs[at + 1..], s.tabs[at].workspace;
            var a, b := In(before, w), In(behind, w);
            var active := if w !in s.active || s.active[w] != id then s.active
                          else if a + b == [] then s.active - {w}
                          else s.active[w := (a + b)[if b != [] then |a| else |a| - 1].id];
            Next(s, Close(id)) == State(before + behind, active, s.early)
  {
    hide Hydrated, Adopted, WorkspacesClosed, Activated, Exited, In, Without;
    var before, behind, w := s.tabs[..at], s.tabs[at + 1..], s.tabs[at].workspace;
    assert s.tabs == before + ([s.tabs[at]] + behind);
    assert !HasTab(before, id) && !HasTab(behind, id);
    IndexBehind(before, [s.tabs[at]] + behind, id);
    ClosedSplits(s.tabs, id, before, behind, w, s.tabs[at]);
  }

  lemma ClosedSplits(tabs: seq<Tab>, id: SessionId, before: seq<Tab>, behind: seq<Tab>, w: WorkspaceId, tab: Tab)
    requires tabs == before + ([tab] + behind) && tab.id == id && tab.workspace == w && !HasTab(before, id) && !HasTab(behind, id)
    ensures Without(tabs, id) == before + behind
    ensures Without(In(tabs, w), id) == In(before, w) + In(behind, w) && IndexOf(In(tabs, w), id) == |In(before, w)|
  {
    hide Without, In, IndexOf, HasTab;
    var a, b := In(before, w), In(behind, w);
    TabFirst(tab, behind, id, w);
    WithoutParts(before, [tab] + behind, id);
    WithoutNone(before, id);
    WithoutNone(behind, id);
    InParts(before, [tab] + behind, w);
    NoneIn(before, w, id);
    NoneIn(behind, w, id);
    IndexBehind(a, [tab] + b, id);
    TabFirst(tab, b, id, w);
    WithoutParts(a, [tab] + b, id);
    WithoutNone(a, id);
    WithoutNone(b, id);
  }

  lemma TabFirst(tab: Tab, rest: seq<Tab>, id: SessionId, w: WorkspaceId)
    requires tab.id == id && tab.workspace == w
    ensures Without([tab] + rest, id) == Without(rest, id) && In([tab] + rest, w) == [tab] + In(rest, w)
  {
    assert ([tab] + rest)[1..] == rest;
  }

  lemma NoneIn(tabs: seq<Tab>, w: WorkspaceId, id: SessionId)
    requires !HasTab(tabs, id)
    ensures !HasTab(In(tabs, w), id)
  {
    var mine := In(tabs, w);
    forall i | 0 <= i < |mine| ensures mine[i].id != id {
      InKeeps(tabs, w, mine[i]);
      assert mine[i] in mine;
    }
  }

  /** `closeWorkspaces`: the workspaces' tabs go with what they showed, and the others keep their order. */
  lemma CloseWorkspacesCloses(s: State, gone: set<WorkspaceId>, a: seq<Tab>, tab: Tab, b: seq<Tab>)
    requires s.tabs == a + ([tab] + b)
    ensures var u := Next(s, CloseWorkspaces(gone));
            && u.tabs == Outside(a, gone) + (if tab.workspace in gone then [] else [tab]) + Outside(b, gone)
            && u.early == s.early
            && forall w :: (w in u.active <==> w in s.active && w !in gone) && (w in u.active ==> u.active[w] == s.active[w])
  {
    hide Hydrated, Adopted, Closed, Activated, Exited, HasTab;
    OutsideParts(a, [tab] + b, gone);
    OutsideFirst(tab, b, gone);
  }

  lemma OutsideFirst(tab: Tab, rest: seq<Tab>, gone: set<WorkspaceId>)
    ensures Outside([tab] + rest, gone) == (if tab.workspace in gone then [] else [tab]) + Outside(rest, gone)
  {
    assert ([tab] + rest)[1..] == rest;
  }

  /** With unique tabs that are what `home` says, membership is all that matters. */
  ghost predicate Members(home: map<SessionId, WorkspaceId>, s: State) {
    && (forall t :: t in s.tabs ==> t.id in home && t.workspace == home[t.id] && t.workspace in s.active)
    && (forall w :: w in s.active ==> exists t :: t in s.tabs && t.id == s.active[w] && t.workspace == w)
    && (forall t :: t in s.tabs && t.id in s.early ==> t.exit.Some?)
  }

  lemma SafeByMembers(home: map<SessionId, WorkspaceId>, s: State)
    requires Unique(s.tabs)
    ensures Members(home, s) <==> Safe(home, s)
  {
    if Members(home, s) {
      forall w | w in s.active ensures HasIn(s.tabs, w, s.active[w]) {
        var t :| t in s.tabs && t.id == s.active[w] && t.workspace == w;
      }
      forall i | 0 <= i < |s.tabs| ensures s.tabs[i] in s.tabs {
      }
    }
    if Safe(home, s) {
      forall w | w in s.active ensures exists t :: t in s.tabs && t.id == s.active[w] && t.workspace == w {
        var i :| 0 <= i < |s.tabs| && s.tabs[i].id == s.active[w] && s.tabs[i].workspace == w;
        assert s.tabs[i] in s.tabs;
      }
    }
  }

  // ---- Step by step ----

  lemma ClosedSafe(home: map<SessionId, WorkspaceId>, s: State, id: SessionId)
    requires Safe(home, s)
    ensures Safe(home, Closed(s, id))
  {
    var u := Closed(s, id);
    var at := IndexOf(s.tabs, id);
    if at < |s.tabs| {
      SafeByMembers(home, s);
      var closing := s.tabs[at];
      var w := closing.workspace;
      var remaining := Without(In(s.tabs, w), id);
      WithoutUnique(s.tabs, id);
      forall t: Tab ensures t in u.tabs <==> t in s.tabs && t.id != id {
        WithoutKeeps(s.tabs, id, t);
      }
      forall t: Tab ensures t in remaining <==> t in u.tabs && t.workspace == w {
        InKeeps(s.tabs, w, t);
        WithoutKeeps(In(s.tabs, w), id, t);
      }
      ClosedMembers(home, s, u, id, w, remaining);
      SafeByMembers(home, u);
    }
  }

  lemma ClosedMembers(home: map<SessionId, WorkspaceId>, s: State, u: State, id: SessionId, w: WorkspaceId, remaining: seq<Tab>)
    requires Members(home, s) && id in home && home[id] == w && w in s.active
    requires forall t :: t in u.tabs <==> t in s.tabs && t.id != id
    requires forall t :: t in remaining <==> t in u.tabs && t.workspace == w
    requires u.early == s.early
    requires if s.active[w] != id then u.active == s.active
             else if remaining == [] then u.active == s.active - {w}
             else exists k :: 0 <= k < |remaining| && u.active == s.active[w := remaining[k].id]
    ensures Members(home, u)
  {
    forall v | v in u.active ensures exists t :: t in u.tabs && t.id == u.active[v] && t.workspace == v {
      if v == w && s.active[w] == id {
        var k :| 0 <= k < |remaining| && u.active == s.active[w := remaining[k].id];
        assert remaining[k] in remaining;
      } else {
        var t :| t in s.tabs && t.id == s.active[v] && t.workspace == v;
        assert t.id != id;
      }
    }
    forall t | t in u.tabs ensures t.workspace in u.active {
      assert t.workspace == w ==> t in remaining;
    }
  }

  lemma WorkspacesClosedSafe(home: map<SessionId, WorkspaceId>, s: State, gone: set<WorkspaceId>)
    requires Safe(home, s)
    ensures Safe(home, WorkspacesClosed(s, gone))
  {
    var u := WorkspacesClosed(s, gone);
    SafeByMembers(home, s);
    OutsideUnique(s.tabs, gone);
    forall t: Tab ensures t in u.tabs <==> t in s.tabs && t.workspace !in gone {
      OutsideKeeps(s.tabs, gone, t);
    }
    forall w | w in u.active ensures exists t :: t in u.tabs && t.id == u.active[w] && t.workspace == w {
      var t :| t in s.tabs && t.id == s.active[w] && t.workspace == w;
    }
    SafeByMembers(home, u);
  }

  lemma AdoptedSafe(home: map<SessionId, WorkspaceId>, s: State, session: Session)
    requires Safe(home, s) && IsHome(home, session)
    ensures Safe(home, Adopted(s, session))
  {
    var tab := TabFor(session, s.early);
    if tab.Some? {
      if HasTab(s.tabs, tab.value.id) {
        ShowsOwn(home, s, tab.value.workspace, tab.value.id);
      } else {
        AppendedSafe(home, s, tab.value);
      }
    }
  }

  /** Making a workspace show a tab of its own. */
  lemma ShowsOwn(home: map<SessionId, WorkspaceId>, s: State, w: WorkspaceId, id: SessionId)
    requires Safe(home, s) && HasTab(s.tabs, id) && id in home && home[id] == w
    ensures Safe(home, s.(active := s.active[w := id]))
  {
    var i :| 0 <= i < |s.tabs| && s.tabs[i].id == id;
    assert HasIn(s.tabs, w, id);
  }

  /** A new tab at the end, shown in its workspace. */
  lemma AppendedSafe(home: map<SessionId, WorkspaceId>, s: State, tab: Tab)
    requires Safe(home, s) && !HasTab(s.tabs, tab.id) && tab.id in home && tab.workspace == home[tab.id]
    requires tab.id in s.early ==> tab.exit.Some?
    ensures Safe(home, s.(tabs := s.tabs + [tab], active := s.active[tab.workspace := tab.id]))
  {
    var tabs := s.tabs + [tab];
    var active := s.active[tab.workspace := tab.id];
    assert tabs[|s.tabs|] == tab;
    forall w | w in active ensures HasIn(tabs, w, active[w]) {
      if w != tab.workspace {
        var i :| 0 <= i < |s.tabs| && s.tabs[i].id == s.active[w] && s.tabs[i].workspace == w;
        assert tabs[i] == s.tabs[i];
      }
    }
  }

  lemma ExitedSafe(home: map<SessionId, WorkspaceId>, s: State, id: SessionId, exit: ExitInfo)
    requires Safe(home, s)
    ensures Safe(home, Exited(s, id, exit))
  {
    var marked := WithExit(s.tabs, id, exit);
    MarkedActive(s.tabs, s.active, id, exit);
    forall i, j | 0 <= i < j < |marked| ensures marked[i].id != marked[j].id {
      assert s.tabs[i].id != s.tabs[j].id;
    }
  }

  lemma MarkedActive(tabs: seq<Tab>, active: map<WorkspaceId, SessionId>, id: SessionId, exit: ExitInfo)
    requires ActiveOk(tabs, active)
    ensures ActiveOk(WithExit(tabs, id, exit), active)
  {
    var marked := WithExit(tabs, id, exit);
    forall w | w in active ensures HasIn(marked, w, active[w]) {
      var i :| 0 <= i < |tabs| && tabs[i].id == active[w] && tabs[i].workspace == w;
      assert marked[i].id == active[w] && marked[i].workspace == w;
    }
    forall i | 0 <= i < |marked| ensures marked[i].workspace in active {
      assert tabs[i].workspace in active;
    }
  }

  lemma ActivatedSafe(home: map<SessionId, WorkspaceId>, s: State, id: SessionId)
    requires Safe(home, s)
    ensures Safe(home, Activated(s, id))
  {
    var u := Activated(s, id);
    var at := IndexOf(s.tabs, id);
    if at < |s.tabs| {
      assert HasIn(u.tabs, s.tabs[at].workspace, id);
    }
  }

  /** Adopting a list is adopting its sessions one by one, but for what a workspace already shows. */
  lemma {:induction false} FilledSafe(home: map<SessionId, WorkspaceId>, s: State, adopted: seq<Tab>)
    requires Safe(home, s) && Unique(s.tabs + adopted)
    requires forall i :: 0 <= i < |adopted| ==>
               && adopted[i].id in home && adopted[i].workspace == home[adopted[i].id]
               && (adopted[i].id in s.early ==> adopted[i].exit.Some?)
    ensures Safe(home, s.(tabs := s.tabs + adopted, active := Filled(s.active, adopted)))
    decreases |adopted|
  {
    if adopted == [] {
      assert s.tabs + adopted == s.tabs;
    } else {
      var first := adopted[0];
      var t := s.(tabs := s.tabs + [first], active := if first.workspace in s.active then s.active else s.active[first.workspace := first.id]);
      assert s.tabs + adopted == t.tabs + adopted[1..];
      forall i, j | 0 <= i < j < |t.tabs| ensures t.tabs[i].id != t.tabs[j].id {
        assert t.tabs[i] == (s.tabs + adopted)[i] && t.tabs[j] == (s.tabs + adopted)[j];
      }
      FirstSafe(home, s, first, t);
      FilledSafe(home, t, adopted[1..]);
    }
  }

  lemma FirstSafe(home: map<SessionId, WorkspaceId>, s: State, first: Tab, t: State)
    requires Safe(home, s) && Unique(s.tabs + [first])
    requires first.id in home && first.workspace == home[first.id] && (first.id in s.early ==> first.exit.Some?)
    requires t == s.(tabs := s.tabs + [first], active := if first.workspace in s.active then s.active else s.active[first.workspace := first.id])
    ensures Safe(home, t)
  {
    forall w | w in t.active ensures HasIn(t.tabs, w, t.active[w]) {
      if w in s.active {
        var i :| 0 <= i < |s.tabs| && s.tabs[i].id == s.active[w] && s.tabs[i].workspace == w;
        assert t.tabs[i] == s.tabs[i];
      } else {
        assert t.tabs[|s.tabs|] == first;
      }
    }
  }

  lemma {:induction false} NewTabsOk(home: map<SessionId, WorkspaceId>, tabs: seq<Tab>, sessions: seq<Session>, early: map<SessionId, ExitInfo>)
    requires forall i :: 0 <= i < |sessions| ==> IsHome(home, sessions[i])
    requires forall i, j :: 0 <= i < j < |sessions| ==> sessions[i].id != sessions[j].id
    ensures var adopted := NewTabs(tabs, sessions, early);
            && Unique(adopted)
            && (forall i :: 0 <= i < |adopted| ==>
                  && !HasTab(tabs, adopted[i].id)
                  && adopted[i].id in home && adopted[i].workspace == home[adopted[i].id]
                  && (adopted[i].id in early ==> adopted[i].exit.Some?)
                  && exists j :: 0 <= j < |sessions| && sessions[j].id == adopted[i].id)
    decreases |sessions|
  {
    if sessions != [] {
      var rest := NewTabs(tabs, sessions[1..], early);
      NewTabsOk(home, tabs, sessions[1..], early);
      assert IsHome(home, sessions[0]);
      forall i | 0 <= i < |rest| ensures exists j :: 0 < j < |sessions| && sessions[j].id == rest[i].id {
        var j :| 0 <= j < |sessions[1..]| && sessions[1..][j].id == rest[i].id;
        assert sessions[j + 1].id == rest[i].id;
      }
    }
  }

  lemma HydratedSafe(home: map<SessionId, WorkspaceId>, s: State, sessions: seq<Session>)
    requires Safe(home, s) && Tells(home, Hydrate(sessions))
    ensures Safe(home, Hydrated(s, sessions))
  {
    var adopted := NewTabs(s.tabs, sessions, s.early);
    NewTabsOk(home, s.tabs, sessions, s.early);
    assert Unique(s.tabs + adopted);
    FilledSafe(home, s, adopted);
  }

  lemma NextSafe(home: map<SessionId, WorkspaceId>, s: State, step: Step)
    requires Safe(home, s) && Tells(home, step)
    ensures Safe(home, Next(s, step))
  {
    match step
    case Hydrate(sessions) => HydratedSafe(home, s, sessions);
    case Adopt(session) => AdoptedSafe(home, s, session);
    case Close(id) => ClosedSafe(home, s, id);
    case CloseWorkspaces(gone) => WorkspacesClosedSafe(home, s, gone);
    case Activate(id) => ActivatedSafe(home, s, id);
    case MarkExited(id, exit) => ExitedSafe(home, s, id, exit);
  }

  /**
   In every reachable state ids are unique, a workspace shows a tab exactly when it has one, that
   tab is its own, and a tab whose exit came early shows an exit.
   */
  lemma {:induction false} EveryStateIsSafe(home: map<SessionId, WorkspaceId>, steps: seq<Step>)
    requires forall i :: 0 <= i < |steps| ==> Tells(home, steps[i])
    ensures Safe(home, After(EMPTY, steps))
    decreases |steps|
  {
    if steps != [] {
      EveryStateIsSafe(home, steps[..|steps| - 1]);
      NextSafe(home, After(EMPTY, steps[..|steps| - 1]), steps[|steps| - 1]);
    }
  }

  /** A tab that is there before and after a step keeps having exited. */
  lemma ExitStays(home: map<SessionId, WorkspaceId>, s: State, step: Step, before: Tab, now: Tab)
    requires Safe(home, s) && Tells(home, step)
    requires before in s.tabs && now in Next(s, step).tabs && before.id == now.id && before.exit.Some?
    ensures now.exit.Some?
  {
    hide Without, Outside, NewTabs, Filled, In, IndexOf, ActiveOk;
    var i :| 0 <= i < |s.tabs| && s.tabs[i] == before;
    match step
    case Hydrate(sessions) => HydratedKeeps(home, s, sessions, before, now);
    case Adopt(session) => assert HasTab(s.tabs, before.id);
    case Close(id) => WithoutKeeps(s.tabs, id, now);
    case CloseWorkspaces(gone) => OutsideKeeps(s.tabs, gone, now);
    case Activate(id) =>
    case MarkExited(id, exit) =>
  }

  lemma HydratedKeeps(home: map<SessionId, WorkspaceId>, s: State, sessions: seq<Session>, before: Tab, now: Tab)
    requires Unique(s.tabs) && Tells(home, Hydrate(sessions))
    requires before in s.tabs && now in Hydrated(s, sessions).tabs && before.id == now.id
    ensures now == before
  {
    NewTabsOk(home, s.tabs, sessions, s.early);
    assert HasTab(s.tabs, now.id);
    assert now in s.tabs;
  }

  /**
   An exit that is told before its session has a tab is shown on the tab it gets, whatever comes
   between: the tab shows an exit, and if nothing else was told of the session, that one. Otherwise
   it shows one that was told: the core's own, or a later word of it.
   */
  lemma EarlyExitIsShown(home: map<SessionId, WorkspaceId>, steps: seq<Step>, id: SessionId, exit: ExitInfo, between: seq<Step>, tab: Tab)
    requires forall i :: 0 <= i < |steps| ==> Tells(home, steps[i])
    requires forall i :: 0 <= i < |between| ==> Tells(home, between[i])
    requires !HasTab(After(EMPTY, steps).tabs, id)
    requires tab in After(EMPTY, steps + [MarkExited(id, exit)] + between).tabs && tab.id == id
    ensures tab.exit.Some?
    ensures WasTold(steps + [MarkExited(id, exit)] + between, id, tab.exit.value)
    ensures NothingElseTold(steps, id, exit) && NothingElseTold(between, id, exit) ==> tab.exit == Some(exit)
  {
    hide After, Tells;
    var marked := steps + [MarkExited(id, exit)];
    MarkedEarly(steps, id, exit);
    EarlyStays(marked, between, id);
    AllTell(home, steps, id, exit, between);
    EveryStateIsSafe(home, marked + between);
    EarlyTabHasExited(home, After(EMPTY, marked + between), tab);
    ShownWasTold(marked + between, id, tab);
    if NothingElseTold(steps, id, exit) && NothingElseTold(between, id, exit) {
      NothingElse(steps, between, id, exit);
      TheExitShown(marked + between, id, {exit}, tab);
    }
  }

  ghost predicate NothingElseTold(steps: seq<Step>, id: SessionId, exit: ExitInfo) {
    forall i :: 0 <= i < |steps| ==> TellsExit(steps[i], id, {exit})
  }

  lemma NothingElse(steps: seq<Step>, between: seq<Step>, id: SessionId, exit: ExitInfo)
    requires NothingElseTold(steps, id, exit) && NothingElseTold(between, id, exit)
    ensures NothingElseTold(steps + [MarkExited(id, exit)] + between, id, exit)
  {
  }

  lemma AllTell(home: map<SessionId, WorkspaceId>, steps: seq<Step>, id: SessionId, exit: ExitInfo, between: seq<Step>)
    requires forall i :: 0 <= i < |steps| ==> Tells(home, steps[i])
    requires forall i :: 0 <= i < |between| ==> Tells(home, between[i])
    ensures var all := steps + [MarkExited(id, exit)] + between;
            forall i :: 0 <= i < |all| ==> Tells(home, all[i])
  {
    assert Tells(home, MarkExited(id, exit));
  }

  /** The exits of `id` that the step tells of are among `exits`. */
  ghost predicate TellsExit(step: Step, id: SessionId, exits: set<ExitInfo>) {
    ToldBy(step, id) <= exits
  }

  /** The exits of `id` that the step tells of. */
  function ToldBy(step: Step, id: SessionId): set<ExitInfo> {
    match step
    case Hydrate(sessions) => set i | 0 <= i < |sessions| && sessions[i].id == id && sessions[i].exit.Some? :: sessions[i].exit.value
    case Adopt(session) => if session.id == id && session.exit.Some? then {session.exit.value} else {}
    case MarkExited(id', exit) => if id' == id then {exit} else {}
    case _ => {}
  }

  ghost predicate WasTold(steps: seq<Step>, id: SessionId, exit: ExitInfo) {
    exists i :: 0 <= i < |steps| && exit in ToldBy(steps[i], id)
  }

  ghost function AllTold(steps: seq<Step>, id: SessionId): (told: set<ExitInfo>)
    ensures forall exit :: exit in told <==> WasTold(steps, id, exit)
    ensures forall i :: 0 <= i < |steps| ==> TellsExit(steps[i], id, told)
    decreases |steps|
  {
    if steps == [] then {}
    else
      var n := |steps| - 1;
      assert forall i :: 0 <= i < n ==> steps[..n][i] == steps[i];
      AllTold(steps[..n], id) + ToldBy(steps[n], id)
  }

  ghost predicate ShowsExit(tab: Tab, id: SessionId, exits: set<ExitInfo>) {
    tab.id == id && tab.exit.Some? ==> tab.exit.value in exits
  }

  ghost predicate OnlyExit(s: State, id: SessionId, exits: set<ExitInfo>) {
    && (forall tab :: tab in s.tabs ==> ShowsExit(tab, id, exits))
    && (id in s.early ==> s.early[id] in exits)
  }

  lemma {:induction false} NewTabsExit(tabs: seq<Tab>, sessions: seq<Session>, early: map<SessionId, ExitInfo>, id: SessionId, exits: set<ExitInfo>)
    requires id in early ==> early[id] in exits
    requires forall i :: 0 <= i < |sessions| && sessions[i].id == id && sessions[i].exit.Some? ==> sessions[i].exit.value in exits
    ensures forall tab :: tab in NewTabs(tabs, sessions, early) ==> ShowsExit(tab, id, exits)
    decreases |sessions|
  {
    if sessions != [] {
      NewTabsExit(tabs, sessions[1..], early, id, exits);
    }
  }

  lemma NextOnlyExit(s: State, step: Step, id: SessionId, exits: set<ExitInfo>)
    requires OnlyExit(s, id, exits) && TellsExit(step, id, exits)
    ensures OnlyExit(Next(s, step), id, exits)
  {
    if step.Hydrate? {
      forall i | 0 <= i < |step.sessions| && step.sessions[i].id == id && step.sessions[i].exit.Some?
        ensures step.sessions[i].exit.value in exits
      {
        assert step.sessions[i].exit.value in ToldBy(step, id);
      }
      NewTabsExit(s.tabs, step.sessions, s.early, id, exits);
    }
    if step.MarkExited? && step.id == id {
      assert step.exit in ToldBy(step, id);
    }
    forall tab | tab in Next(s, step).tabs ensures ShowsExit(tab, id, exits) {
      match step
      case Close(closed) => WithoutKeeps(s.tabs, closed, tab);
      case CloseWorkspaces(gone) => OutsideKeeps(s.tabs, gone, tab);
      case MarkExited(marked, _) =>
        var i :| 0 <= i < |s.tabs| && Next(s, step).tabs[i] == tab;
        assert s.tabs[i] in s.tabs;
      case Adopt(session) =>
        assert session.id == id && session.exit.Some? ==> session.exit.value in ToldBy(step, id);
      case _ =>
    }
  }

  /** A tab shows no exit but one its session was told to have, early, late or with the session. */
  lemma {:induction false} TheExitShown(steps: seq<Step>, id: SessionId, exits: set<ExitInfo>, tab: Tab)
    requires forall i :: 0 <= i < |steps| ==> TellsExit(steps[i], id, exits)
    ensures OnlyExit(After(EMPTY, steps), id, exits)
    ensures tab in After(EMPTY, steps).tabs && tab.id == id && tab.exit.Some? ==> tab.exit.value in exits
    decreases |steps|
  {
    hide TellsExit, Next;
    if steps != [] {
      var n := |steps| - 1;
      TheExitShown(steps[..n], id, exits, tab);
      NextOnlyExit(After(EMPTY, steps[..n]), steps[n], id, exits);
    }
    assert tab in After(EMPTY, steps).tabs ==> ShowsExit(tab, id, exits);
  }

  lemma ShownWasTold(steps: seq<Step>, id: SessionId, tab: Tab)
    requires tab in After(EMPTY, steps).tabs && tab.id == id && tab.exit.Some?
    ensures WasTold(steps, id, tab.exit.value)
  {
    hide After;
    TheExitShown(steps, id, AllTold(steps, id), tab);
  }

  lemma EarlyTabHasExited(home: map<SessionId, WorkspaceId>, s: State, tab: Tab)
    requires Safe(home, s) && tab in s.tabs && tab.id in s.early
    ensures tab.exit.Some?
  {
    var i :| 0 <= i < |s.tabs| && s.tabs[i] == tab;
  }

  lemma MarkedEarly(steps: seq<Step>, id: SessionId, exit: ExitInfo)
    requires !HasTab(After(EMPTY, steps).tabs, id)
    ensures id in After(EMPTY, steps + [MarkExited(id, exit)]).early
  {
    assert (steps + [MarkExited(id, exit)])[..|steps|] == steps;
  }

  /** The exit comes to a session that has no tab. */
  ghost predicate Overtakes(s: State, step: Step, id: SessionId) {
    step.MarkExited? && step.id == id && !HasTab(s.tabs, id)
  }

  ghost predicate OvertakesAt(steps: seq<Step>, i: nat, id: SessionId) {
    i < |steps| && Overtakes(After(EMPTY, steps[..i]), steps[i], id)
  }

  lemma EarlyNow(s: State, step: Step, id: SessionId)
    ensures id in Next(s, step).early <==> id in s.early || Overtakes(s, step, id)
    ensures Overtakes(s, step, id) ==> Next(s, step).early[id] == step.exit
    ensures !Overtakes(s, step, id) && id in s.early ==> Next(s, step).early[id] == s.early[id]
  {
  }

  /** An exit is kept for a session's next tab exactly when one came while it had none; the last such is kept. */
  lemma {:induction false} EarlyIff(steps: seq<Step>, id: SessionId)
    ensures id in After(EMPTY, steps).early <==> exists i: nat :: OvertakesAt(steps, i, id)
    ensures forall i: nat :: OvertakesAt(steps, i, id) && (forall j: nat :: j > i ==> !OvertakesAt(steps, j, id)) ==>
              id in After(EMPTY, steps).early && After(EMPTY, steps).early[id] == steps[i].exit
    decreases |steps|
  {
    hide Next, Overtakes;
    if steps != [] {
      var n := |steps| - 1;
      assert forall i :: 0 <= i <= n ==> steps[..n][..i] == steps[..i];
      var s := After(EMPTY, steps[..n]);
      assert After(EMPTY, steps) == Next(s, steps[n]);
      hide After;
      EarlyIff(steps[..n], id);
      EarlyNow(s, steps[n], id);
      assert forall i: nat :: i < n ==> (OvertakesAt(steps, i, id) <==> OvertakesAt(steps[..n], i, id));
      assert OvertakesAt(steps, n, id) <==> Overtakes(s, steps[n], id);
    }
  }

  lemma {:induction false} EarlyStays(steps: seq<Step>, more: seq<Step>, id: SessionId)
    requires id in After(EMPTY, steps).early
    ensures id in After(EMPTY, steps + more).early
    decreases |more|
  {
    if more == [] {
      assert steps + more == steps;
    } else {
      var all, fewer, last := steps + more, more[..|more| - 1], more[|more| - 1];
      assert all[..|all| - 1] == steps + fewer && all[|all| - 1] == last;
      EarlyStays(steps, fewer, id);
      NextKeepsEarly(After(EMPTY, steps + fewer), last, id);
    }
  }

  lemma NextKeepsEarly(s: State, step: Step, id: SessionId)
    requires id in s.early
    ensures id in Next(s, step).early
  {
  }
}
