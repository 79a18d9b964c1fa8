/**
 The report on the terminals: their loads grouped by workspace and project, and Yardsort's total.
 */
module UsageReport {
  import opened Options
  import opened Usage

  type ProjectId = nat
  type WorkspaceId = nat

  datatype Place = Place(project: ProjectId, workspace: WorkspaceId)

  /** A running terminal, and the workspace its label names if the store knows it. */
  datatype Terminal = Terminal(id: nat, pid: Pid, place: Option<Place>)

  datatype TerminalLoad = TerminalLoad(id: nat, load: Load)

  datatype WorkspaceLoad = WorkspaceLoad(id: WorkspaceId, load: Load, terminals: seq<TerminalLoad>)

  datatype ProjectLoad = ProjectLoad(load: Load, workspaces: seq<WorkspaceLoad>)

  datatype Report = Report(yardsort: Load, projects: map<ProjectId, ProjectLoad>, loose: seq<TerminalLoad>)

  function LoadFor(split: Attribution, t: Terminal): Load {
    if t.pid in split.sessions then split.sessions[t.pid] else ZERO
  }

  function RowFor(split: Attribution, t: Terminal): TerminalLoad {
    TerminalLoad(t.id, LoadFor(split, t))
  }

  // ---- The terminals of one place ----

  datatype Group = All | Loose | OfProject(project: ProjectId) | OfWorkspace(place: Place)

  predicate IsIn(group: Group, t: Terminal) {
    match group
    case All => true
    case Loose => t.place.None?
    case OfProject(p) => t.place.Some? && t.place.value.project == p
    case OfWorkspace(place) => t.place == Some(place)
  }

  /** The load of the first `n` terminals that are in the group. */
  ghost function Sum(split: Attribution, running: seq<Terminal>, n: nat, group: Group): Load
    requires n <= |running|
  {
    if n == 0 then ZERO
    else if IsIn(group, running[n - 1]) then Sum(split, running, n - 1, group).Add(LoadFor(split, running[n - 1]))
    else Sum(split, running, n - 1, group)
  }

  ghost function Rows(split: Attribution, running: seq<Terminal>, n: nat, group: Group): seq<TerminalLoad>
    requires n <= |running|
  {
    if n == 0 then []
    else if IsIn(group, running[n - 1]) then Rows(split, running, n - 1, group) + [RowFor(split, running[n - 1])]
    else Rows(split, running, n - 1, group)
  }

  ghost predicate HasTerminal(running: seq<Terminal>, n: nat, group: Group)
    requires n <= |running|
  {
    exists i :: 0 <= i < n && IsIn(group, running[i])
  }

  /** A workspace's row: its own terminals and their load. */
  ghost predicate IsWorkspace(split: Attribution, running: seq<Terminal>, n: nat, p: ProjectId, row: WorkspaceLoad)
    requires n <= |running|
  {
    var group := OfWorkspace(Place(p, row.id));
    row.load == Sum(split, running, n, group) && row.terminals == Rows(split, running, n, group)
  }

  ghost predicate Lists(workspaces: seq<WorkspaceLoad>, w: WorkspaceId) {
    exists i :: 0 <= i < |workspaces| && workspaces[i].id == w
  }

  /** A project's row: its load, and each of its workspaces that has a terminal, once. */
  ghost predicate IsProject(split: Attribution, running: seq<Terminal>, n: nat, p: ProjectId, row: ProjectLoad)
    requires n <= |running|
  {
    && row.load == Sum(split, running, n, OfProject(p))
    && (forall i, j :: 0 <= i < j < |row.workspaces| ==> row.workspaces[i].id != row.workspaces[j].id)
    && (forall w :: HasTerminal(running, n, OfWorkspace(Place(p, w))) <==> Lists(row.workspaces, w))
    && (forall i :: 0 <= i < |row.workspaces| ==> IsWorkspace(split, running, n, p, row.workspaces[i]))
  }

  ghost predicate IsGrouped(split: Attribution, running: seq<Terminal>, n: nat, projects: map<ProjectId, ProjectLoad>, loose: seq<TerminalLoad>)
    requires n <= |running|
  {
    && loose == Rows(split, running, n, Loose)
    && (forall p :: HasTerminal(running, n, OfProject(p)) <==> p in projects)
    && (forall p :: p in projects ==> IsProject(split, running, n, p, projects[p]))
  }

  lemma OneMore(running: seq<Terminal>, n: nat, group: Group)
    requires n < |running|
    ensures HasTerminal(running, n + 1, group) <==> HasTerminal(running, n, group) || IsIn(group, running[n])
  {
    if HasTerminal(running, n, group) {
      var i :| 0 <= i < n && IsIn(group, running[i]);
    }
  }

  /** With no terminal there is nothing to sum. */
  lemma {:induction false} NoTerminal(split: Attribution, running: seq<Terminal>, n: nat, group: Group)
    requires n <= |running| && !HasTerminal(running, n, group)
    ensures Sum(split, running, n, group) == ZERO && Rows(split, running, n, group) == []
  {
    if n > 0 {
      OneMore(running, n - 1, group);
      NoTerminal(split, running, n - 1, group);
    }
  }

  /** The workspace's place in its project's list, or the length of the list. */
  method FindWorkspace(workspaces: seq<WorkspaceLoad>, w: WorkspaceId) returns (at: nat)
    ensures IsAt(workspaces, w, at)
  {
    for i := 0 to |workspaces|
      invariant forall j :: 0 <= j < i ==> workspaces[j].id != w
    {
      if workspaces[i].id == w {
        return i;
      }
    }
    return |workspaces|;
  }

  /** The project's row with one more terminal. */
  function WithTerminal(row: ProjectLoad, at: nat, w: WorkspaceId, terminal: TerminalLoad): ProjectLoad
    requires at <= |row.workspaces|
  {
    var load := row.load.Add(terminal.load);
    if at < |row.workspaces| then
      var found := row.workspaces[at];
      ProjectLoad(load, row.workspaces[at := WorkspaceLoad(found.id, found.load.Add(terminal.load), found.terminals + [terminal])])
    else
      ProjectLoad(load, row.workspaces + [WorkspaceLoad(w, terminal.load, [terminal])])
  }

  lemma OtherProjectStays(split: Attribution, running: seq<Terminal>, n: nat, p: ProjectId, row: ProjectLoad)
    requires n < |running| && IsProject(split, running, n, p, row) && !IsIn(OfProject(p), running[n])
    ensures IsProject(split, running, n + 1, p, row)
  {
    forall w: WorkspaceId
      ensures HasTerminal(running, n + 1, OfWorkspace(Place(p, w))) <==> HasTerminal(running, n, OfWorkspace(Place(p, w)))
    {
      OneMore(running, n, OfWorkspace(Place(p, w)));
    }
  }

  /** `at` is the workspace's place in the list, or the end of a list that does not have it. */
  ghost predicate IsAt(workspaces: seq<WorkspaceLoad>, w: WorkspaceId, at: nat) {
    && at <= |workspaces|
    && (forall i :: 0 <= i < at ==> workspaces[i].id != w)
    && (at < |workspaces| ==> workspaces[at].id == w)
  }

  lemma ListsMore(row: ProjectLoad, at: nat, w: WorkspaceId, terminal: TerminalLoad, v: WorkspaceId)
    requires IsAt(row.workspaces, w, at)
    ensures Lists(WithTerminal(row, at, w, terminal).workspaces, v) <==> Lists(row.workspaces, v) || v == w
  {
    var grown := WithTerminal(row, at, w, terminal).workspaces;
    if Lists(row.workspaces, v) {
      var i :| 0 <= i < |row.workspaces| && row.workspaces[i].id == v;
      assert grown[i].id == v;
    }
    assert grown[at].id == w;
    if Lists(grown, v) && v != w {
      var i :| 0 <= i < |grown| && grown[i].id == v;
      assert row.workspaces[i].id == v;
    }
  }

  /** A workspace with one terminal is an empty one with that terminal added. */
  lemma StartedRow(w: WorkspaceId, row: TerminalLoad)
    ensures WorkspaceLoad(w, ZERO.Add(row.load), [] + [row]) == WorkspaceLoad(w, row.load, [row])
  {
  }

  lemma OtherWorkspaceStays(split: Attribution, running: seq<Terminal>, n: nat, place: Place, row: WorkspaceLoad)
    requires n < |running| && running[n].place == Some(place) && row.id != place.workspace
    requires IsWorkspace(split, running, n, place.project, row)
    ensures IsWorkspace(split, running, n + 1, place.project, row)
  {
  }

  lemma OwnWorkspaceGrows(split: Attribution, running: seq<Terminal>, n: nat, place: Place, row: WorkspaceLoad)
    requires n < |running| && running[n].place == Some(place) && row.id == place.workspace
    requires IsWorkspace(split, running, n, place.project, row)
    ensures IsWorkspace(split, running, n + 1, place.project,
                        WorkspaceLoad(row.id, row.load.Add(LoadFor(split, running[n])), row.terminals + [RowFor(split, running[n])]))
  {
  }

  lemma NewWorkspaceStarts(split: Attribution, running: seq<Terminal>, n: nat, place: Place)
    requires n < |running| && running[n].place == Some(place) && !HasTerminal(running, n, OfWorkspace(place))
    ensures IsWorkspace(split, running, n + 1, place.project,
                        WorkspaceLoad(place.workspace, ZERO.Add(LoadFor(split, running[n])), [] + [RowFor(split, running[n])]))
  {
    EmptyWorkspace(split, running, n, place);
    OwnWorkspaceGrows(split, running, n, place, WorkspaceLoad(place.workspace, ZERO, []));
  }

  lemma EmptyWorkspace(split: Attribution, running: seq<Terminal>, n: nat, place: Place)
    requires n <= |running| && !HasTerminal(running, n, OfWorkspace(place))
    ensures IsWorkspace(split, running, n, place.project, WorkspaceLoad(place.workspace, ZERO, []))
  {
    NoTerminal(split, running, n, OfWorkspace(place));
  }

  lemma WorkspaceGrows(split: Attribution, running: seq<Terminal>, n: nat, place: Place, row: ProjectLoad, at: nat, i: nat)
    requires n < |running| && running[n].place == Some(place)
    requires IsProject(split, running, n, place.project, row) && IsAt(row.workspaces, place.workspace, at)
    requires i < |WithTerminal(row, at, place.workspace, RowFor(split, running[n])).workspaces|
    ensures IsWorkspace(split, running, n + 1, place.project,
                        WithTerminal(row, at, place.workspace, RowFor(split, running[n])).workspaces[i])
  {
    if i == |row.workspaces| {
      assert !Lists(row.workspaces, place.workspace);
      NewWorkspaceStarts(split, running, n, place);
      StartedRow(place.workspace, RowFor(split, running[n]));
    } else if i == at {
      OwnWorkspaceGrows(split, running, n, place, row.workspaces[at]);
    } else {
      OtherWorkspaceStays(split, running, n, place, row.workspaces[i]);
    }
  }

  lemma ProjectGrows(split: Attribution, running: seq<Terminal>, n: nat, place: Place, row: ProjectLoad, at: nat)
    requires n < |running| && running[n].place == Some(place)
    requires IsProject(split, running, n, place.project, row) && IsAt(row.workspaces, place.workspace, at)
    ensures IsProject(split, running, n + 1, place.project, WithTerminal(row, at, place.workspace, RowFor(split, running[n])))
  {
    var grown := WithTerminal(row, at, place.workspace, RowFor(split, running[n]));
    forall w: WorkspaceId
      ensures HasTerminal(running, n + 1, OfWorkspace(Place(place.project, w))) <==> Lists(grown.workspaces, w)
    {
      OneMore(running, n, OfWorkspace(Place(place.project, w)));
      ListsMore(row, at, place.workspace, RowFor(split, running[n]), w);
    }
    forall i | 0 <= i < |grown.workspaces| ensures IsWorkspace(split, running, n + 1, place.project, grown.workspaces[i]) {
      WorkspaceGrows(split, running, n, place, row, at, i);
    }
    assert at == |row.workspaces| ==> !Lists(row.workspaces, place.workspace);
  }

  /** The grouping loop of `sample`. */
  method GroupTerminals(split: Attribution, running: seq<Terminal>) returns (report: Report)
    ensures report.yardsort == split.main.Add(split.webview).Add(split.host).Add(Sum(split, running, |running|, All))
    ensures IsGrouped(split, running, |running|, report.projects, report.loose)
  {
    var yardsort := ZERO.Add(split.main).Add(split.webview).Add(split.host);
    ghost var own := yardsort;
    AddsZero(own);
    var projects: map<ProjectId, ProjectLoad> := map[];
    var loose: seq<TerminalLoad> := [];
    for i := 0 to |running|
      invariant yardsort == own.Add(Sum(split, running, i, All))
      invariant IsGrouped(split, running, i, projects, loose)
    {
      var row := RowFor(split, running[i]);
      Associates(own, Sum(split, running, i, All), row.load);
      yardsort := yardsort.Add(row.load);
      match running[i].place {
        case None =>
          GroupedLoose(split, running, i, projects, loose);
          loose := loose + [row];
        case Some(place) =>
          var project := if place.project in projects then projects[place.project] else ProjectLoad(ZERO, []);
          var at := FindWorkspace(project.workspaces, place.workspace);
          GroupedPlaced(split, running, i, place, projects, loose, project, at);
          projects := projects[place.project := WithTerminal(project, at, place.workspace, row)];
      }
    }
    report := Report(yardsort, projects, loose);
  }

  lemma GroupedLoose(split: Attribution, running: seq<Terminal>, n: nat, projects: map<ProjectId, ProjectLoad>, loose: seq<TerminalLoad>)
    requires n < |running| && IsGrouped(split, running, n, projects, loose) && running[n].place.None?
    ensures IsGrouped(split, running, n + 1, projects, loose + [RowFor(split, running[n])])
  {
    forall p: ProjectId ensures HasTerminal(running, n + 1, OfProject(p)) <==> p in projects {
      OneMore(running, n, OfProject(p));
    }
    forall p | p in projects ensures IsProject(split, running, n + 1, p, projects[p]) {
      OtherProjectStays(split, running, n, p, projects[p]);
    }
  }

  lemma NewProject(split: Attribution, running: seq<Terminal>, n: nat, p: ProjectId)
    requires n <= |running| && !HasTerminal(running, n, OfProject(p))
    ensures IsProject(split, running, n, p, ProjectLoad(ZERO, []))
  {
    NoTerminal(split, running, n, OfProject(p));
    forall w: WorkspaceId ensures !HasTerminal(running, n, OfWorkspace(Place(p, w))) {
      assert forall t :: IsIn(OfWorkspace(Place(p, w)), t) ==> IsIn(OfProject(p), t);
    }
  }

  lemma GroupedPlaced(split: Attribution, running: seq<Terminal>, n: nat, place: Place, projects: map<ProjectId, ProjectLoad>,
                      loose: seq<TerminalLoad>, row: ProjectLoad, at: nat)
    requires n < |running| && IsGrouped(split, running, n, projects, loose) && running[n].place == Some(place)
    requires row == (if place.project in projects then projects[place.project] else ProjectLoad(ZERO, []))
    requires IsAt(row.workspaces, place.workspace, at)
    ensures IsGrouped(split, running, n + 1,
                      projects[place.project := WithTerminal(row, at, place.workspace, RowFor(split, running[n]))], loose)
  {
    if place.project !in projects {
      NewProject(split, running, n, place.project);
    }
    ProjectGrows(split, running, n, place, row, at);
    Regrouped(split, running, n, place, projects, loose, WithTerminal(row, at, place.workspace, RowFor(split, running[n])));
  }

  lemma Regrouped(split: Attribution, running: seq<Terminal>, n: nat, place: Place, projects: map<ProjectId, ProjectLoad>,
                  loose: seq<TerminalLoad>, grown: ProjectLoad)
    requires n < |running| && IsGrouped(split, running, n, projects, loose) && running[n].place == Some(place)
    requires IsProject(split, running, n + 1, place.project, grown)
    ensures IsGrouped(split, running, n + 1, projects[place.project := grown], loose)
  {
    OthersStay(split, running, n, place, projects);
  }

  lemma OthersStay(split: Attribution, running: seq<Terminal>, n: nat, place: Place, projects: map<ProjectId, ProjectLoad>)
    requires n < |running| && running[n].place == Some(place)
    requires forall p :: HasTerminal(running, n, OfProject(p)) <==> p in projects
    requires forall p :: p in projects ==> IsProject(split, running, n, p, projects[p])
    ensures forall p :: HasTerminal(running, n + 1, OfProject(p)) <==> p in projects || p == place.project
    ensures forall p :: p in projects && p != place.project ==> IsProject(split, running, n + 1, p, projects[p])
  {
    forall q: ProjectId ensures HasTerminal(running, n + 1, OfProject(q)) <==> q in projects || q == place.project {
      OneMore(running, n, OfProject(q));
    }
    forall q | q in projects && q != place.project ensures IsProject(split, running, n + 1, q, projects[q]) {
      OtherProjectStays(split, running, n, q, projects[q]);
    }
  }

  // ---- The grouping preserves the total ----

  ghost function OverProjects(projects: map<ProjectId, ProjectLoad>, ids: set<ProjectId>): Load
    requires ids <= projects.Keys
  {
    if ids == {} then ZERO
    else
      var p :| p in ids;
      projects[p].load.Add(OverProjects(projects, ids - {p}))
  }

  /** Those of the first `n` terminals that are placed in one of `ids`. */
  ghost function SumIn(split: Attribution, running: seq<Terminal>, n: nat, ids: set<ProjectId>): Load
    requires n <= |running|
  {
    if n == 0 then ZERO
    else if running[n - 1].place.Some? && running[n - 1].place.value.project in ids then
      SumIn(split, running, n - 1, ids).Add(LoadFor(split, running[n - 1]))
    else
      SumIn(split, running, n - 1, ids)
  }

  lemma {:induction false} SumInSplits(split: Attribution, running: seq<Terminal>, n: nat, ids: set<ProjectId>, p: ProjectId)
    requires n <= |running| && p in ids
    ensures SumIn(split, running, n, ids) == Sum(split, running, n, OfProject(p)).Add(SumIn(split, running, n, ids - {p}))
  {
    hide Sum, SumIn, Load.Add;
    if n == 0 {
      NoSum(split, running, n, OfProject(p));
      NoSumIn(split, running, n, ids);
      NoSumIn(split, running, n, ids - {p});
      AddsZero(ZERO);
    } else {
      SumInSplits(split, running, n - 1, ids, p);
      SumInStep(split, running, n - 1, ids, p);
    }
  }

  lemma NoSum(split: Attribution, running: seq<Terminal>, n: nat, group: Group)
    requires n == 0
    ensures Sum(split, running, n, group) == ZERO
  {
  }

  lemma NoSumIn(split: Attribution, running: seq<Terminal>, n: nat, ids: set<ProjectId>)
    requires n == 0
    ensures SumIn(split, running, n, ids) == ZERO
  {
  }

  lemma SumInStep(split: Attribution, running: seq<Terminal>, n: nat, ids: set<ProjectId>, p: ProjectId)
    requires n < |running| && p in ids
    requires SumIn(split, running, n, ids) == Sum(split, running, n, OfProject(p)).Add(SumIn(split, running, n, ids - {p}))
    ensures SumIn(split, running, n + 1, ids) == Sum(split, running, n + 1, OfProject(p)).Add(SumIn(split, running, n + 1, ids - {p}))
  {
    if IsIn(OfProject(p), running[n]) {
      OwnSumStep(split, running, n, ids, p);
    } else {
      Associates(Sum(split, running, n, OfProject(p)), SumIn(split, running, n, ids - {p}), LoadFor(split, running[n]));
    }
  }

  lemma OwnSumStep(split: Attribution, running: seq<Terminal>, n: nat, ids: set<ProjectId>, p: ProjectId)
    requires n < |running| && p in ids && IsIn(OfProject(p), running[n])
    requires SumIn(split, running, n, ids) == Sum(split, running, n, OfProject(p)).Add(SumIn(split, running, n, ids - {p}))
    ensures SumIn(split, running, n + 1, ids) == Sum(split, running, n + 1, OfProject(p)).Add(SumIn(split, running, n + 1, ids - {p}))
  {
    Exchanges(Sum(split, running, n, OfProject(p)), SumIn(split, running, n, ids - {p}), LoadFor(split, running[n]));
  }

  lemma {:induction false} SumInNone(split: Attribution, running: seq<Terminal>, n: nat)
    requires n <= |running|
    ensures SumIn(split, running, n, {}) == ZERO
  {
    if n > 0 {
      SumInNone(split, running, n - 1);
    }
  }

  lemma {:induction false} ProjectsAddUp(split: Attribution, running: seq<Terminal>, projects: map<ProjectId, ProjectLoad>, ids: set<ProjectId>)
    requires ids <= projects.Keys
    requires forall p :: p in projects ==> projects[p].load == Sum(split, running, |running|, OfProject(p))
    ensures OverProjects(projects, ids) == SumIn(split, running, |running|, ids)
    decreases |ids|
  {
    if ids == {} {
      SumInNone(split, running, |running|);
    } else {
      var p :| p in ids && OverProjects(projects, ids) == projects[p].load.Add(OverProjects(projects, ids - {p}));
      ProjectsAddUp(split, running, projects, ids - {p});
      SumInSplits(split, running, |running|, ids, p);
    }
  }

  lemma {:induction false} PlacedOrLoose(split: Attribution, running: seq<Terminal>, n: nat, ids: set<ProjectId>)
    requires n <= |running|
    requires forall i :: 0 <= i < n && running[i].place.Some? ==> running[i].place.value.project in ids
    ensures Sum(split, running, n, All) == SumIn(split, running, n, ids).Add(Sum(split, running, n, Loose))
  {
    hide Sum, SumIn, Load.Add;
    if n == 0 {
      NoSum(split, running, n, All);
      NoSum(split, running, n, Loose);
      NoSumIn(split, running, n, ids);
      AddsZero(ZERO);
    } else {
      PlacedOrLoose(split, running, n - 1, ids);
      if running[n - 1].place.Some? {
        PlacedStep(split, running, n - 1, ids);
      } else {
        LooseStep(split, running, n - 1, ids);
      }
    }
  }

  lemma PlacedStep(split: Attribution, running: seq<Terminal>, n: nat, ids: set<ProjectId>)
    requires n < |running| && running[n].place.Some? && running[n].place.value.project in ids
    requires Sum(split, running, n, All) == SumIn(split, running, n, ids).Add(Sum(split, running, n, Loose))
    ensures Sum(split, running, n + 1, All) == SumIn(split, running, n + 1, ids).Add(Sum(split, running, n + 1, Loose))
  {
    Exchanges(SumIn(split, running, n, ids), Sum(split, running, n, Loose), LoadFor(split, running[n]));
  }

  lemma LooseStep(split: Attribution, running: seq<Terminal>, n: nat, ids: set<ProjectId>)
    requires n < |running| && running[n].place.None?
    requires Sum(split, running, n, All) == SumIn(split, running, n, ids).Add(Sum(split, running, n, Loose))
    ensures Sum(split, running, n + 1, All) == SumIn(split, running, n + 1, ids).Add(Sum(split, running, n + 1, Loose))
  {
    Associates(SumIn(split, running, n, ids), Sum(split, running, n, Loose), LoadFor(split, running[n]));
  }

  /** The terminals' total is that of the projects' rows and the loose terminals together. */
  lemma GroupingKeepsTheTotal(split: Attribution, running: seq<Terminal>, projects: map<ProjectId, ProjectLoad>, loose: seq<TerminalLoad>)
    requires IsGrouped(split, running, |running|, projects, loose)
    ensures Sum(split, running, |running|, All) ==
            OverProjects(projects, projects.Keys).Add(Sum(split, running, |running|, Loose))
  {
    ProjectsAddUp(split, running, projects, projects.Keys);
    forall i | 0 <= i < |running| && running[i].place.Some? ensures running[i].place.value.project in projects.Keys {
      assert IsIn(OfProject(running[i].place.value.project), running[i]);
    }
    PlacedOrLoose(split, running, |running|, projects.Keys);
  }

  /** The terminal's id, and what the attribution gives the process it runs. */
  ghost function ListingOf(split: Attribution, t: Terminal): TerminalLoad {
    TerminalLoad(t.id, if t.pid in split.sessions then split.sessions[t.pid] else Load(0.0, 0.0, 0))
  }

  lemma {:induction false} ListedIn(split: Attribution, running: seq<Terminal>, n: nat, group: Group)
    requires n <= |running|
    ensures forall i :: 0 <= i < n && IsIn(group, running[i]) ==> ListingOf(split, running[i]) in Rows(split, running, n, group)
    ensures forall row :: row in Rows(split, running, n, group) ==>
              exists i :: 0 <= i < n && IsIn(group, running[i]) && row == ListingOf(split, running[i])
  {
    if n > 0 {
      ListedIn(split, running, n - 1, group);
    }
  }

  /** Every terminal is listed, under its own id with its own load: with its workspace, or among the loose ones. */
  lemma TerminalIsListed(split: Attribution, running: seq<Terminal>, projects: map<ProjectId, ProjectLoad>, loose: seq<TerminalLoad>, i: nat)
    requires IsGrouped(split, running, |running|, projects, loose) && i < |running|
    ensures match running[i].place
            case None => ListingOf(split, running[i]) in loose
            case Some(place) =>
              && place.project in projects
              && exists k :: 0 <= k < |projects[place.project].workspaces| && projects[place.project].workspaces[k].id == place.workspace
                             && ListingOf(split, running[i]) in projects[place.project].workspaces[k].terminals
  {
    hide Sum, Rows;
    match running[i].place
    case None => ListedIn(split, running, |running|, Loose);
    case Some(place) =>
      assert IsIn(OfProject(place.project), running[i]) && IsIn(OfWorkspace(place), running[i]);
      assert HasTerminal(running, |running|, OfProject(place.project)) && HasTerminal(running, |running|, OfWorkspace(place));
      var row := projects[place.project];
      var k :| 0 <= k < |row.workspaces| && row.workspaces[k].id == place.workspace;
      assert IsWorkspace(split, running, |running|, place.project, row.workspaces[k]);
      ListedIn(split, running, |running|, OfWorkspace(place));
  }

  /** With one terminal to a session, the terminals' total is the sessions' part of the attribution. */
  lemma {:induction false} TerminalsAreSessions(split: Attribution, running: seq<Terminal>, sessions: seq<Pid>, n: nat)
    requires |running| == |sessions| && n <= |sessions|
    requires forall i :: 0 <= i < |running| ==> running[i].pid == sessions[i]
    requires forall pid :: pid in sessions ==> pid in split.sessions
    ensures Sum(split, running, n, All) == SumTo(split.sessions, sessions, n)
  {
    if n > 0 {
      TerminalsAreSessions(split, running, sessions, n - 1);
    }
  }

  /** So Yardsort's total in the report is the load of the union of the trees, every process once. */
  lemma ReportIsTheUnion(procs: seq<Proc>, app: Pid, host: Option<Pid>, sessions: seq<Pid>, split: Attribution, running: seq<Terminal>, yardsort: Load)
    requires IsAttribution(procs, app, host, sessions, split) && Distinct(sessions)
    requires |running| == |sessions| && forall i :: 0 <= i < |running| ==> running[i].pid == sessions[i]
    requires yardsort == split.main.Add(split.webview).Add(split.host).Add(Sum(split, running, |running|, All))
    requires !(app in ByPid(procs) && app in Taken(procs, app, host, sessions))
    ensures yardsort == Total(ByPid(procs), Covered(procs, app, host, sessions))
    ensures yardsort.processes == |Covered(procs, app, host, sessions) * ByPid(procs).Keys|
  {
    TerminalsAreSessions(split, running, sessions, |sessions|);
    CountedOnceIff(procs, app, host, sessions, split);
    TotalCounts(ByPid(procs), Covered(procs, app, host, sessions));
    SameParts(SumTo(split.sessions, sessions, |sessions|), split.host, split.webview, split.main);
  }

  lemma SameParts(sessions: Load, host: Load, webview: Load, main: Load)
    ensures main.Add(webview).Add(host).Add(sessions) == sessions.Add(host).Add(webview).Add(main)
  {
  }
}
