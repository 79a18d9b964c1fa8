/**
 Whose each process is: the machine's processes split between the app, its terminal host and each
 terminal, and the terminals' loads grouped by project and workspace.
 */
module Usage {
  import opened Options

  type Pid = nat

  datatype Load = Load(cpu: real, memory: real, processes: nat) {
    function Add(other: Load): Load {
      Load(cpu + other.cpu, memory + other.memory, processes + other.processes)
    }
  }

  const ZERO := Load(0.0, 0.0, 0)

  datatype Proc = Proc(pid: Pid, parent: Option<Pid>, cpu: real, memory: real)

  datatype Attribution = Attribution(main: Load, webview: Load, host: Load, sessions: map<Pid, Load>)

  // ---- The parent graph ----

  /** `child` is listed with `parent` for its parent, and is not its own. */
  ghost predicate IsChild(procs: seq<Proc>, parent: Pid, child: Pid) {
    exists i :: 0 <= i < |procs| && procs[i].pid == child && procs[i].parent == Some(parent) && parent != child
  }

  ghost predicate IsPath(procs: seq<Proc>, path: seq<Pid>) {
    && |path| > 0
    && forall i :: 0 <= i < |path| - 1 ==> IsChild(procs, path[i], path[i + 1])
  }

  ghost predicate Reaches(procs: seq<Proc>, root: Pid, pid: Pid) {
    exists path :: IsPath(procs, path) && path[0] == root && path[|path| - 1] == pid
  }

  /** The pids below any of `roots`, the roots included: a root and pids that are listed. */
  ghost function Tree(procs: seq<Proc>, root: Pid): set<Pid> {
    set pid | pid in Pids(procs) + {root} && Reaches(procs, root, pid)
  }

  ghost function Pids(procs: seq<Proc>): set<Pid> {
    set i | 0 <= i < |procs| :: procs[i].pid
  }

  ghost predicate Closed(procs: seq<Proc>, pids: set<Pid>) {
    forall p, c :: p in pids && IsChild(procs, p, c) ==> c in pids
  }

  lemma ReachesSelf(procs: seq<Proc>, root: Pid)
    ensures Reaches(procs, root, root)
  {
    assert IsPath(procs, [root]) && [root][0] == root && [root][|[root]| - 1] == root;
  }

  lemma ReachesChild(procs: seq<Proc>, root: Pid, pid: Pid, child: Pid)
    requires Reaches(procs, root, pid) && IsChild(procs, pid, child)
    ensures Reaches(procs, root, child)
  {
    var path :| IsPath(procs, path) && path[0] == root && path[|path| - 1] == pid;
    var longer := path + [child];
    assert IsPath(procs, longer) && longer[0] == root && longer[|longer| - 1] == child;
  }

  /** What is closed under children and holds a root holds its whole tree. */
  lemma {:induction false} ClosedHoldsPath(procs: seq<Proc>, pids: set<Pid>, path: seq<Pid>)
    requires Closed(procs, pids) && IsPath(procs, path) && path[0] in pids
    ensures path[|path| - 1] in pids
    decreases |path|
  {
    if |path| > 1 {
      var shorter := path[..|path| - 1];
      assert IsPath(procs, shorter);
      ClosedHoldsPath(procs, pids, shorter);
      assert IsChild(procs, path[|path| - 2], path[|path| - 1]);
    }
  }

  lemma ClosedHoldsTree(procs: seq<Proc>, pids: set<Pid>, root: Pid)
    requires Closed(procs, pids) && root in pids
    ensures Tree(procs, root) <= pids
  {
    forall pid | pid in Tree(procs, root) ensures pid in pids {
      var path :| IsPath(procs, path) && path[0] == root && path[|path| - 1] == pid;
      ClosedHoldsPath(procs, pids, path);
    }
  }

  lemma ChildIsListed(procs: seq<Proc>, parent: Pid, child: Pid)
    requires IsChild(procs, parent, child)
    ensures child in Pids(procs)
  {
  }

  lemma TreeHasChild(procs: seq<Proc>, root: Pid, pid: Pid, child: Pid)
    requires pid in Tree(procs, root) && IsChild(procs, pid, child)
    ensures child in Tree(procs, root)
  {
    ReachesChild(procs, root, pid, child);
    ChildIsListed(procs, pid, child);
  }

  // ---- The load of a set of processes ----

  function LoadOf(byPid: map<Pid, Proc>, pid: Pid): Load {
    if pid in byPid then Load(byPid[pid].cpu, byPid[pid].memory, 1) else ZERO
  }

  /** The sum over a set, in whatever order. */
  ghost function Total(byPid: map<Pid, Proc>, pids: set<Pid>): Load {
    if pids == {} then ZERO
    else
      var pid :| pid in pids;
      LoadOf(byPid, pid).Add(Total(byPid, pids - {pid}))
  }

  lemma Commutes(a: Load, b: Load)
    ensures a.Add(b) == b.Add(a)
  {
  }

  lemma Associates(a: Load, b: Load, c: Load)
    ensures a.Add(b.Add(c)) == a.Add(b).Add(c)
  {
  }

  lemma Exchanges(a: Load, b: Load, c: Load)
    ensures a.Add(b).Add(c) == a.Add(c).Add(b)
  {
  }

  lemma {:induction false} TotalAdds(byPid: map<Pid, Proc>, pids: set<Pid>, pid: Pid)
    requires pid !in pids
    ensures Total(byPid, pids + {pid}) == Total(byPid, pids).Add(LoadOf(byPid, pid))
    decreases |pids|
  {
    var all := pids + {pid};
    var first :| first in all && Total(byPid, all) == LoadOf(byPid, first).Add(Total(byPid, all - {first}));
    if first == pid {
      assert all - {first} == pids;
      Commutes(LoadOf(byPid, pid), Total(byPid, pids));
    } else {
      var rest := pids - {first};
      TotalAdds(byPid, rest, pid);
      assert all - {first} == rest + {pid};
      TotalAdds(byPid, rest, first);
      assert rest + {first} == pids;
      Associates(LoadOf(byPid, first), Total(byPid, rest), LoadOf(byPid, pid));
      Commutes(LoadOf(byPid, first), Total(byPid, rest));
    }
  }

  lemma {:induction false} TotalUnion(byPid: map<Pid, Proc>, a: set<Pid>, b: set<Pid>)
    requires a !! b
    ensures Total(byPid, a + b) == Total(byPid, a).Add(Total(byPid, b))
    decreases |b|
  {
    if b == {} {
      assert a + b == a;
    } else {
      var pid :| pid in b;
      TotalUnion(byPid, a, b - {pid});
      TotalAdds(byPid, b - {pid}, pid);
      TotalAdds(byPid, a + (b - {pid}), pid);
      Associates(Total(byPid, a), Total(byPid, b - {pid}), LoadOf(byPid, pid));
      assert b - {pid} + {pid} == b;
      assert a + (b - {pid}) + {pid} == a + b;
    }
  }

  // ---- Attribution ----

  /** The listed process of each pid; of two with one pid, the later. */
  function ByPid(procs: seq<Proc>): (byPid: map<Pid, Proc>)
    ensures byPid.Keys == set i | 0 <= i < |procs| :: procs[i].pid
    decreases |procs|
  {
    if procs == [] then map[]
    else
      var n := |procs| - 1;
      var earlier := ByPid(procs[..n]);
      assert forall i :: 0 <= i < n ==> procs[..n][i] == procs[i];
      earlier[procs[n].pid := procs[n]]
  }

  ghost predicate IsIndex(procs: seq<Proc>, children: map<Pid, seq<Pid>>) {
    forall p, c :: IsChild(procs, p, c) <==> p in children && c in children[p]
  }

  function ChildrenOf(children: map<Pid, seq<Pid>>, pid: Pid): seq<Pid> {
    if pid in children then children[pid] else []
  }

  method IndexChildren(procs: seq<Proc>) returns (children: map<Pid, seq<Pid>>)
    ensures IsIndex(procs, children)
  {
    children := map[];
    for i := 0 to |procs|
      invariant forall p, c :: p in children && c in children[p] ==> IsChild(procs, p, c)
      invariant forall j :: 0 <= j < i && procs[j].parent.Some? && procs[j].parent.value != procs[j].pid ==>
                  procs[j].parent.value in children && procs[j].pid in children[procs[j].parent.value]
    {
      var p := procs[i];
      if p.parent.Some? && p.parent.value != p.pid {
        assert IsChild(procs, p.parent.value, p.pid);
        children := children[p.parent.value := ChildrenOf(children, p.parent.value) + [p.pid]];
      }
    }
  }

  /** Everything claimed has its children claimed, or is exempt. */
  ghost predicate ClosedBut(procs: seq<Proc>, claimed: set<Pid>, exempt: set<Pid>) {
    forall p, c :: p in claimed && p !in exempt && IsChild(procs, p, c) ==> c in claimed
  }

  /** The search has come from `before` to `claimed`, with `stack` still to look at. */
  ghost predicate Searching(procs: seq<Proc>, root: Pid, before: set<Pid>, exempt: set<Pid>, claimed: set<Pid>, stack: seq<Pid>) {
    && before <= claimed <= before + Tree(procs, root)
    && (forall pid :: pid in stack ==> pid in Tree(procs, root))
    && (root in claimed || root in stack)
    && (forall p, c :: p in claimed && p !in exempt && IsChild(procs, p, c) ==> c in claimed || c in stack)
  }

  lemma SearchSkips(procs: seq<Proc>, root: Pid, before: set<Pid>, exempt: set<Pid>, claimed: set<Pid>, stack: seq<Pid>)
    requires Searching(procs, root, before, exempt, claimed, stack) && stack != [] && stack[|stack| - 1] in claimed
    ensures Searching(procs, root, before, exempt, claimed, stack[..|stack| - 1])
  {
    var rest := stack[..|stack| - 1];
    assert stack == rest + [stack[|stack| - 1]];
  }

  lemma SearchClaims(procs: seq<Proc>, children: map<Pid, seq<Pid>>, root: Pid, before: set<Pid>, exempt: set<Pid>,
                     claimed: set<Pid>, stack: seq<Pid>)
    requires IsIndex(procs, children) && exempt <= before
    requires Searching(procs, root, before, exempt, claimed, stack) && stack != [] && stack[|stack| - 1] !in claimed
    ensures var pid := stack[|stack| - 1];
            Searching(procs, root, before, exempt, claimed + {pid}, stack[..|stack| - 1] + ChildrenOf(children, pid))
  {
    var pid := stack[|stack| - 1];
    var rest := stack[..|stack| - 1];
    assert stack == rest + [pid];
    assert pid in stack;
    forall c | c in ChildrenOf(children, pid) ensures c in Tree(procs, root) {
      assert IsChild(procs, pid, c);
      TreeHasChild(procs, root, pid, c);
    }
  }

  lemma TotalClaims(byPid: map<Pid, Proc>, before: set<Pid>, claimed: set<Pid>, pid: Pid)
    requires before <= claimed && pid !in claimed
    ensures Total(byPid, claimed + {pid} - before) == Total(byPid, claimed - before).Add(LoadOf(byPid, pid))
  {
    hide Total, Load.Add;
    TotalAdds(byPid, claimed - before, pid);
    assert claimed + {pid} - before == claimed - before + {pid};
  }

  /** Claim what is below `root` and not yet claimed: depth first, with the stack explicit. */
  method ClaimTree(procs: seq<Proc>, byPid: map<Pid, Proc>, children: map<Pid, seq<Pid>>, root: Pid,
                   before: set<Pid>, ghost exempt: set<Pid>)
    returns (load: Load, claimed: set<Pid>)
    requires IsIndex(procs, children)
    requires exempt <= before && ClosedBut(procs, before, exempt)
    ensures before <= claimed <= before + Tree(procs, root)
    ensures root in claimed && ClosedBut(procs, claimed, exempt)
    ensures load == Total(byPid, claimed - before)
  {
    load, claimed := ZERO, before;
    var stack := [root];
    ReachesSelf(procs, root);
    while stack != []
      invariant Searching(procs, root, before, exempt, claimed, stack)
      invariant load == Total(byPid, claimed - before)
      decreases Tree(procs, root) - claimed, |stack|
    {
      var pid := stack[|stack| - 1];
      if pid in claimed {
        SearchSkips(procs, root, before, exempt, claimed, stack);
        stack := stack[..|stack| - 1];
      } else {
        SearchClaims(procs, children, root, before, exempt, claimed, stack);
        TotalClaims(byPid, before, claimed, pid);
        assert pid in stack;
        claimed := claimed + {pid};
        if pid in byPid {
          load := load.Add(Load(byPid[pid].cpu, byPid[pid].memory, 1));
        } else {
          AddsZero(load);
        }
        stack := stack[..|stack| - 1] + ChildrenOf(children, pid);
      }
    }
  }

  lemma AddsZero(a: Load)
    ensures a.Add(ZERO) == a
  {
  }

  /** The trees of all the roots together. */
  ghost function Forest(procs: seq<Proc>, roots: seq<Pid>): set<Pid>
    decreases |roots|
  {
    if roots == [] then {} else Forest(procs, roots[..|roots| - 1]) + Tree(procs, roots[|roots| - 1])
  }

  ghost function HostTree(procs: seq<Proc>, app: Pid, host: Option<Pid>): set<Pid> {
    if host.Some? && host.value != app then Tree(procs, host.value) else {}
  }

  /** What the terminals and the host have taken before the app's own part is looked at. */
  ghost function Taken(procs: seq<Proc>, app: Pid, host: Option<Pid>, sessions: seq<Pid>): set<Pid> {
    Forest(procs, sessions) + HostTree(procs, app, host)
  }

  ghost function BelowApp(procs: seq<Proc>, app: Pid): set<Pid> {
    if app in ByPid(procs) then Tree(procs, app) - {app} else {}
  }

  /** A tree claimed on top of whole trees is what of it they did not hold. */
  lemma ClaimsTheRest(procs: seq<Proc>, before: set<Pid>, claimed: set<Pid>, root: Pid)
    requires ClosedBut(procs, claimed, {}) && before <= claimed <= before + Tree(procs, root) && root in claimed
    ensures Closed(procs, claimed) && claimed == before + Tree(procs, root)
    ensures claimed - before == Tree(procs, root) - before
  {
    ClosedHoldsTree(procs, claimed, root);
  }

  /** The load of each session: what is below it and below none before it. */
  ghost predicate SessionsAttributed(procs: seq<Proc>, sessions: seq<Pid>, loads: map<Pid, Load>) {
    && loads.Keys == (set pid | pid in sessions)
    && forall i :: 0 <= i < |sessions| && IsLast(sessions, i) ==>
         sessions[i] in loads && loads[sessions[i]] == SessionLoad(procs, sessions, i)
  }

  ghost predicate IsLast(sessions: seq<Pid>, i: nat)
    requires i < |sessions|
  {
    forall j :: i < j < |sessions| ==> sessions[j] != sessions[i]
  }

  ghost function SessionLoad(procs: seq<Proc>, sessions: seq<Pid>, i: nat): Load
    requires i < |sessions|
  {
    Total(ByPid(procs), Tree(procs, sessions[i]) - Forest(procs, sessions[..i]))
  }

  lemma SessionsExtend(procs: seq<Proc>, sessions: seq<Pid>, loads: map<Pid, Load>, pid: Pid, load: Load)
    requires SessionsAttributed(procs, sessions, loads)
    requires load == Total(ByPid(procs), Tree(procs, pid) - Forest(procs, sessions))
    ensures SessionsAttributed(procs, sessions + [pid], loads[pid := load])
  {
    var more := sessions + [pid];
    forall i | 0 <= i < |more| && IsLast(more, i)
      ensures more[i] in loads[pid := load] && loads[pid := load][more[i]] == SessionLoad(procs, more, i)
    {
      SessionLoadStays(procs, sessions, pid, i);
    }
  }

  lemma SessionLoadStays(procs: seq<Proc>, sessions: seq<Pid>, pid: Pid, i: nat)
    requires i <= |sessions|
    ensures var more := sessions + [pid];
            && SessionLoad(procs, more, i) ==
               (if i < |sessions| then SessionLoad(procs, sessions, i) else Total(ByPid(procs), Tree(procs, pid) - Forest(procs, sessions)))
            && (i < |sessions| && IsLast(more, i) ==> IsLast(sessions, i) && sessions[i] != pid)
  {
    var more := sessions + [pid];
    assert more[..i] == sessions[..i];
    if i < |sessions| {
      assert more[|sessions|] == pid;
      assert forall j :: i < j < |sessions| ==> more[j] == sessions[j];
    } else {
      assert sessions[..i] == sessions;
    }
  }

  method ClaimSessions(procs: seq<Proc>, byPid: map<Pid, Proc>, children: map<Pid, seq<Pid>>, sessions: seq<Pid>)
    returns (loads: map<Pid, Load>, claimed: set<Pid>)
    requires IsIndex(procs, children) && byPid == ByPid(procs)
    ensures SessionsAttributed(procs, sessions, loads)
    ensures claimed == Forest(procs, sessions) && ClosedBut(procs, claimed, {})
  {
    loads, claimed := map[], {};
    for i := 0 to |sessions|
      invariant SessionsAttributed(procs, sessions[..i], loads)
      invariant claimed == Forest(procs, sessions[..i]) && ClosedBut(procs, claimed, {})
    {
      ghost var before := claimed;
      var load;
      load, claimed := ClaimTree(procs, byPid, children, sessions[i], claimed, {});
      ClaimsTheRest(procs, before, claimed, sessions[i]);
      assert sessions[..i + 1] == sessions[..i] + [sessions[i]];
      assert (sessions[..i] + [sessions[i]])[..i] == sessions[..i];
      SessionsExtend(procs, sessions[..i], loads, sessions[i], load);
      loads := loads[sessions[i] := load];
    }
    assert sessions[..|sessions|] == sessions;
  }

  ghost predicate IsAttribution(procs: seq<Proc>, app: Pid, host: Option<Pid>, sessions: seq<Pid>, result: Attribution) {
    && SessionsAttributed(procs, sessions, result.sessions)
    && result.host == Total(ByPid(procs), HostTree(procs, app, host) - Forest(procs, sessions))
    && result.main == LoadOf(ByPid(procs), app)
    && result.webview == Total(ByPid(procs), BelowApp(procs, app) - Taken(procs, app, host, sessions))
  }

  /**
   `attribute`: each session gets what is below it and below no earlier one, the host what is
   below it and below no session, and the webview what is below the app and in neither.
   */
  method Attribute(procs: seq<Proc>, app: Pid, host: Option<Pid>, sessions: seq<Pid>) returns (result: Attribution)
    ensures IsAttribution(procs, app, host, sessions, result)
  {
    var byPid := ByPid(procs);
    var children := IndexChildren(procs);
    var loads, claimed := ClaimSessions(procs, byPid, children, sessions);
    result := Attribution(ZERO, ZERO, ZERO, loads);
    if host.Some? && host.value != app {
      ghost var before := claimed;
      var load;
      load, claimed := ClaimTree(procs, byPid, children, host.value, claimed, {});
      ClaimsTheRest(procs, before, claimed, host.value);
      result := result.(host := load);
    }
    assert claimed == Taken(procs, app, host, sessions);
    if app in byPid {
      var webview := ClaimBelow(procs, byPid, children, app, claimed);
      result := result.(main := LoadOf(byPid, app), webview := webview);
    }
  }

  /** Below the app, the children up to the `i`-th have been claimed. */
  ghost predicate Sweeping(procs: seq<Proc>, app: Pid, before: set<Pid>, below: seq<Pid>, i: nat, claimed: set<Pid>)
    requires i <= |below|
  {
    && before + {app} <= claimed <= before + Tree(procs, app)
    && ClosedBut(procs, claimed, {app})
    && forall j :: 0 <= j < i ==> below[j] in claimed
  }

  lemma SweepExtends(procs: seq<Proc>, app: Pid, before: set<Pid>, below: seq<Pid>, i: nat, was: set<Pid>, claimed: set<Pid>)
    requires i < |below| && IsChild(procs, app, below[i]) && Sweeping(procs, app, before, below, i, was)
    requires was <= claimed <= was + Tree(procs, below[i]) && below[i] in claimed && ClosedBut(procs, claimed, {app})
    ensures Sweeping(procs, app, before, below, i + 1, claimed)
  {
    TreeInTree(procs, app, below[i]);
  }

  lemma SweptClosed(procs: seq<Proc>, children: map<Pid, seq<Pid>>, app: Pid, before: set<Pid>, claimed: set<Pid>)
    requires IsIndex(procs, children)
    requires Sweeping(procs, app, before, ChildrenOf(children, app), |ChildrenOf(children, app)|, claimed)
    ensures claimed - (before + {app}) == Tree(procs, app) - {app} - before
  {
    var below := ChildrenOf(children, app);
    forall p, c | p in claimed && IsChild(procs, p, c) ensures c in claimed {
      if p == app {
        var j :| 0 <= j < |below| && below[j] == c;
      }
    }
    ClosedHoldsTree(procs, claimed, app);
  }

  /** The main process alone is passed over, and whatever else hangs below it is claimed. */
  method ClaimBelow(procs: seq<Proc>, byPid: map<Pid, Proc>, children: map<Pid, seq<Pid>>, app: Pid, before: set<Pid>)
    returns (webview: Load)
    requires IsIndex(procs, children) && ClosedBut(procs, before, {})
    ensures webview == Total(byPid, Tree(procs, app) - {app} - before)
  {
    webview := ZERO;
    var claimed := before + {app};
    var below := ChildrenOf(children, app);
    ReachesSelf(procs, app);
    assert claimed - (before + {app}) == {};
    for i := 0 to |below|
      invariant Sweeping(procs, app, before, below, i, claimed)
      invariant webview == Total(byPid, claimed - (before + {app}))
    {
      ghost var was := claimed;
      var load;
      assert IsChild(procs, app, below[i]);
      load, claimed := ClaimTree(procs, byPid, children, below[i], claimed, {app});
      SweepExtends(procs, app, before, below, i, was, claimed);
      TotalSweeps(byPid, before + {app}, was, claimed);
      webview := webview.Add(load);
    }
    SweptClosed(procs, children, app, before, claimed);
  }

  lemma TotalSweeps(byPid: map<Pid, Proc>, before: set<Pid>, was: set<Pid>, claimed: set<Pid>)
    requires before <= was <= claimed
    ensures Total(byPid, claimed - before) == Total(byPid, was - before).Add(Total(byPid, claimed - was))
  {
    TotalUnion(byPid, was - before, claimed - was);
    assert claimed - before == (was - before) + (claimed - was);
  }

  lemma TreeInTree(procs: seq<Proc>, root: Pid, child: Pid)
    requires IsChild(procs, root, child)
    ensures Tree(procs, child) <= Tree(procs, root)
  {
    ReachesSelf(procs, root);
    TreeHasChild(procs, root, root, child);
    assert Closed(procs, Tree(procs, root)) by {
      forall p, c | p in Tree(procs, root) && IsChild(procs, p, c) ensures c in Tree(procs, root) {
        TreeHasChild(procs, root, p, c);
      }
    }
    ClosedHoldsTree(procs, Tree(procs, root), child);
  }

  // ---- The parts add up ----

  /** The sum over the first `n` sessions. */
  ghost function SumTo(loads: map<Pid, Load>, sessions: seq<Pid>, n: nat): Load
    requires n <= |sessions| && forall pid :: pid in sessions ==> pid in loads
  {
    if n == 0 then ZERO else SumTo(loads, sessions, n - 1).Add(loads[sessions[n - 1]])
  }

  ghost predicate Distinct(sessions: seq<Pid>) {
    forall i, j :: 0 <= i < j < |sessions| ==> sessions[i] != sessions[j]
  }

  lemma TotalGrows(byPid: map<Pid, Proc>, a: set<Pid>, b: set<Pid>)
    ensures Total(byPid, a + b) == Total(byPid, a).Add(Total(byPid, b - a))
  {
    TotalUnion(byPid, a, b - a);
    assert a + b == a + (b - a);
  }

  lemma ForestGrows(procs: seq<Proc>, sessions: seq<Pid>, n: nat)
    requires n < |sessions|
    ensures Forest(procs, sessions[..n + 1]) == Forest(procs, sessions[..n]) + Tree(procs, sessions[n])
  {
    assert sessions[..n + 1][..n] == sessions[..n];
  }

  lemma {:induction false} SessionsAddUp(procs: seq<Proc>, sessions: seq<Pid>, loads: map<Pid, Load>, n: nat)
    requires SessionsAttributed(procs, sessions, loads) && Distinct(sessions) && n <= |sessions|
    ensures SumTo(loads, sessions, n) == Total(ByPid(procs), Forest(procs, sessions[..n]))
  {
    if n > 0 {
      SessionsAddUp(procs, sessions, loads, n - 1);
      ForestGrows(procs, sessions, n - 1);
      assert IsLast(sessions, n - 1);
      TotalGrows(ByPid(procs), Forest(procs, sessions[..n - 1]), Tree(procs, sessions[n - 1]));
    }
  }

  ghost function PartsOf(result: Attribution, sessions: seq<Pid>): Load
    requires forall pid :: pid in sessions ==> pid in result.sessions
  {
    SumTo(result.sessions, sessions, |sessions|).Add(result.host).Add(result.webview).Add(result.main)
  }

  /** Everything that is attributed to anything. */
  ghost function Covered(procs: seq<Proc>, app: Pid, host: Option<Pid>, sessions: seq<Pid>): set<Pid> {
    Taken(procs, app, host, sessions) + if app in ByPid(procs) then Tree(procs, app) else {}
  }

  /**
   The parts sum to the union of the trees; only the app's own process, when it is listed and
   below a session or the host, is counted once more.
   */
  lemma PartsAddUp(procs: seq<Proc>, app: Pid, host: Option<Pid>, sessions: seq<Pid>, result: Attribution)
    requires IsAttribution(procs, app, host, sessions, result) && Distinct(sessions)
    ensures PartsOf(result, sessions) ==
            Total(ByPid(procs), Covered(procs, app, host, sessions))
              .Add(if app in ByPid(procs) && app in Taken(procs, app, host, sessions) then LoadOf(ByPid(procs), app) else ZERO)
  {
    var taken := Taken(procs, app, host, sessions);
    SessionsAddUp(procs, sessions, result.sessions, |sessions|);
    assert sessions[..|sessions|] == sessions;
    TotalGrows(ByPid(procs), Forest(procs, sessions), HostTree(procs, app, host));
    TotalGrows(ByPid(procs), taken, BelowApp(procs, app));
    AppAddsUp(procs, app, taken);
  }

  lemma AppAddsUp(procs: seq<Proc>, app: Pid, taken: set<Pid>)
    ensures var byPid := ByPid(procs);
            Total(byPid, taken + BelowApp(procs, app)).Add(LoadOf(byPid, app)) ==
            Total(byPid, taken + if app in byPid then Tree(procs, app) else {})
              .Add(if app in byPid && app in taken then LoadOf(byPid, app) else ZERO)
  {
    var byPid := ByPid(procs);
    var below := taken + BelowApp(procs, app);
    ReachesSelf(procs, app);
    if app in byPid {
      assert taken + Tree(procs, app) == below + {app};
      if app in taken {
        assert below + {app} == below;
      } else {
        TotalAdds(byPid, below, app);
      }
      AddsZero(Total(byPid, below + {app}));
    } else {
      assert taken + {} == below;
    }
  }

  /** No process counts twice exactly when the app is not below a session or the host. */
  lemma CountedOnceIff(procs: seq<Proc>, app: Pid, host: Option<Pid>, sessions: seq<Pid>, result: Attribution)
    requires IsAttribution(procs, app, host, sessions, result) && Distinct(sessions)
    ensures PartsOf(result, sessions) == Total(ByPid(procs), Covered(procs, app, host, sessions)) <==>
            !(app in ByPid(procs) && app in Taken(procs, app, host, sessions))
  {
    PartsAddUp(procs, app, host, sessions, result);
    AddsZero(Total(ByPid(procs), Covered(procs, app, host, sessions)));
  }

  /** Process 1 is a terminal's, and the app, process 2, was started from it. */
  const FROM_A_TERMINAL := [Proc(1, None, 1.0, 10.0), Proc(2, Some(1), 2.0, 20.0)]

  /** An app that was started from one of its terminals is counted twice: three processes of two. */
  lemma AppBelowASessionCountsTwice(result: Attribution)
    requires IsAttribution(FROM_A_TERMINAL, 2, None, [1], result)
    ensures PartsOf(result, [1]).processes == 3 && |FROM_A_TERMINAL| == 2
    ensures PartsOf(result, [1]) != Total(ByPid(FROM_A_TERMINAL), Covered(FROM_A_TERMINAL, 2, None, [1]))
  {
    var procs := FROM_A_TERMINAL;
    AppIsBelow();
    CountedOnceIff(procs, 2, None, [1], result);
    PartsAddUp(procs, 2, None, [1], result);
    TotalCounts(ByPid(procs), Covered(procs, 2, None, [1]));
    assert Covered(procs, 2, None, [1]) * ByPid(procs).Keys == {1, 2};
  }

  lemma AppIsBelow()
    ensures 1 in ByPid(FROM_A_TERMINAL) && 2 in ByPid(FROM_A_TERMINAL) && ByPid(FROM_A_TERMINAL).Keys == {1, 2}
    ensures {1, 2} <= Taken(FROM_A_TERMINAL, 2, None, [1])
    ensures LoadOf(ByPid(FROM_A_TERMINAL), 2).processes == 1
  {
    var procs := FROM_A_TERMINAL;
    assert procs[0].pid == 1 && procs[1].pid == 2;
    ReachesSelf(procs, 1);
    assert IsChild(procs, 1, 2);
    TreeHasChild(procs, 1, 1, 2);
    assert [1][..0] == [] && Forest(procs, [1]) == Forest(procs, []) + Tree(procs, 1);
  }

  /** A process listed twice counts with what its last entry says. */
  lemma {:induction false} LastListedCounts(procs: seq<Proc>, i: nat)
    requires i < |procs| && forall j :: i < j < |procs| ==> procs[j].pid != procs[i].pid
    ensures procs[i].pid in ByPid(procs) && ByPid(procs)[procs[i].pid] == procs[i]
    decreases |procs|
  {
    if i < |procs| - 1 {
      LastListedCounts(procs[..|procs| - 1], i);
    }
  }

  /** A total is the sums of the listed processes' processor time and memory, and their number: one more adds its own. */
  lemma TotalWith(byPid: map<Pid, Proc>, pids: set<Pid>, pid: Pid)
    requires pid !in pids
    ensures Total(byPid, {}) == Load(0.0, 0.0, 0)
    ensures var t := Total(byPid, pids);
            Total(byPid, pids + {pid}) ==
            if pid in byPid then Load(t.cpu + byPid[pid].cpu, t.memory + byPid[pid].memory, t.processes + 1) else t
  {
    TotalAdds(byPid, pids, pid);
  }

  /** In a total over listed processes every one of them counts as one. */
  lemma {:induction false} TotalCounts(byPid: map<Pid, Proc>, pids: set<Pid>)
    ensures Total(byPid, pids).processes == |pids * byPid.Keys|
    decreases |pids|
  {
    if pids == {} {
    } else {
      hide Total, LoadOf;
      var pid :| pid in pids;
      TotalCounts(byPid, pids - {pid});
      TotalAdds(byPid, pids - {pid}, pid);
      assert pids - {pid} + {pid} == pids;
      OneMoreListed(byPid, pids, pid);
    }
  }

  lemma OneMoreListed(byPid: map<Pid, Proc>, pids: set<Pid>, pid: Pid)
    requires pid in pids
    ensures |pids * byPid.Keys| == |(pids - {pid}) * byPid.Keys| + LoadOf(byPid, pid).processes
  {
    assert pids * byPid.Keys == (pids - {pid}) * byPid.Keys + if pid in byPid then {pid} else {};
  }
}
