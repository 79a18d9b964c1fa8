/**
 A client that nobody interrupts: its steps among the many come to what one drain does.
 */
module InboxAlone {
  import opened Inbox
  import opened InboxClients
  import opened Options

  ghost predicate AreOwn(steps: seq<Step>, c: nat) {
    forall i :: 0 <= i < |steps| ==> (steps[i].List? || steps[i].Read? || steps[i].Write? || steps[i].Remove?) && steps[i].client == c
  }

  lemma {:induction false} AfterJoined(s: Sys, first: seq<Step>, rest: seq<Step>)
    ensures After(After(s, first), rest) == After(s, first + rest)
    decreases |rest|
  {
    hide Next;
    if rest == [] {
      assert first + rest == first;
    } else {
      var n := |rest| - 1;
      var steps := first + rest;
      assert steps[..|steps| - 1] == first + rest[..n] && steps[|steps| - 1] == rest[n];
      AfterJoined(s, first, rest[..n]);
    }
  }

  lemma AfterOne(s: Sys, step: Step)
    ensures After(s, [step]) == Next(s, step)
  {
    assert [step][..0] == [];
    assert After(s, []) == s;
  }

  /** `s` as the client would have left it. */
  ghost predicate LeadsTo(s: Sys, own: seq<Step>, u: Sys, c: nat, events: seq<Row>, files: map<FileName, File>, pc: Pc) {
    AreOwn(own, c) && u == After(s, own) && u.events == events && u.files == files && u.places == s.places && At(u, c) == pc
  }

  lemma {:induction false} WritesOn(s: Sys, c: nat, refused: set<RowKey>) returns (own: seq<Step>, u: Sys)
    requires At(s, c).Writing? && At(s, c).next <= |At(s, c).rows|
    ensures var Writing(f, rows, next, queue) := At(s, c);
            LeadsTo(s, own, u, c, Written(s.events, rows[next..], refused), s.files,
                    if Refuses(rows[next..], refused) then Listed(queue) else Removing(f, Wrote(rows), queue))
    decreases |At(s, c).rows| - At(s, c).next
  {
    hide After;
    var Writing(f, rows, next, queue) := At(s, c);
    var step := Write(c, next == |rows| || rows[next].key !in refused);
    AfterOne(s, step);
    own, u := [step], Next(s, step);
    if next < |rows| {
      assert rows[next..][0] == rows[next] && rows[next..][1..] == rows[next + 1..];
      if rows[next].key !in refused {
        var more;
        more, u := WritesOn(Next(s, step), c, refused);
        AfterJoined(s, [step], more);
        own := [step] + more;
        RefusesRest(rows[next..], refused);
      } else {
        assert Refuses(rows[next..], refused);
      }
    }
  }

  lemma RefusesRest(rows: seq<Row>, refused: set<RowKey>)
    requires rows != [] && rows[0].key !in refused
    ensures Refuses(rows, refused) <==> Refuses(rows[1..], refused)
  {
    if Refuses(rows, refused) {
      var i :| 0 <= i < |rows| && rows[i].key in refused;
      assert rows[1..][i - 1] == rows[i];
    }
    if Refuses(rows[1..], refused) {
      var i :| 0 <= i < |rows[1..]| && rows[1..][i].key in refused;
      assert rows[i + 1] == rows[1..][i];
    }
  }

  /** The client reads its next file, does with it what a drain does, and goes on to the one after. */
  lemma HandlesFile(s: Sys, c: nat, w: World) returns (own: seq<Step>, u: Sys)
    requires At(s, c).Listed? && At(s, c).queue != [] && At(s, c).queue[0] in s.files && s.places == w.places
    ensures var f := At(s, c).queue[0];
            var d := DrainedOne(w, Outcome(s.events, s.files, 0), f, PlanOf(w, s.files, f));
            LeadsTo(s, own, u, c, d.events, d.files, Listed(At(s, c).queue[1..]))
  {
    hide After, PlanFor, Written, Refuses;
    var f := At(s, c).queue[0];
    var plan := PlanOf(w, s.files, f);
    var read := Read(c, w.lookups, ReadingOf(w, f), w.now);
    AfterOne(s, read);
    own, u := [read], Next(s, read);
    if plan.Store? {
      assert plan.rows[0..] == plan.rows;
      var writes, v := WritesOn(u, c, w.refused);
      AfterJoined(s, own, writes);
      own, u := own + writes, v;
    }
    if At(u, c).Removing? {
      var remove := Remove(c, f !in w.stuck);
      AfterOne(u, remove);
      AfterJoined(s, own, [remove]);
      own, u := own + [remove], Next(u, remove);
    }
  }

  lemma DrainedNext(w: World, events: seq<Row>, files: map<FileName, File>, order: seq<FileName>, k: nat)
    requires k < |order| && forall f :: f in order ==> f in files
    requires forall i, j :: 0 <= i < j < |order| ==> order[i] != order[j]
    ensures var d, e := Drained(w, events, files, order[..k]), Drained(w, events, files, order[..k + 1]);
            && order[k] in d.files && d.files[order[k]] == files[order[k]]
            && (var one := DrainedOne(w, Outcome(d.events, d.files, 0), order[k], PlanOf(w, files, order[k]));
                e.events == one.events && e.files == one.files)
  {
    hide PlanFor, Written, Refuses;
    assert order[..k + 1][..k] == order[..k];
    DrainLeavesTheDeferred(w, events, files, order[..k]);
  }

  /**
   A client that nobody interrupts while the tables stay as they are leaves exactly the events and the
   files that one drain leaves, whatever is refused, deferred or stuck; and it can then list again.
   */
  lemma {:induction false} AloneItDrains(s: Sys, c: nat, w: World, order: seq<FileName>) returns (own: seq<Step>, u: Sys)
    requires (At(s, c).Idle? || At(s, c) == Listed([])) && s.places == w.places && (set f | f in order) == s.files.Keys
    requires forall i, j :: 0 <= i < j < |order| ==> order[i] != order[j]
    ensures forall f :: f in order ==> f in s.files
    ensures var d := Drained(w, s.events, s.files, order); LeadsTo(s, own, u, c, d.events, d.files, Listed([]))
  {
    hide After, Drained;
    assert forall f :: f in order ==> f in (set f | f in order);
    var list := List(c, order);
    AfterOne(s, list);
    own, u := [list], Next(s, list);
    NothingDrained(w, s.events, s.files);
    assert order[..0] == [] && order[0..] == order;
    for k := 0 to |order|
      invariant var d := Drained(w, s.events, s.files, order[..k]); LeadsTo(s, own, u, c, d.events, d.files, Listed(order[k..]))
    {
      DrainedNext(w, s.events, s.files, order, k);
      assert order[k..][0] == order[k] && order[k..][1..] == order[k + 1..];
      var more, v := HandlesFile(u, c, w);
      AfterJoined(s, own, more);
      own, u := own + more, v;
    }
    assert order[..|order|] == order;
  }

  lemma NothingDrained(w: World, events: seq<Row>, files: map<FileName, File>)
    ensures Drained(w, events, files, []) == Outcome(events, files, 0)
  {
  }
}
