/**
 Loading with request counters: whatever order answers come in, what is shown is the latest
 request's. One object for the entries that carry a stamp and a loading flag, one for the lists.
 */
module LatestAnswer {
  import opened Options

  type Key = nat
  type Stamp = string
  type Value = nat

  /** What a request came back with: a value, or an error's message. */
  datatype Reply = Answer(value: Value) | Failure(message: string)

  datatype Entry = Entry(value: Option<Value>, loading: bool, error: Option<string>, stamp: Stamp)

  datatype Request = Request(key: Key, number: nat)

  /** The counters and the entries, and beside them what was asked and what has come back. */
  datatype State = State(latest: map<Key, nat>, entries: map<Key, Entry>, asked: map<Request, Stamp>, replies: map<Request, Reply>)

  const EMPTY := State(map[], map[], map[], map[])

  function Counter(latest: map<Key, nat>, key: Key): nat {
    if key in latest then latest[key] else 0
  }

  /** Nothing is asked again under the stamp that is being, or was well, answered. */
  predicate IsCurrent(entries: map<Key, Entry>, key: Key, stamp: Stamp) {
    key in entries && entries[key].stamp == stamp && (entries[key].loading || entries[key].error.None?)
  }

  function Begun(s: State, key: Key, stamp: Stamp, force: bool): State {
    if !force && IsCurrent(s.entries, key, stamp) then s
    else
      var number := Counter(s.latest, key) + 1;
      var value := if key in s.entries then s.entries[key].value else None;
      State(s.latest[key := number], s.entries[key := Entry(value, true, None, stamp)],
            s.asked[Request(key, number) := stamp], s.replies)
  }

  function Patched(entry: Entry, reply: Reply): Entry {
    match reply
    case Answer(value) => entry.(value := Some(value), loading := false)
    case Failure(message) => entry.(loading := false, error := Some(message))
  }

  function Replied(s: State, r: Request, reply: Reply): State {
    var entries := if Counter(s.latest, r.key) == r.number && r.key in s.entries then
                     s.entries[r.key := Patched(s.entries[r.key], reply)] else s.entries;
    s.(entries := entries, replies := s.replies[r := reply])
  }

  /** The request is on its way: asked and not come back. */
  predicate InFlight(s: State, r: Request) {
    r in s.asked && r !in s.replies
  }

  /** `loadDetail`, `loadSummary`, `loadChanges` and `loadLineComments`. */
  class Loader {
    var latest: map<Key, nat>
    var entries: map<Key, Entry>
    ghost var asked: map<Request, Stamp>
    ghost var replies: map<Request, Reply>

    ghost function Contents(): State
      reads this
    {
      State(latest, entries, asked, replies)
    }

    constructor ()
      ensures Contents() == EMPTY
    {
      latest, entries, asked, replies := map[], map[], map[], map[];
    }

    /** Up to the await: the number of the request that goes out, if one does. */
    method Begin(key: Key, stamp: Stamp, force: bool) returns (request: Option<Request>)
      modifies this
      ensures Contents() == Begun(old(Contents()), key, stamp, force)
      ensures request.None? <==>
                !force && key in old(entries) && old(entries)[key].stamp == stamp && (old(entries)[key].loading || old(entries)[key].error.None?)
      ensures request.Some? ==> request.value == Request(key, latest[key]) && request.value in asked
    {
      var before := if key in entries then Some(entries[key]) else None;
      if !force && before.Some? && before.value.stamp == stamp && (before.value.loading || before.value.error.None?) {
        return None;
      }
      var number := Counter(latest, key) + 1;
      latest := latest[key := number];
      asked := asked[Request(key, number) := stamp];
      entries := entries[key := Entry(if before.Some? then before.value.value else None, true, None, stamp)];
      return Some(Request(key, number));
    }

    /** From the await on. */
    method Settle(r: Request, reply: Reply)
      modifies this
      ensures Contents() == Replied(old(Contents()), r, reply)
    {
      if Counter(latest, r.key) == r.number {
        if r.key in entries {
          match reply {
            case Answer(value) => entries := entries[r.key := entries[r.key].(value := Some(value), loading := false)];
            case Failure(message) => entries := entries[r.key := entries[r.key].(loading := false, error := Some(message))];
          }
        }
      }
      replies := replies[r := reply];
    }
  }

  // ---- Every interleaving of calls and answers ----

  datatype Step = Load(key: Key, stamp: Stamp, force: bool) | Reply(request: Request, reply: Reply)

  /** An answer to nothing that is on its way is no step. */
  function Next(s: State, step: Step): State {
    match step
    case Load(key, stamp, force) => Begun(s, key, stamp, force)
    case Reply(r, reply) => if InFlight(s, r) then Replied(s, r, reply) else s
  }

  function After(s: State, steps: seq<Step>): State
    decreases |steps|
  {
    if steps == [] then s else Next(After(s, steps[..|steps| - 1]), steps[|steps| - 1])
  }

  ghost function Latest(s: State, key: Key): Request {
    Request(key, Counter(s.latest, key))
  }

  /** What an entry says of its latest request. */
  ghost predicate EntryOk(s: State, key: Key, entry: Entry) {
    var r := Latest(s, key);
    && r in s.asked && entry.stamp == s.asked[r]
    && (entry.loading <==> r !in s.replies)
    && (entry.loading ==> entry.error.None?)
    && (r in s.replies ==>
          match s.replies[r]
          case Answer(value) => entry.error.None? && entry.value == Some(value)
          case Failure(message) => entry.error == Some(message))
  }

  ghost predicate Safe(s: State) {
    && s.latest.Keys == s.entries.Keys
    && (forall key :: key in s.entries ==> EntryOk(s, key, s.entries[key]))
    && (forall r :: r in s.asked ==> r.key in s.entries && r.number <= s.latest[r.key])
    && (forall r :: r in s.replies ==> r in s.asked)
  }

  lemma BegunSafe(s: State, key: Key, stamp: Stamp, force: bool)
    requires Safe(s)
    ensures Safe(Begun(s, key, stamp, force))
  {
    var u := Begun(s, key, stamp, force);
    if u != s {
      var r := Latest(u, key);
      assert r !in s.asked;
      forall k | k in u.entries ensures EntryOk(u, k, u.entries[k]) {
        if k != key {
          assert EntryOk(s, k, s.entries[k]);
        }
      }
    }
  }

  lemma RepliedSafe(s: State, r: Request, reply: Reply)
    requires Safe(s) && InFlight(s, r)
    ensures Safe(Replied(s, r, reply))
  {
    var u := Replied(s, r, reply);
    forall k | k in u.entries ensures EntryOk(u, k, u.entries[k]) {
      assert EntryOk(s, k, s.entries[k]);
    }
  }

  lemma {:induction false} AfterSafe(s: State, steps: seq<Step>)
    requires Safe(s)
    ensures Safe(After(s, steps))
    decreases |steps|
  {
    if steps != [] {
      var before := After(s, steps[..|steps| - 1]);
      AfterSafe(s, steps[..|steps| - 1]);
      match steps[|steps| - 1] {
        case Load(key, stamp, force) => BegunSafe(before, key, stamp, force);
        case Reply(r, reply) => if InFlight(before, r) { RepliedSafe(before, r, reply); }
      }
    }
  }

  /**
   In every interleaving an entry is loading exactly while its latest request is unanswered; once
   it is answered the entry holds that answer, or that failure, under that request's stamp.
   */
  lemma EntryIsLatest(steps: seq<Step>, key: Key)
    requires key in After(EMPTY, steps).entries
    ensures var s := After(EMPTY, steps);
            var entry := s.entries[key];
            var r := Latest(s, key);
            && r in s.asked && entry.stamp == s.asked[r]
            && (entry.loading <==> InFlight(s, r))
            && (!entry.loading && entry.error.None? ==> entry.value.Some? && s.replies[r] == Answer(entry.value.value))
            && (entry.error.Some? ==> !entry.loading && s.replies[r] == Failure(entry.error.value))
  {
    AfterSafe(EMPTY, steps);
    assert EntryOk(After(EMPTY, steps), key, After(EMPTY, steps).entries[key]);
  }

  /** The answer to a request that is not the latest of its key changes nothing that is shown. */
  lemma OlderAnswerIsDropped(steps: seq<Step>, r: Request, reply: Reply)
    requires var s := After(EMPTY, steps); InFlight(s, r) && r != Latest(s, r.key)
    ensures var s := After(EMPTY, steps);
            Next(s, Reply(r, reply)).entries == s.entries && r.number < Latest(s, r.key).number
  {
    AfterSafe(EMPTY, steps);
  }

  /** A load that is forced goes out as a new request, and so does one under a stamp the entry does not have; the value stays until it is answered. */
  lemma LoadGoesOut(s: State, key: Key, stamp: Stamp, force: bool)
    requires force || key !in s.entries || s.entries[key].stamp != stamp
    ensures var u := Next(s, Load(key, stamp, force));
            && Latest(u, key).number == Latest(s, key).number + 1 && Latest(u, key) in u.asked && u.asked[Latest(u, key)] == stamp
            && key in u.entries && u.entries[key].loading && u.entries[key].stamp == stamp
            && u.entries[key].value == (if key in s.entries then s.entries[key].value else None)
  {
  }

  /** In every interleaving the reply to a request that is on its way is taken, for good. */
  lemma {:induction false} ReplyIsTaken(steps: seq<Step>, i: nat)
    requires i < |steps| && steps[i].Reply? && InFlight(After(EMPTY, steps[..i]), steps[i].request)
    ensures var s := After(EMPTY, steps); steps[i].request in s.replies && s.replies[steps[i].request] == steps[i].reply
    decreases |steps|
  {
    var n := |steps| - 1;
    assert steps[..n][..i] == steps[..i];
    var s := After(EMPTY, steps[..n]);
    assert After(EMPTY, steps) == Next(s, steps[n]);
    hide After;
    if i < n {
      ReplyIsTaken(steps[..n], i);
    }
  }

  /** A value that is shown came from some request, and only a later request's value takes its place. */
  ghost predicate CameFrom(s: State, key: Key, number: nat) {
    && key in s.entries && s.entries[key].value.Some?
    && Request(key, number) in s.replies && s.replies[Request(key, number)] == Answer(s.entries[key].value.value)
  }

  /** What is shown came from request `number` of the key, or from a later one. */
  ghost predicate ShowsFrom(s: State, key: Key, number: nat) {
    exists later: nat :: number <= later <= Counter(s.latest, key) && CameFrom(s, key, later)
  }

  lemma ValueMovesForward(s: State, step: Step, key: Key, number: nat)
    requires Safe(s) && ShowsFrom(s, key, number)
    ensures ShowsFrom(Next(s, step), key, number)
  {
    var u := Next(s, step);
    var later: nat :| number <= later <= Counter(s.latest, key) && CameFrom(s, key, later);
    if step.Reply? && InFlight(s, step.request) && step.request == Latest(s, key) && step.reply.Answer? {
      assert CameFrom(u, key, step.request.number);
    } else {
      assert CameFrom(u, key, later);
    }
  }

  /** Over any stretch of a run the shown value never goes back to an older request's. */
  lemma {:induction false} NeverOlder(s: State, steps: seq<Step>, key: Key, number: nat)
    requires Safe(s) && ShowsFrom(s, key, number)
    ensures ShowsFrom(After(s, steps), key, number)
    decreases |steps|
  {
    if steps != [] {
      NeverOlder(s, steps[..|steps| - 1], key, number);
      AfterSafe(s, steps[..|steps| - 1]);
      ValueMovesForward(After(s, steps[..|steps| - 1]), steps[|steps| - 1], key, number);
    }
  }

  // ---- The lists: `loadProject` ----

  /** What is shown for a project is a reply, and the number of the request it came to. */
  datatype Lists = Lists(latest: map<Key, nat>, shown: map<Key, Reply>, from: map<Key, nat>, replies: map<Request, Reply>)

  const NO_LISTS := Lists(map[], map[], map[], map[])

  class ListLoader {
    var latest: map<Key, nat>
    var shown: map<Key, Reply>
    ghost var from: map<Key, nat>
    ghost var replies: map<Request, Reply>

    ghost function Contents(): Lists
      reads this
    {
      Lists(latest, shown, from, replies)
    }

    constructor ()
      ensures Contents() == NO_LISTS
    {
      latest, shown, from, replies := map[], map[], map[], map[];
    }

    method Begin(key: Key) returns (request: Request)
      modifies this
      ensures Contents() == ListBegun(old(Contents()), key)
      ensures request == Request(key, latest[key])
    {
      var number := Counter(latest, key) + 1;
      latest := latest[key := number];
      return Request(key, number);
    }

    method Settle(r: Request, reply: Reply)
      modifies this
      ensures Contents() == ListReplied(old(Contents()), r, reply)
    {
      replies := replies[r := reply];
      if Counter(latest, r.key) != r.number {
        return;
      }
      shown := shown[r.key := reply];
      from := from[r.key := r.number];
    }
  }

  function ListBegun(s: Lists, key: Key): Lists {
    s.(latest := s.latest[key := Counter(s.latest, key) + 1])
  }

  function ListReplied(s: Lists, r: Request, reply: Reply): Lists {
    var t := s.(replies := s.replies[r := reply]);
    if Counter(s.latest, r.key) != r.number then t else t.(shown := s.shown[r.key := reply], from := s.from[r.key := r.number])
  }

  datatype ListStep = Ask(key: Key) | Come(request: Request, reply: Reply)

  function ListNext(s: Lists, step: ListStep): Lists {
    match step
    case Ask(key) => ListBegun(s, key)
    case Come(r, reply) =>
      if 0 < r.number <= Counter(s.latest, r.key) && r !in s.replies then ListReplied(s, r, reply) else s
  }

  function ListAfter(s: Lists, steps: seq<ListStep>): Lists
    decreases |steps|
  {
    if steps == [] then s else ListNext(ListAfter(s, steps[..|steps| - 1]), steps[|steps| - 1])
  }

  /** What is shown is the reply to the request it is said to come from. */
  ghost predicate ShownOk(s: Lists, key: Key)
    requires key in s.shown && key in s.from
  {
    var r := Request(key, s.from[key]);
    s.from[key] <= Counter(s.latest, key) && r in s.replies && s.replies[r] == s.shown[key]
  }

  ghost predicate ListSafe(s: Lists) {
    && s.shown.Keys == s.from.Keys
    && (forall key :: key in s.shown ==> ShownOk(s, key))
    && (forall r :: r in s.replies ==> 0 < r.number <= Counter(s.latest, r.key))
    && (forall r :: r in s.replies && r.number == Counter(s.latest, r.key) ==> r.key in s.shown && s.from[r.key] == r.number)
  }

  lemma ListNextSafe(s: Lists, step: ListStep)
    requires ListSafe(s)
    ensures ListSafe(ListNext(s, step))
    ensures forall key :: key in s.from ==> key in ListNext(s, step).from && s.from[key] <= ListNext(s, step).from[key]
  {
    match step
    case Ask(key) =>
    case Come(r, reply) =>
      if 0 < r.number <= Counter(s.latest, r.key) && r !in s.replies {
        ListRepliedSafe(s, r, reply);
        ListForward(s, r, reply);
      }
  }

  lemma ListForward(s: Lists, r: Request, reply: Reply)
    requires ListSafe(s) && 0 < r.number <= Counter(s.latest, r.key) && r !in s.replies
    ensures forall key :: key in s.from ==> key in ListReplied(s, r, reply).from && s.from[key] <= ListReplied(s, r, reply).from[key]
  {
  }

  lemma ListRepliedSafe(s: Lists, r: Request, reply: Reply)
    requires ListSafe(s) && 0 < r.number <= Counter(s.latest, r.key) && r !in s.replies
    ensures ListSafe(ListReplied(s, r, reply))
  {
    var u := ListReplied(s, r, reply);
    forall key | key in u.shown ensures ShownOk(u, key) {
      assert key == r.key || ShownOk(s, key);
      assert key in s.shown ==> ShownOk(s, key);
    }
  }

  lemma {:induction false} ListAfterSafe(s: Lists, steps: seq<ListStep>)
    requires ListSafe(s)
    ensures ListSafe(ListAfter(s, steps))
    ensures forall key :: key in s.from ==> key in ListAfter(s, steps).from && s.from[key] <= ListAfter(s, steps).from[key]
    decreases |steps|
  {
    if steps != [] {
      ListAfterSafe(s, steps[..|steps| - 1]);
      ListNextSafe(ListAfter(s, steps[..|steps| - 1]), steps[|steps| - 1]);
    }
  }

  /** A project's requests are numbered as they are made. */
  lemma {:induction false} AskedCount(steps: seq<ListStep>, key: Key)
    ensures Counter(ListAfter(NO_LISTS, steps).latest, key) == multiset(steps)[Ask(key)]
    decreases |steps|
  {
    if steps != [] {
      var n := |steps| - 1;
      AskedCount(steps[..n], key);
      assert steps == steps[..n] + [steps[n]];
    }
  }

  /** The first reply to a request that was made is taken, for good. */
  lemma {:induction false} ListReplyIsTaken(steps: seq<ListStep>, i: nat)
    requires i < |steps| && steps[i].Come?
    requires var r := steps[i].request;
             0 < r.number <= multiset(steps[..i])[Ask(r.key)] && forall j :: 0 <= j < i ==> !(steps[j].Come? && steps[j].request == r)
    ensures var s := ListAfter(NO_LISTS, steps); steps[i].request in s.replies && s.replies[steps[i].request] == steps[i].reply
    decreases |steps|
  {
    var n := |steps| - 1;
    var s, r := ListAfter(NO_LISTS, steps[..n]), steps[i].request;
    assert ListAfter(NO_LISTS, steps) == ListNext(s, steps[n]);
    if i < n {
      assert steps[..n][..i] == steps[..i];
      ListReplyIsTaken(steps[..n], i);
    } else {
      AskedCount(steps[..n], r.key);
      NotTakenBefore(steps[..n], r);
    }
  }

  lemma {:induction false} NotTakenBefore(steps: seq<ListStep>, r: Request)
    requires forall j :: 0 <= j < |steps| ==> !(steps[j].Come? && steps[j].request == r)
    ensures r !in ListAfter(NO_LISTS, steps).replies
    decreases |steps|
  {
    if steps != [] {
      NotTakenBefore(steps[..|steps| - 1], r);
    }
  }

  /** A project shows the reply to its latest request once there is one, and never goes back. */
  lemma ListIsLatest(steps: seq<ListStep>, more: seq<ListStep>, key: Key)
    ensures var s := ListAfter(NO_LISTS, steps);
            var u := ListAfter(s, more);
            && (Request(key, Counter(s.latest, key)) in s.replies ==>
                  key in s.shown && s.shown[key] == s.replies[Request(key, Counter(s.latest, key))])
            && (key in s.from ==> key in u.from && s.from[key] <= u.from[key])
  {
    ListAfterSafe(NO_LISTS, steps);
    ListAfterSafe(ListAfter(NO_LISTS, steps), more);
  }
}
