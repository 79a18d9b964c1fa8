/**
 Git's NUL-separated outputs: printing change records the way `git diff --name-status -z`,
 `git status --porcelain=v2 -z` and `git diff --numstat -z` do, and parsing them.
 */
module GitRecords {
  import opened Options
  import opened Text

  const NUL := '\0'

  datatype ChangeKind = Added | Modified | Deleted | Renamed | Untracked | Conflicted

  datatype FileChange = FileChange(path: string, oldPath: Option<string>, kind: ChangeKind, additions: Option<nat>, deletions: Option<nat>)

  function Change(path: string, oldPath: Option<string>, kind: ChangeKind): FileChange {
    FileChange(path, oldPath, kind, None, None)
  }

  // ---- Fields ----

  /** Each field followed by a NUL. */
  function Terminated(fields: seq<string>): string {
    if fields == [] then "" else fields[0] + [NUL] + Terminated(fields[1..])
  }

  function NonEmpty(fields: seq<string>): seq<string> {
    if fields == [] then []
    else if fields[0] == "" then NonEmpty(fields[1..])
    else [fields[0]] + NonEmpty(fields[1..])
  }

  predicate IsField(field: string) {
    field != "" && Free(field, NUL)
  }

  lemma SplitTerminatedFirst(fields: seq<string>)
    requires fields != [] && Free(fields[0], NUL)
    requires Split(Terminated(fields[1..]), NUL) == fields[1..] + [""]
    ensures Split(Terminated(fields), NUL) == [fields[0]] + (fields[1..] + [""])
  {
    SplitFirst(fields[0], NUL, Terminated(fields[1..]));
  }

  lemma {:induction false} SplitTerminated(fields: seq<string>)
    requires forall i :: 0 <= i < |fields| ==> Free(fields[i], NUL)
    ensures Split(Terminated(fields), NUL) == fields + [""]
    decreases |fields|
  {
    if fields == [] {
      assert fields + [""] == [""];
    } else {
      SplitTerminated(fields[1..]);
      SplitTerminatedFirst(fields);
      FirstAndRest(fields, [""]);
    }
  }

  lemma FirstAndRest<T>(items: seq<T>, last: seq<T>)
    requires items != []
    ensures [items[0]] + (items[1..] + last) == items + last
  {
  }

  lemma {:induction false} NonEmptyKeeps(fields: seq<string>)
    requires forall i :: 0 <= i < |fields| ==> fields[i] != ""
    ensures NonEmpty(fields + [""]) == fields
    decreases |fields|
  {
    if fields != [] {
      assert (fields + [""])[1..] == fields[1..] + [""];
      NonEmptyKeeps(fields[1..]);
    } else {
      assert (fields + [""])[1..] == [];
    }
  }

  // ---- `git diff --name-status -z` ----

  function KindOf(letter: char): ChangeKind {
    if letter == 'A' || letter == 'C' then Added
    else if letter == 'D' then Deleted
    else if letter == 'R' then Renamed
    else if letter == 'U' then Conflicted
    else Modified
  }

  function NameStatus(fields: seq<string>): seq<FileChange>
    requires forall i :: 0 <= i < |fields| ==> fields[i] != ""
    decreases |fields|
  {
    if |fields| < 2 then []
    else
      var letter := fields[0][0];
      if letter == 'R' || letter == 'C' then
        if |fields| < 3 then []
        else [Change(fields[2], if letter == 'R' then Some(fields[1]) else None, KindOf(letter))] + NameStatus(fields[3..])
      else
        [Change(fields[1], None, KindOf(letter))] + NameStatus(fields[2..])
  }

  lemma {:induction false} NonEmptyFields(fields: seq<string>)
    ensures forall i :: 0 <= i < |NonEmpty(fields)| ==> NonEmpty(fields)[i] != ""
    decreases |fields|
  {
    if fields != [] {
      NonEmptyFields(fields[1..]);
    }
  }

  /** Where the record at `i` ends, if its paths are there. */
  function NameStatusEnd(fields: seq<string>, i: nat): Option<nat>
    requires i < |fields| && fields[i] != ""
  {
    var end := if fields[i][0] == 'R' || fields[i][0] == 'C' then i + 3 else i + 2;
    if end <= |fields| then Some(end) else None
  }

  lemma NameStatusStep(fields: seq<string>, i: nat, before: seq<FileChange>)
    requires forall i :: 0 <= i < |fields| ==> fields[i] != ""
    requires i < |fields|
    ensures var end, letter := NameStatusEnd(fields, i), fields[i][0];
            before + NameStatus(fields[i..]) ==
            if end.None? then before
            else before + [Change(fields[end.value - 1], if letter == 'R' then Some(fields[i + 1]) else None, KindOf(letter))]
                 + NameStatus(fields[end.value..])
  {
    var rest, end, letter := fields[i..], NameStatusEnd(fields, i), fields[i][0];
    assert rest[0][0] == letter;
    if end.Some? {
      assert rest[end.value - i..] == fields[end.value..];
      Regroup(before, [Change(fields[end.value - 1], if letter == 'R' then Some(fields[i + 1]) else None, KindOf(letter))],
              NameStatus(fields[end.value..]));
    }
  }

  method ParseNameStatus(output: string) returns (changes: seq<FileChange>)
    ensures forall i :: 0 <= i < |NonEmpty(Split(output, NUL))| ==> NonEmpty(Split(output, NUL))[i] != ""
    ensures changes == NameStatus(NonEmpty(Split(output, NUL)))
  {
    var fields := NonEmpty(Split(output, NUL));
    NonEmptyFields(Split(output, NUL));
    changes := [];
    var i := 0;
    while i < |fields|
      invariant 0 <= i <= |fields|
      invariant changes + NameStatus(fields[i..]) == NameStatus(fields)
    {
      NameStatusStep(fields, i, changes);
      var letter := fields[i][0];
      if i + 1 >= |fields| {
        break;
      }
      var path := fields[i + 1];
      var oldPath: Option<string> := None;
      var next := i + 2;
      if letter == 'R' || letter == 'C' {
        if i + 2 >= |fields| {
          break;
        }
        path := fields[i + 2];
        oldPath := if letter == 'R' then Some(fields[i + 1]) else None;
        next := i + 3;
      }
      changes := changes + [Change(path, oldPath, KindOf(letter))];
      i := next;
    }
  }

  /** A record of a diff between two trees. */
  datatype DiffRecord =
    | Plain(letter: char, path: string)
    | Moved(copied: bool, score: string, from: string, path: string)

  ghost predicate DiffOk(r: DiffRecord) {
    && IsField(r.path)
    && match r
       case Plain(letter, _) => letter != 'R' && letter != 'C' && letter != NUL
       case Moved(_, score, from, _) => Free(score, NUL) && IsField(from)
  }

  function NameStatusFields(r: DiffRecord): seq<string> {
    match r
    case Plain(letter, path) => [[letter], path]
    case Moved(copied, score, from, path) => [[if copied then 'C' else 'R'] + score, from, path]
  }

  function FieldsOf<T>(records: seq<T>, fields: T -> seq<string>): seq<string> {
    if records == [] then [] else fields(records[0]) + FieldsOf(records[1..], fields)
  }

  function PrintNameStatus(records: seq<DiffRecord>): string {
    Terminated(FieldsOf(records, NameStatusFields))
  }

  /** What the record says, before its lines are counted; a type change, say, is a modification. */
  function Says(r: DiffRecord): FileChange {
    match r
    case Plain(letter, path) =>
      FileChange(path, None, if letter == 'A' then Added else if letter == 'D' then Deleted else if letter == 'U' then Conflicted else Modified, None, None)
    case Moved(copied, _, from, path) => if copied then FileChange(path, None, Added, None, None) else FileChange(path, Some(from), Renamed, None, None)
  }

  function SaysAll(records: seq<DiffRecord>): (changes: seq<FileChange>)
    ensures |changes| == |records|
    ensures forall i :: 0 <= i < |records| ==> changes[i] == Says(records[i])
  {
    seq(|records|, i requires 0 <= i < |records| => Says(records[i]))
  }

  lemma {:induction false} NameStatusFieldsOk(records: seq<DiffRecord>)
    requires forall i :: 0 <= i < |records| ==> DiffOk(records[i])
    ensures var fields := FieldsOf(records, NameStatusFields);
            && (forall i :: 0 <= i < |fields| ==> IsField(fields[i]))
            && NameStatus(fields) == SaysAll(records)
    decreases |records|
  {
    if records != [] {
      var rest := FieldsOf(records[1..], NameStatusFields);
      NameStatusFieldsOk(records[1..]);
      assert forall i :: 0 <= i < |rest| ==> IsField(rest[i]);
      NameStatusFirst(records[0], rest);
      assert [Says(records[0])] + SaysAll(records[1..]) == SaysAll(records);
    }
  }

  lemma NameStatusFirst(r: DiffRecord, rest: seq<string>)
    requires DiffOk(r) && forall i :: 0 <= i < |rest| ==> IsField(rest[i]) && rest[i] != ""
    ensures var fields := NameStatusFields(r) + rest;
            && (forall i :: 0 <= i < |fields| ==> IsField(fields[i]) && fields[i] != "")
            && NameStatus(fields) == [Says(r)] + NameStatus(rest)
  {
    var first := NameStatusFields(r);
    assert forall i :: 0 <= i < |first| ==> IsField(first[i]);
    assert (first + rest)[|first|..] == rest;
  }

  /** Change records come back from their printed form, in order. */
  lemma NameStatusRoundTrip(records: seq<DiffRecord>)
    requires forall i :: 0 <= i < |records| ==> DiffOk(records[i])
    ensures var fields := NonEmpty(Split(PrintNameStatus(records), NUL));
            (forall i :: 0 <= i < |fields| ==> fields[i] != "") && NameStatus(fields) == SaysAll(records)
  {
    var fields := FieldsOf(records, NameStatusFields);
    NameStatusFieldsOk(records);
    SplitTerminated(fields);
    NonEmptyKeeps(fields);
  }

  // ---- `git diff --numstat -z` ----

  datatype Stat = Stat(path: string, added: Option<nat>, deleted: Option<nat>)

  function NumStat(fields: seq<string>): seq<Stat>
    decreases |fields|
  {
    if fields == [] then []
    else if fields[0] == "" then NumStat(fields[1..])
    else
      var columns := SplitN(fields[0], '\t', 3);
      if |columns| < 2 then NumStat(fields[1..])
      else if |columns| == 3 && columns[2] != "" then
        [Stat(columns[2], ParseU32(columns[0]), ParseU32(columns[1]))] + NumStat(fields[1..])
      else if |fields| < 3 then []
      else [Stat(fields[2], ParseU32(columns[0]), ParseU32(columns[1]))] + NumStat(fields[3..])
  }

  method ParseNumStat(output: string) returns (stats: seq<Stat>)
    ensures stats == NumStat(Split(output, NUL))
  {
    var fields := Split(output, NUL);
    stats := [];
    var i := 0;
    while i < |fields|
      invariant 0 <= i <= |fields|
      invariant stats + NumStat(fields[i..]) == NumStat(fields)
    {
      var stat, next := ReadStat(fields, i);
      var more := if stat.Some? then [stat.value] else [];
      Regroup(stats, more, NumStat(fields[next..]));
      stats, i := stats + more, next;
    }
  }

  lemma Regroup<T>(a: seq<T>, b: seq<T>, c: seq<T>)
    ensures a + (b + c) == a + b + c
  {
  }

  /** One turn of the loop: the stat it adds, if any, and the field it goes on with. */
  method ReadStat(fields: seq<string>, i: nat) returns (stat: Option<Stat>, next: nat)
    requires i < |fields|
    ensures i < next <= |fields|
    ensures NumStat(fields[i..]) == (if stat.Some? then [stat.value] else []) + NumStat(fields[next..])
  {
    Following(fields, i);
    if fields[i] == "" {
      return None, i + 1;
    }
    var columns := SplitN(fields[i], '\t', 3);
    if |columns| < 2 {
      return None, i + 1;
    }
    if |columns| == 3 && columns[2] != "" {
      return Some(Stat(columns[2], ParseU32(columns[0]), ParseU32(columns[1]))), i + 1;
    }
    if i + 2 >= |fields| {
      return None, |fields|;
    }
    return Some(Stat(fields[i + 2], ParseU32(columns[0]), ParseU32(columns[1]))), i + 3;
  }

  lemma Following(fields: seq<string>, i: nat)
    requires i < |fields|
    ensures fields[i..][0] == fields[i] && fields[i..][1..] == fields[i + 1..]
    ensures i + 2 < |fields| ==> fields[i..][2] == fields[i + 2] && fields[i..][3..] == fields[i + 3..]
  {
  }

  /**
   Whatever the first two columns of a field say, they are its counts, and its path is the third; or,
   where that is missing or empty, the second of the two fields behind it, if they are there. A field
   of one column is passed over.
   */
  lemma ColumnsRead(a: string, b: string, path: string, rest: seq<string>)
    requires Free(a, '\t') && Free(b, '\t')
    ensures path != "" ==> NumStat([a + "\t" + b + "\t" + path] + rest) == [Stat(path, ParseU32(a), ParseU32(b))] + NumStat(rest)
    ensures forall line :: line == a + "\t" + b || line == a + "\t" + b + "\t" ==>
              NumStat([line] + rest) == if |rest| < 2 then [] else [Stat(rest[1], ParseU32(a), ParseU32(b))] + NumStat(rest[2..])
    ensures NumStat([a] + rest) == NumStat(rest)
  {
    hide NumStat, ParseU32, SplitN;
    PathRead(a, b, path);
    StatFirst(a + "\t" + b + "\t" + path, rest);
    StatFirst(a + "\t" + b, rest);
    StatFirst(a + "\t" + b + "\t", rest);
    StatFirst(a, rest);
    NoPathRead(a, b);
    SplitsWhole(a);
  }

  /** What `NumStat` makes of its first field, by that field's columns. */
  lemma StatFirst(line: string, rest: seq<string>)
    ensures var columns := SplitN(line, '\t', 3);
            NumStat([line] + rest) ==
            if |columns| == 3 && columns[2] != "" then [Stat(columns[2], ParseU32(columns[0]), ParseU32(columns[1]))] + NumStat(rest)
            else if line == "" || |columns| == 1 then NumStat(rest)
            else if |rest| < 2 then []
            else [Stat(rest[1], ParseU32(columns[0]), ParseU32(columns[1]))] + NumStat(rest[2..])
  {
    var fields := [line] + rest;
    assert fields[1..] == rest && (|rest| >= 2 ==> fields[3..] == rest[2..] && fields[2] == rest[1]);
    hide SplitN, ParseU32;
    assert line == "" ==> |SplitN(line, '\t', 3)| == 1 by {
      assert IndexOf("", '\t') == 0;
      SplitsWhole("");
    }
  }

  lemma SplitsWhole(text: string)
    requires Free(text, '\t')
    ensures SplitN(text, '\t', 3) == [text]
  {
    IndexOfNone(text, '\t');
  }

  lemma PathRead(a: string, b: string, path: string)
    requires Free(a, '\t') && Free(b, '\t')
    ensures SplitN(a + "\t" + b + "\t" + path, '\t', 3) == [a, b, path]
  {
    assert a + "\t" + b + "\t" + path == a + ['\t'] + (b + ['\t'] + path);
    SplitNFirst(a, '\t', b + ['\t'] + path, 3);
    SplitNFirst(b, '\t', path, 2);
  }

  lemma NoPathRead(a: string, b: string)
    requires Free(a, '\t') && Free(b, '\t')
    ensures SplitN(a + "\t" + b, '\t', 3) == [a, b] && SplitN(a + "\t" + b + "\t", '\t', 3) == [a, b, ""]
  {
    PathRead(a, b, "");
    assert a + "\t" + b + "\t" == a + "\t" + b + "\t" + "";
    SplitNFirst(a, '\t', b, 3);
    IndexOfNone(b, '\t');
  }

  datatype Counted = Counted(record: DiffRecord, added: Option<nat>, deleted: Option<nat>)

  ghost predicate CountOk(count: Option<nat>) {
    count.Some? ==> count.value < U32_END
  }

  ghost predicate CountedOk(c: Counted) {
    DiffOk(c.record) && CountOk(c.added) && CountOk(c.deleted)
  }

  /** Lines added or deleted; a dash for a binary file. */
  function Count(count: Option<nat>): string {
    match count
    case Some(n) => Decimal(n)
    case None => "-"
  }

  function NumStatFields(c: Counted): seq<string> {
    var numbers := Count(c.added) + "\t" + Count(c.deleted) + "\t";
    match c.record
    case Plain(_, path) => [numbers + path]
    case Moved(_, _, from, path) => [numbers, from, path]
  }

  function PrintNumStat(records: seq<Counted>): string {
    Terminated(FieldsOf(records, NumStatFields))
  }

  function StatOf(c: Counted): Stat {
    Stat(c.record.path, c.added, c.deleted)
  }

  function StatsOf(records: seq<Counted>): (stats: seq<Stat>)
    ensures |stats| == |records|
    ensures forall i :: 0 <= i < |records| ==> stats[i] == StatOf(records[i])
  {
    seq(|records|, i requires 0 <= i < |records| => StatOf(records[i]))
  }

  lemma CountReads(count: Option<nat>)
    requires CountOk(count)
    ensures ParseU32(Count(count)) == count && Free(Count(count), '\t') && Free(Count(count), NUL)
  {
    match count
    case Some(n) => ParseDecimal(n);
    case None =>
  }

  lemma ColumnsOf(c: Counted, tail: string)
    requires CountedOk(c)
    ensures SplitN(Count(c.added) + "\t" + Count(c.deleted) + "\t" + tail, '\t', 3) == [Count(c.added), Count(c.deleted), tail]
  {
    CountReads(c.added);
    CountReads(c.deleted);
    var rest := Count(c.deleted) + "\t" + tail;
    assert Count(c.added) + "\t" + Count(c.deleted) + "\t" + tail == Count(c.added) + "\t" + rest;
    SplitNFirst(Count(c.added), '\t', rest, 3);
    SplitNFirst(Count(c.deleted), '\t', tail, 2);
    assert [Count(c.added)] + ([Count(c.deleted)] + [tail]) == [Count(c.added), Count(c.deleted), tail];
  }

  lemma NumStatReads(c: Counted, rest: seq<string>)
    requires CountedOk(c)
    ensures NumStat(NumStatFields(c) + rest) == [StatOf(c)] + NumStat(rest)
  {
    var fields := NumStatFields(c) + rest;
    var numbers := Count(c.added) + "\t" + Count(c.deleted) + "\t";
    CountReads(c.added);
    CountReads(c.deleted);
    match c.record {
      case Plain(_, path) =>
        ColumnsOf(c, path);
        assert fields[1..] == rest;
      case Moved(_, _, from, path) =>
        ColumnsOf(c, "");
        assert numbers + "" == numbers;
        assert fields[3..] == rest;
    }
  }

  lemma NumStatFieldsFree(c: Counted)
    requires CountedOk(c)
    ensures forall i :: 0 <= i < |NumStatFields(c)| ==> Free(NumStatFields(c)[i], NUL)
  {
    CountReads(c.added);
    CountReads(c.deleted);
  }

  lemma {:induction false} NumStatFieldsOk(records: seq<Counted>)
    requires forall i :: 0 <= i < |records| ==> CountedOk(records[i])
    ensures var fields := FieldsOf(records, NumStatFields);
            && (forall i :: 0 <= i < |fields| ==> Free(fields[i], NUL))
            && NumStat(fields + [""]) == StatsOf(records)
    decreases |records|
  {
    if records == [] {
      assert ([] + [""])[1..] == [];
    } else {
      var first := NumStatFields(records[0]);
      var rest := FieldsOf(records[1..], NumStatFields);
      NumStatFieldsOk(records[1..]);
      NumStatFieldsFree(records[0]);
      NumStatReads(records[0], rest + [""]);
      assert first + rest + [""] == first + (rest + [""]);
      assert [StatOf(records[0])] + StatsOf(records[1..]) == StatsOf(records);
    }
  }

  /** Line counts come back from their printed form, in order, tabs and spaces in the paths included. */
  lemma NumStatRoundTrip(records: seq<Counted>)
    requires forall i :: 0 <= i < |records| ==> CountedOk(records[i])
    ensures NumStat(Split(PrintNumStat(records), NUL)) == StatsOf(records)
  {
    NumStatFieldsOk(records);
    SplitTerminated(FieldsOf(records, NumStatFields));
  }

  // ---- `with_stats` ----

  /** The first stat of a path. */
  function Find(stats: seq<Stat>, path: string): Option<Stat> {
    if stats == [] then None
    else if stats[0].path == path then Some(stats[0])
    else Find(stats[1..], path)
  }

  function WithStat(change: FileChange, stats: seq<Stat>): FileChange {
    match Find(stats, change.path)
    case Some(stat) => change.(additions := stat.added, deletions := stat.deleted)
    case None => change
  }

  method WithStats(changes: seq<FileChange>, stats: seq<Stat>) returns (joined: seq<FileChange>)
    ensures |joined| == |changes|
    ensures forall i :: 0 <= i < |changes| ==> joined[i] == WithStat(changes[i], stats)
  {
    joined := changes;
    for i := 0 to |changes|
      invariant |joined| == |changes|
      invariant forall j :: 0 <= j < i ==> joined[j] == WithStat(changes[j], stats)
      invariant forall j :: i <= j < |changes| ==> joined[j] == changes[j]
    {
      var found := Find(stats, joined[i].path);
      if found.Some? {
        joined := joined[i := joined[i].(additions := found.value.added, deletions := found.value.deleted)];
      }
    }
  }

  lemma {:induction false} FindOwn(records: seq<Counted>, stats: seq<Stat>, i: nat)
    requires i < |records| && stats == StatsOf(records)
    requires forall j :: 0 <= j < i ==> records[j].record.path != records[i].record.path
    ensures Find(stats, records[i].record.path) == Some(StatOf(records[i]))
    decreases i
  {
    if i > 0 {
      assert stats[0].path == records[0].record.path;
      assert stats[1..] == StatsOf(records[1..]);
      FindOwn(records[1..], stats[1..], i - 1);
    }
  }

  function RecordsOf(counted: seq<Counted>): (records: seq<DiffRecord>)
    ensures |records| == |counted|
    ensures forall i :: 0 <= i < |counted| ==> records[i] == counted[i].record
  {
    seq(|counted|, i requires 0 <= i < |counted| => counted[i].record)
  }

  /**
   A diff's two outputs, printed, parsed and joined, give every distinct path its own kind, its own
   old path and its own line counts.
   */
  method JoinedOutputs(counted: seq<Counted>) returns (joined: seq<FileChange>)
    requires forall i :: 0 <= i < |counted| ==> CountedOk(counted[i])
    requires forall i, j :: 0 <= i < j < |counted| ==> counted[i].record.path != counted[j].record.path
    ensures |joined| == |counted|
    ensures forall i :: 0 <= i < |counted| ==>
              joined[i] == Says(counted[i].record).(additions := counted[i].added, deletions := counted[i].deleted)
  {
    var records := RecordsOf(counted);
    NameStatusRoundTrip(records);
    NumStatRoundTrip(counted);
    var changes := ParseNameStatus(PrintNameStatus(records));
    var stats := ParseNumStat(PrintNumStat(counted));
    joined := WithStats(changes, stats);
    forall i | 0 <= i < |counted|
      ensures joined[i] == Says(counted[i].record).(additions := counted[i].added, deletions := counted[i].deleted)
    {
      FindOwn(counted, stats, i);
      assert changes[i] == Says(records[i]);
    }
  }
}
