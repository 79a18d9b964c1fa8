/**
 `git status --porcelain=v2 -z`: one record for each changed path, a rename's old path in a record
 of its own behind it, and the changes sorted by path.
 */
module GitStatus {
  import opened GitRecords
  import opened Options
  import opened Text

  /** `XY` is index and worktree state; whichever says more wins. */
  function KindFromXY(xy: string): ChangeKind {
    if 'D' in xy then Deleted else if 'A' in xy then Added else Modified
  }

  /** The record after its first word, and that word; `None` without a space. */
  function Tagged(record: string): Option<(string, string)> {
    var at := IndexOf(record, ' ');
    if at == |record| then None else Some((record[..at], record[at + 1..]))
  }

  /** What one record says, given the one behind it. */
  function ReadRecord(record: string, next: Option<string>): Option<FileChange> {
    match Tagged(record)
    case None => None
    case Some((tag, rest)) =>
      if tag == "1" then
        var parts := SplitN(rest, ' ', 8);
        if |parts| == 8 then Some(Change(parts[7], None, KindFromXY(parts[0]))) else None
      else if tag == "2" then
        var parts := SplitN(rest, ' ', 9);
        if |parts| == 9 then Some(Change(parts[8], next, Renamed)) else None
      else if tag == "u" then
        var parts := SplitN(rest, ' ', 10);
        if |parts| == 10 then Some(Change(parts[9], None, Conflicted)) else None
      else if tag == "?" then Some(Change(rest, None, Untracked))
      else None
  }

  predicate HasOldPath(record: string) {
    Tagged(record).Some? && Tagged(record).value.0 == "2"
  }

  function Listed(change: Option<FileChange>): seq<FileChange> {
    if change.Some? then [change.value] else []
  }

  function Status(records: seq<string>): seq<FileChange>
    decreases |records|
  {
    if records == [] then []
    else if HasOldPath(records[0]) then
      if |records| == 1 then Listed(ReadRecord(records[0], None))
      else Listed(ReadRecord(records[0], Some(records[1]))) + Status(records[2..])
    else Listed(ReadRecord(records[0], None)) + Status(records[1..])
  }

  // ---- Sorting by path ----

  predicate Before(a: string, b: string) {
    if a == "" then true
    else if b == "" then false
    else a[0] < b[0] || (a[0] == b[0] && Before(a[1..], b[1..]))
  }

  /** They agree up to `k`, where `a` ends or has the lower character. */
  ghost predicate IsBelowAt(a: string, b: string, k: nat) {
    k <= |a| && k <= |b| && a[..k] == b[..k] && (k == |a| || (k < |b| && a[k] < b[k]))
  }

  /** Paths are ordered as texts are: by the first character in which they differ, a shorter one first. */
  lemma {:induction false} BeforeIff(a: string, b: string)
    ensures Before(a, b) <==> exists k: nat :: IsBelowAt(a, b, k)
    decreases |a|
  {
    if a == "" {
      assert IsBelowAt(a, b, 0);
    } else if b != "" && a[0] == b[0] {
      BeforeIff(a[1..], b[1..]);
      assert a == [a[0]] + a[1..] && b == [b[0]] + b[1..];
      if Before(a[1..], b[1..]) {
        var k: nat :| IsBelowAt(a[1..], b[1..], k);
        assert a[..k + 1] == [a[0]] + a[1..][..k] && b[..k + 1] == [b[0]] + b[1..][..k];
        assert IsBelowAt(a, b, k + 1);
      }
      if k: nat :| IsBelowAt(a, b, k) {
        assert k > 0;
        assert a[1..][..k - 1] == a[..k][1..] && b[1..][..k - 1] == b[..k][1..];
        assert IsBelowAt(a[1..], b[1..], k - 1);
      }
    } else if b != "" {
      assert a[0] < b[0] ==> IsBelowAt(a, b, 0);
      forall k: nat | IsBelowAt(a, b, k) ensures a[0] < b[0] {
        assert k > 0 ==> a[..k][0] == b[..k][0];
      }
    }
  }

  lemma {:induction false} BeforeTotal(a: string, b: string)
    ensures Before(a, b) || Before(b, a)
    ensures Before(a, b) && Before(b, a) ==> a == b
    decreases |a|
  {
    if a != "" && b != "" && a[0] == b[0] {
      BeforeTotal(a[1..], b[1..]);
      assert a == [a[0]] + a[1..] && b == [b[0]] + b[1..];
    }
  }

  lemma {:induction false} BeforeTransitive(a: string, b: string, c: string)
    requires Before(a, b) && Before(b, c)
    ensures Before(a, c)
    decreases |a|
  {
    if a != "" && a[0] == b[0] == c[0] {
      BeforeTransitive(a[1..], b[1..], c[1..]);
    }
  }

  /** Stable: a change goes behind those already there with its path. */
  function Inserted(change: FileChange, sorted: seq<FileChange>): seq<FileChange> {
    if sorted == [] then [change]
    else if Before(sorted[0].path, change.path) then [sorted[0]] + Inserted(change, sorted[1..])
    else [change] + sorted
  }

  function SortedByPath(changes: seq<FileChange>): seq<FileChange>
    decreases |changes|
  {
    if changes == [] then [] else Inserted(changes[|changes| - 1], SortedByPath(changes[..|changes| - 1]))
  }

  ghost predicate IsSorted(changes: seq<FileChange>) {
    forall i, j :: 0 <= i < j < |changes| ==> Before(changes[i].path, changes[j].path)
  }

  /** The changes of one path, in their order. */
  ghost function Of(changes: seq<FileChange>, path: string): seq<FileChange>
    decreases |changes|
  {
    if changes == [] then []
    else if changes[0].path == path then [changes[0]] + Of(changes[1..], path)
    else Of(changes[1..], path)
  }

  lemma {:induction false} InsertedSorted(change: FileChange, sorted: seq<FileChange>)
    requires IsSorted(sorted)
    ensures IsSorted(Inserted(change, sorted))
    ensures forall c :: c in Inserted(change, sorted) <==> c == change || c in sorted
    decreases |sorted|
  {
    if sorted != [] {
      var first := sorted[0];
      if Before(first.path, change.path) {
        var rest := Inserted(change, sorted[1..]);
        InsertedSorted(change, sorted[1..]);
        forall j | 0 <= j < |rest| ensures Before(first.path, rest[j].path) {
          assert rest[j] in rest;
          if rest[j] != change {
            assert rest[j] in sorted[1..];
          }
        }
      } else {
        BeforeTotal(first.path, change.path);
        forall j | 0 <= j < |sorted| ensures Before(change.path, sorted[j].path) {
          if j > 0 {
            BeforeTransitive(change.path, first.path, sorted[j].path);
          }
        }
      }
    }
  }

  lemma {:induction false} OfAppended(changes: seq<FileChange>, change: FileChange, path: string)
    ensures Of(changes + [change], path) == Of(changes, path) + if change.path == path then [change] else []
    decreases |changes|
  {
    if changes == [] {
      assert (changes + [change])[1..] == [];
    } else {
      assert (changes + [change])[1..] == changes[1..] + [change];
      OfAppended(changes[1..], change, path);
    }
  }

  lemma {:induction false} OfBeyond(changes: seq<FileChange>, path: string)
    requires forall i :: 0 <= i < |changes| ==> changes[i].path != path
    ensures Of(changes, path) == []
    decreases |changes|
  {
    if changes != [] {
      OfBeyond(changes[1..], path);
    }
  }

  lemma {:induction false} OfInserted(change: FileChange, sorted: seq<FileChange>, path: string)
    requires IsSorted(sorted)
    ensures Of(Inserted(change, sorted), path) == Of(sorted, path) + if change.path == path then [change] else []
    decreases |sorted|
  {
    if sorted != [] {
      if Before(sorted[0].path, change.path) {
        OfInserted(change, sorted[1..], path);
      } else {
        assert ([change] + sorted)[1..] == sorted;
        if change.path == path {
          BeforeTotal(path, path);
          assert forall i :: 0 < i < |sorted| ==> Before(sorted[0].path, sorted[i].path);
          OfBeyond(sorted, path);
        }
      }
    }
  }

  /** Sorting keeps every path's changes, in their order, and puts the paths in order. */
  lemma {:induction false} SortedByPathIsSorted(changes: seq<FileChange>)
    ensures IsSorted(SortedByPath(changes))
    ensures forall path :: Of(SortedByPath(changes), path) == Of(changes, path)
    decreases |changes|
  {
    if changes != [] {
      var n := |changes| - 1;
      SortedByPathIsSorted(changes[..n]);
      InsertedSorted(changes[n], SortedByPath(changes[..n]));
      forall path ensures Of(SortedByPath(changes), path) == Of(changes, path) {
        OfInserted(changes[n], SortedByPath(changes[..n]), path);
        OfAppended(changes[..n], changes[n], path);
        assert changes[..n] + [changes[n]] == changes;
      }
    }
  }

  /** The record a rename takes with it: its old path, if there is one more record. */
  function OldPathFor(records: seq<string>, i: nat): Option<string>
    requires i < |records|
  {
    if HasOldPath(records[i]) && i + 1 < |records| then Some(records[i + 1]) else None
  }

  function Following(records: seq<string>, i: nat): (next: nat)
    requires i < |records|
    ensures i < next <= |records|
  {
    if OldPathFor(records, i).Some? then i + 2 else i + 1
  }

  lemma StatusStep(records: seq<string>, i: nat, before: seq<FileChange>)
    requires i < |records|
    ensures before + Status(records[i..]) ==
            before + Listed(ReadRecord(records[i], OldPathFor(records, i))) + Status(records[Following(records, i)..])
  {
    var rest := records[i..];
    assert rest[1..] == records[i + 1..];
    if i + 1 < |records| {
      assert rest[2..] == records[i + 2..];
    } else {
      assert rest[1..] == [];
    }
    Regroup(before, Listed(ReadRecord(records[i], OldPathFor(records, i))), Status(records[Following(records, i)..]));
  }

  /** The loop of `parse_status`. */
  method ReadRecords(records: seq<string>) returns (changes: seq<FileChange>)
    ensures changes == Status(records)
  {
    changes := [];
    var i := 0;
    while i < |records|
      invariant 0 <= i <= |records|
      invariant changes + Status(records[i..]) == Status(records)
    {
      StatusStep(records, i, changes);
      var next := Following(records, i);
      changes := changes + Listed(ReadRecord(records[i], OldPathFor(records, i)));
      i := next;
    }
  }

  /** `parse_status`. */
  method ParseStatus(output: string) returns (changes: seq<FileChange>)
    ensures changes == SortedByPath(Status(NonEmpty(Split(output, NUL))))
  {
    changes := ReadRecords(NonEmpty(Split(output, NUL)));
    changes := SortedByPath(changes);
  }

  // ---- Printing ----

  /** `fields` are the words between the two-letter state and the path. */
  datatype StatusRecord =
    | Ordinary(xy: string, fields: seq<string>, path: string)
    | Moved(xy: string, fields: seq<string>, path: string, from: string)
    | Unmerged(xy: string, fields: seq<string>, path: string)
    | New(path: string)
    | Ignored(path: string)
    | Header(text: string)

  ghost predicate WordsOk(xy: string, fields: seq<string>, n: nat) {
    && Free(xy, ' ') && Free(xy, NUL) && |fields| == n
    && forall i :: 0 <= i < n ==> Free(fields[i], ' ') && Free(fields[i], NUL)
  }

  ghost predicate RecordOk(r: StatusRecord) {
    match r
    case Ordinary(xy, fields, path) => WordsOk(xy, fields, 6) && IsField(path)
    case Moved(xy, fields, path, from) => WordsOk(xy, fields, 7) && IsField(path) && IsField(from)
    case Unmerged(xy, fields, path) => WordsOk(xy, fields, 8) && IsField(path)
    case New(path) => IsField(path)
    case Ignored(path) => IsField(path)
    case Header(text) => Free(text, NUL)
  }

  /** The words, each with a space behind it, and then the path. */
  function Line(words: seq<string>, path: string): string {
    if words == [] then path else words[0] + " " + Line(words[1..], path)
  }

  function StatusFields(r: StatusRecord): seq<string> {
    match r
    case Ordinary(xy, fields, path) => [Line(["1", xy] + fields, path)]
    case Moved(xy, fields, path, from) => [Line(["2", xy] + fields, path), from]
    case Unmerged(xy, fields, path) => [Line(["u", xy] + fields, path)]
    case New(path) => [Line(["?"], path)]
    case Ignored(path) => [Line(["!"], path)]
    case Header(text) => [Line(["#"], text)]
  }

  function PrintStatus(records: seq<StatusRecord>): string {
    Terminated(FieldsOf(records, StatusFields))
  }

  /** Deleted on either side is deleted, or else added on either is added, or else it is modified. */
  ghost function Meant(r: StatusRecord): Option<FileChange> {
    match r
    case Ordinary(xy, _, path) =>
      var kind := if 'D' in xy then Deleted else if 'A' in xy then Added else Modified;
      Some(FileChange(path, None, kind, None, None))
    case Moved(_, _, path, from) => Some(FileChange(path, Some(from), Renamed, None, None))
    case Unmerged(_, _, path) => Some(FileChange(path, None, Conflicted, None, None))
    case New(path) => Some(FileChange(path, None, Untracked, None, None))
    case _ => None
  }

  ghost function MeantAll(records: seq<StatusRecord>): seq<FileChange> {
    if records == [] then [] else Listed(Meant(records[0])) + MeantAll(records[1..])
  }

  // ---- Reading back what was printed ----

  /** A path keeps its spaces: the line is cut only at the words before it. */
  lemma {:induction false} LineSplits(words: seq<string>, path: string)
    requires forall i :: 0 <= i < |words| ==> Free(words[i], ' ')
    ensures SplitN(Line(words, path), ' ', |words| + 1) == words + [path]
    decreases |words|
  {
    if words != [] {
      SplitNFirst(words[0], ' ', Line(words[1..], path), |words| + 1);
      LineSplits(words[1..], path);
      assert [words[0]] + (words[1..] + [path]) == words + [path];
    }
  }

  lemma {:induction false} LineFree(words: seq<string>, path: string)
    requires (forall i :: 0 <= i < |words| ==> Free(words[i], NUL)) && Free(path, NUL)
    ensures Free(Line(words, path), NUL)
    decreases |words|
  {
    if words != [] {
      LineFree(words[1..], path);
    }
  }

  /** Nothing is read from a record of any other kind, or of too few fields. */
  lemma OnlyFourKindsAreRead(record: string, next: Option<string>)
    requires ReadRecord(record, next).Some?
    ensures |record| >= 2 && record[0] in {'1', '2', 'u', '?'} && record[1] == ' '
    ensures record[0] == '1' ==> |SplitN(record[2..], ' ', 8)| == 8
    ensures record[0] == '2' ==> |SplitN(record[2..], ' ', 9)| == 9
    ensures record[0] == 'u' ==> |SplitN(record[2..], ' ', 10)| == 10
  {
    var at := IndexOf(record, ' ');
    assert Tagged(record) == Some((record[..at], record[at + 1..]));
    assert |record[..at]| == 1 && record[..at][0] == record[0];
  }

  lemma TaggedLine(tag: string, words: seq<string>, path: string)
    requires Free(tag, ' ')
    ensures Tagged(Line([tag] + words, path)) == Some((tag, Line(words, path)))
  {
    assert ([tag] + words)[1..] == words;
    IndexOfFirst(tag, ' ', Line(words, path));
  }

  lemma WordsRead(tag: string, xy: string, fields: seq<string>, path: string)
    requires Free(tag, ' ') && tag != "" && WordsOk(xy, fields, |fields|) && Free(tag, NUL) && Free(path, NUL)
    ensures var line := Line([tag, xy] + fields, path);
            && Tagged(line) == Some((tag, Line([xy] + fields, path)))
            && SplitN(Line([xy] + fields, path), ' ', |fields| + 2) == [xy] + fields + [path]
            && line != "" && Free(line, NUL)
  {
    var words := [xy] + fields;
    WordsFree(tag, xy, fields);
    TaggedLine(tag, words, path);
    LineSplits(words, path);
    LineFree([tag] + words, path);
  }

  lemma WordsFree(tag: string, xy: string, fields: seq<string>)
    requires WordsOk(xy, fields, |fields|) && Free(tag, NUL)
    ensures var words := [xy] + fields;
            && [tag] + words == [tag, xy] + fields
            && (forall i :: 0 <= i < |words| ==> Free(words[i], ' '))
            && forall i :: 0 <= i < |words| + 1 ==> Free(([tag] + words)[i], NUL)
  {
    var words := [xy] + fields;
    forall i | 0 <= i < |words| + 1 ensures Free(([tag] + words)[i], NUL) {
      assert i >= 2 ==> ([tag] + words)[i] == fields[i - 2];
    }
  }

  lemma SimpleRead(tag: string, path: string)
    requires Free(tag, ' ') && tag != "" && Free(tag, NUL) && Free(path, NUL)
    ensures Tagged(Line([tag], path)) == Some((tag, path)) && Line([tag], path) != "" && Free(Line([tag], path), NUL)
  {
    assert [tag] + [] == [tag];
    TaggedLine(tag, [], path);
    LineFree([tag], path);
  }

  /** The fields are one record, and read as `meant`. */
  ghost predicate ReadAs(fields: seq<string>, meant: Option<FileChange>) {
    && (forall i :: 0 <= i < |fields| ==> IsField(fields[i]))
    && 1 <= |fields| <= 2
    && HasOldPath(fields[0]) == (|fields| == 2)
    && ReadRecord(fields[0], if |fields| == 2 then Some(fields[1]) else None) == meant
  }

  ghost predicate ReadsBack(r: StatusRecord) {
    ReadAs(StatusFields(r), Meant(r))
  }

  lemma OrdinaryReads(r: StatusRecord)
    requires RecordOk(r) && r.Ordinary?
    ensures ReadsBack(r)
  {
    WordsRead("1", r.xy, r.fields, r.path);
    var line := Line(["1", r.xy] + r.fields, r.path);
    OrdinaryLine(line, Line([r.xy] + r.fields, r.path), r.xy, r.fields, r.path);
    OneField(line, Meant(r));
    assert StatusFields(r) == [line];
  }

  lemma OneField(line: string, meant: Option<FileChange>)
    requires IsField(line) && !HasOldPath(line) && ReadRecord(line, None) == meant
    ensures ReadAs([line], meant)
  {
    hide IsField, HasOldPath, ReadRecord;
  }

  lemma TwoFields(line: string, from: string, meant: Option<FileChange>)
    requires IsField(line) && IsField(from) && HasOldPath(line) && ReadRecord(line, Some(from)) == meant
    ensures ReadAs([line, from], meant)
  {
    hide IsField, HasOldPath, ReadRecord;
  }

  lemma OrdinaryLine(line: string, rest: string, xy: string, fields: seq<string>, path: string)
    requires Tagged(line) == Some(("1", rest)) && SplitN(rest, ' ', 8) == [xy] + fields + [path] && |fields| == 6
    ensures !HasOldPath(line)
    ensures ReadRecord(line, None) == Some(FileChange(path, None, if 'D' in xy then Deleted else if 'A' in xy then Added else Modified, None, None))
  {
    assert "1" != "2";
  }

  lemma MovedLine(line: string, rest: string, xy: string, fields: seq<string>, path: string, from: string)
    requires Tagged(line) == Some(("2", rest)) && SplitN(rest, ' ', 9) == [xy] + fields + [path] && |fields| == 7
    ensures HasOldPath(line) && ReadRecord(line, Some(from)) == Some(Change(path, Some(from), Renamed))
  {
    assert "2" != "1";
  }

  lemma MovedReads(r: StatusRecord)
    requires RecordOk(r) && r.Moved?
    ensures ReadsBack(r)
  {
    WordsRead("2", r.xy, r.fields, r.path);
    var line := Line(["2", r.xy] + r.fields, r.path);
    MovedLine(line, Line([r.xy] + r.fields, r.path), r.xy, r.fields, r.path, r.from);
    TwoFields(line, r.from, Meant(r));
    assert StatusFields(r) == [line, r.from];
  }

  lemma UnmergedReads(r: StatusRecord)
    requires RecordOk(r) && r.Unmerged?
    ensures ReadsBack(r)
  {
    WordsRead("u", r.xy, r.fields, r.path);
    var line := Line(["u", r.xy] + r.fields, r.path);
    UnmergedLine(line, Line([r.xy] + r.fields, r.path), r.xy, r.fields, r.path);
    OneField(line, Meant(r));
    assert StatusFields(r) == [line];
  }

  lemma UnmergedLine(line: string, rest: string, xy: string, fields: seq<string>, path: string)
    requires Tagged(line) == Some(("u", rest)) && SplitN(rest, ' ', 10) == [xy] + fields + [path] && |fields| == 8
    ensures !HasOldPath(line) && ReadRecord(line, None) == Some(Change(path, None, Conflicted))
  {
    assert "u" != "1" && "u" != "2";
  }

  lemma RecordReads(r: StatusRecord)
    requires RecordOk(r)
    ensures ReadsBack(r)
  {
    match r
    case Ordinary(_, _, _) => OrdinaryReads(r);
    case Moved(_, _, _, _) => MovedReads(r);
    case Unmerged(_, _, _) => UnmergedReads(r);
    case New(path) => SimpleRead("?", path);
    case Ignored(path) => SimpleRead("!", path);
    case Header(text) => SimpleRead("#", text);
  }

  lemma StatusFirst(r: StatusRecord, rest: seq<string>)
    requires RecordOk(r)
    ensures Status(StatusFields(r) + rest) == Listed(Meant(r)) + Status(rest)
  {
    RecordReads(r);
    var fields := StatusFields(r) + rest;
    assert fields[|StatusFields(r)|..] == rest;
  }

  lemma {:induction false} StatusReads(records: seq<StatusRecord>)
    requires forall i :: 0 <= i < |records| ==> RecordOk(records[i])
    ensures var fields := FieldsOf(records, StatusFields);
            && (forall i :: 0 <= i < |fields| ==> IsField(fields[i]))
            && Status(fields) == MeantAll(records)
    decreases |records|
  {
    if records != [] {
      StatusReads(records[1..]);
      RecordReads(records[0]);
      StatusFirst(records[0], FieldsOf(records[1..], StatusFields));
    }
  }

  /**
   Status records come back from their printed form, sorted by path: a rename's old path is never
   taken for a record, and headers and ignored paths add nothing.
   */
  lemma StatusRoundTrip(records: seq<StatusRecord>)
    requires forall i :: 0 <= i < |records| ==> RecordOk(records[i])
    ensures Status(NonEmpty(Split(PrintStatus(records), NUL))) == MeantAll(records)
    ensures var changes := SortedByPath(MeantAll(records));
            IsSorted(changes) && forall path :: Of(changes, path) == Of(MeantAll(records), path)
  {
    SortedByPathIsSorted(MeantAll(records));
    var fields := FieldsOf(records, StatusFields);
    StatusReads(records);
    SplitTerminated(fields);
    NonEmptyKeeps(fields);
  }
}
