/**
 The fenced block of a code note, and a reader of fenced blocks after section 4.5 of the CommonMark
 specification (version 0.31.2), with the line endings of its section 2.1.
 */
module Fence {
  import opened Options

  const TICK := '`'

  // ---- The fence ----

  /** The first `n` characters, split at every character that is not a backtick. */
  function Segments(text: string, n: nat): (segments: seq<string>)
    requires n <= |text|
    ensures |segments| > 0
  {
    if n == 0 then [""]
    else
      var before := Segments(text, n - 1);
      if text[n - 1] == TICK then before[..|before| - 1] + [before[|before| - 1] + [TICK]]
      else before + [""]
  }

  /** The longest of the lengths, or zero when there are none. */
  function Longest(segments: seq<string>): nat {
    if segments == [] then 0
    else
      var before := Longest(segments[..|segments| - 1]);
      var last := |segments[|segments| - 1]|;
      if before < last then last else before
  }

  function Ticks(n: nat): (ticks: string)
    ensures |ticks| == n && forall i :: 0 <= i < n ==> ticks[i] == TICK
  {
    seq(n, _ => TICK)
  }

  function FenceFor(text: string): string {
    var longest := Longest(Segments(text, |text|));
    Ticks(if longest + 1 < 3 then 3 else longest + 1)
  }

  ghost predicate IsRun(text: string, from: nat, to: nat) {
    from <= to <= |text| && forall i :: from <= i < to ==> text[i] == TICK
  }

  /** The last segment is the longest run that ends at `n`. */
  lemma {:induction false} LastSegmentIsTheRun(text: string, n: nat)
    requires n <= |text|
    ensures var segments := Segments(text, n);
            var last := |segments[|segments| - 1]|;
            last <= n && IsRun(text, n - last, n) && forall from: nat :: IsRun(text, from, n) ==> n - from <= last
    decreases n
  {
    if n > 0 {
      LastSegmentIsTheRun(text, n - 1);
      forall from: nat | IsRun(text, from, n) && from < n ensures IsRun(text, from, n - 1) && text[n - 1] == TICK {
      }
    }
  }

  lemma {:induction false} LongestOfParts(segments: seq<string>, last: string)
    ensures Longest(segments + [last]) == if Longest(segments) < |last| then |last| else Longest(segments)
  {
    assert (segments + [last])[..|segments|] == segments;
  }

  /** Taking one more character in, the longest is what it was, or the run that ends there. */
  lemma LongestNext(text: string, n: nat)
    requires n < |text|
    ensures var before, after := Segments(text, n), Segments(text, n + 1);
            var last := |after[|after| - 1]|;
            Longest(after) == if Longest(before) < last then last else Longest(before)
  {
    var before := Segments(text, n);
    var init, last := before[..|before| - 1], before[|before| - 1];
    LongestOfParts(init, last);
    assert init + [last] == before;
    LongestOfParts(init, last + [TICK]);
    LongestOfParts(before, "");
  }

  /** Some run is as long as the longest segment, and none is longer. */
  lemma {:induction false} LongestIsARun(text: string, n: nat) returns (at: nat)
    requires n <= |text|
    ensures at + Longest(Segments(text, n)) <= n && IsRun(text, at, at + Longest(Segments(text, n)))
    decreases n
  {
    if n == 0 {
      at := 0;
      LongestOfNone(text);
    } else {
      at := LongestIsARun(text, n - 1);
      LongestNext(text, n - 1);
      LastSegmentIsTheRun(text, n);
      var segments := Segments(text, n);
      var last := |segments[|segments| - 1]|;
      if Longest(Segments(text, n - 1)) < last {
        at := n - last;
      }
    }
  }

  lemma LongestOfNone(text: string)
    ensures Longest(Segments(text, 0)) == 0
  {
    LongestOfParts([], "");
    assert [] + [""] == Segments(text, 0);
  }

  lemma {:induction false} NoRunIsLonger(text: string, n: nat, from: nat, to: nat)
    requires to <= n <= |text| && IsRun(text, from, to)
    ensures to - from <= Longest(Segments(text, n))
    decreases n
  {
    if n > 0 {
      LongestNext(text, n - 1);
      if to == n {
        LastSegmentIsTheRun(text, n);
      } else {
        NoRunIsLonger(text, n - 1, from, to);
      }
    }
  }

  /** The fence is the least that is three or more and longer than every run of backticks. */
  lemma FenceIsLeast(text: string) returns (at: nat)
    ensures |FenceFor(text)| >= 3
    ensures forall from: nat, to: nat :: IsRun(text, from, to) ==> to - from < |FenceFor(text)|
    ensures |FenceFor(text)| == 3 || IsRun(text, at, at + |FenceFor(text)| - 1)
  {
    at := LongestIsARun(text, |text|);
    forall from: nat, to: nat | IsRun(text, from, to) ensures to - from < |FenceFor(text)| {
      NoRunIsLonger(text, |text|, from, to);
    }
  }

  // ---- The block ----

  function TrimEnd(text: string): (trimmed: string)
    ensures trimmed <= text && (trimmed == "" || trimmed[|trimmed| - 1] != '\n')
    ensures forall i :: |trimmed| <= i < |text| ==> text[i] == '\n'
  {
    if text != "" && text[|text| - 1] == '\n' then TrimEnd(text[..|text| - 1]) else text
  }

  function Block(text: string): string {
    FenceFor(text) + "\n" + TrimEnd(text) + "\n" + FenceFor(text)
  }

  // ---- A reader ----

  predicate IsEnding(c: char) {
    c == '\n' || c == '\r'
  }

  /** Where the line that `from` is on ends. */
  function LineEnd(doc: string, from: nat): (end: nat)
    requires from <= |doc|
    ensures from <= end <= |doc|
    ensures forall i :: from <= i < end ==> !IsEnding(doc[i])
    ensures end < |doc| ==> IsEnding(doc[end])
    decreases |doc| - from
  {
    if from == |doc| || IsEnding(doc[from]) then from else LineEnd(doc, from + 1)
  }

  /** Where the next line starts: after a line feed, a carriage return, or one followed by the other. */
  function NextLine(doc: string, end: nat): nat
    requires end <= |doc|
  {
    if end == |doc| then end
    else if doc[end] == '\r' && end + 1 < |doc| && doc[end + 1] == '\n' then end + 2
    else end + 1
  }

  /** Up to three spaces, at least `n` backticks, and nothing but spaces and tabs after them. */
  ghost predicate IsClosing(line: string, n: nat) {
    exists from: nat, to: nat :: from <= 3 && n <= to - from && IsRun(line, from, to) && IsBlankAround(line, from, to)
  }

  ghost predicate IsBlankAround(line: string, from: nat, to: nat)
    requires from <= to <= |line|
  {
    && (forall i :: 0 <= i < from ==> line[i] == ' ')
    && forall i :: to <= i < |line| ==> line[i] == ' ' || line[i] == '\t'
  }

  /** Where the line of the closing fence starts, or the document's end when there is none. */
  ghost function ContentEnd(doc: string, line: nat, n: nat): (end: nat)
    requires line <= |doc|
    ensures line <= end <= |doc|
    decreases |doc| - line
  {
    if line == |doc| then line
    else
      var end := LineEnd(doc, line);
      if IsClosing(doc[line..end], n) then line
      else if end == |doc| then end
      else ContentEnd(doc, NextLine(doc, end), n)
  }

  function OpeningRun(doc: string, n: nat): (length: nat)
    requires n <= |doc|
    ensures n <= length <= |doc|
    ensures forall i :: n <= i < length ==> doc[i] == TICK
    ensures length < |doc| ==> doc[length] != TICK
    decreases |doc| - n
  {
    if n < |doc| && doc[n] == TICK then OpeningRun(doc, n + 1) else n
  }

  /** The content, line endings included, of the block a document starts with. */
  ghost function ReadBlock(doc: string): Option<string> {
    var n := OpeningRun(doc, 0);
    var end := LineEnd(doc, n);
    if n < 3 || TICK in doc[n..end] then None
    else
      var start := NextLine(doc, end);
      Some(doc[start..ContentEnd(doc, start, n)])
  }

  /** The content without its last line ending. */
  function WithoutLastEnding(content: string): string {
    var n := |content|;
    if n >= 2 && content[n - 2] == '\r' && content[n - 1] == '\n' then content[..n - 2]
    else if n >= 1 && IsEnding(content[n - 1]) then content[..n - 1]
    else content
  }

  // ---- Reading the block ----

  /** The document is a fence, a text its runs stay below, and the fence again, each on lines of its own. */
  ghost predicate IsFenced(doc: string, text: string, n: nat) {
    var close := n + 1 + |text| + 1;
    && close + n + 1 <= |doc|
    && IsRun(doc, 0, n) && doc[n] == '\n'
    && (forall i :: 0 <= i < |text| ==> doc[n + 1 + i] == text[i]) && doc[close - 1] == '\n'
    && IsRun(doc, close, close + n) && doc[close + n] == '\n'
    && forall from: nat, to: nat :: IsRun(text, from, to) ==> to - from < n
  }

  lemma NoLineOfTheTextCloses(doc: string, text: string, n: nat, line: nat, end: nat)
    requires IsFenced(doc, text, n) && n + 1 <= line <= end < n + 1 + |text| + 1
    ensures !IsClosing(doc[line..end], n)
  {
    if IsClosing(doc[line..end], n) {
      var from: nat, to: nat :| from <= 3 && n <= to - from && IsRun(doc[line..end], from, to) && IsBlankAround(doc[line..end], from, to);
      var base := line - (n + 1);
      forall i | base + from <= i < base + to ensures text[i] == TICK {
        assert doc[n + 1 + i] == doc[line..end][i - base];
      }
      assert IsRun(text, base + from, base + to);
      assert false;
    }
  }

  lemma {:induction false} ContentEndsAtTheFence(doc: string, text: string, n: nat, line: nat)
    requires IsFenced(doc, text, n) && n + 1 <= line <= n + 1 + |text| + 1
    ensures ContentEnd(doc, line, n) == n + 1 + |text| + 1
    decreases |doc| - line
  {
    var close := n + 1 + |text| + 1;
    var end := LineEnd(doc, line);
    if line == close {
      assert end == close + n by {
        assert doc[close + n] == '\n';
        assert forall i :: close <= i < close + n ==> !IsEnding(doc[i]);
      }
      assert IsRun(doc[line..end], 0, n) && IsBlankAround(doc[line..end], 0, n);
    } else {
      assert end < close by {
        assert doc[close - 1] == '\n';
      }
      NoLineOfTheTextCloses(doc, text, n, line, end);
      ContentEndsAtTheFence(doc, text, n, NextLine(doc, end));
    }
  }

  lemma TheBlockIsFenced(text: string, after: string)
    ensures IsFenced(Block(text) + "\n\n" + after, TrimEnd(text), |FenceFor(text)|)
  {
    TrimmedRuns(text);
    Fenced(FenceFor(text), TrimEnd(text), after);
  }

  lemma Fenced(fence: string, text: string, after: string)
    requires IsRun(fence, 0, |fence|) && forall from: nat, to: nat :: IsRun(text, from, to) ==> to - from < |fence|
    ensures IsFenced(fence + "\n" + text + "\n" + fence + "\n\n" + after, text, |fence|)
  {
    Opens(fence, text);
    Closes(fence + "\n" + text + "\n", fence, after);
  }

  lemma Opens(fence: string, text: string)
    ensures var doc, n := fence + "\n" + text + "\n", |fence|;
            && |doc| == n + 1 + |text| + 1
            && (forall i :: 0 <= i < n ==> doc[i] == fence[i]) && doc[n] == '\n'
            && (forall i :: 0 <= i < |text| ==> doc[n + 1 + i] == text[i]) && doc[n + 1 + |text|] == '\n'
  {
  }

  lemma Closes(before: string, fence: string, after: string)
    ensures var doc, n := before + fence + "\n\n" + after, |before|;
            && |doc| > n + |fence|
            && (forall i :: 0 <= i < n ==> doc[i] == before[i])
            && (forall i :: n <= i < n + |fence| ==> doc[i] == fence[i - n]) && doc[n + |fence|] == '\n'
  {
  }

  lemma TrimmedRuns(text: string)
    ensures forall from: nat, to: nat :: IsRun(TrimEnd(text), from, to) ==> to - from < |FenceFor(text)|
  {
    var _ := FenceIsLeast(text);
    forall from: nat, to: nat | IsRun(TrimEnd(text), from, to) ensures to - from < |FenceFor(text)| {
      assert IsRun(text, from, to);
    }
  }

  lemma FencedIsRead(doc: string, text: string, n: nat)
    requires IsFenced(doc, text, n) && n >= 3
    ensures ReadBlock(doc) == Some(text + "\n")
  {
    var length := OpeningRun(doc, 0);
    assert length == n by {
      assert doc[n] == '\n';
      assert forall i :: 0 <= i < n ==> doc[i] == TICK;
    }
    assert LineEnd(doc, n) == n;
    assert doc[n..n] == "";
    ContentEndsAtTheFence(doc, text, n, n + 1);
    assert doc[n + 1..n + 1 + |text| + 1] == text + "\n";
  }

  /**
   Whatever the excerpt and whatever follows, the block's content is the excerpt without its trailing
   newlines, on lines of its own, and the fence that closes it is the block's last line.
   */
  lemma ReadsBack(text: string, after: string)
    ensures ReadBlock(Block(text) + "\n\n" + after) == Some(TrimEnd(text) + "\n")
    ensures var n := |FenceFor(text)|;
            |Block(text)| > n && ContentEnd(Block(text) + "\n\n" + after, n + 1, n) + n == |Block(text)|
  {
    hide ReadBlock, ContentEnd, FenceFor, TrimEnd;
    TheBlockIsFenced(text, after);
    var _ := FenceIsLeast(text);
    FencedIsRead(Block(text) + "\n\n" + after, TrimEnd(text), |FenceFor(text)|);
    ContentEndsAtTheFence(Block(text) + "\n\n" + after, TrimEnd(text), |FenceFor(text)|, |FenceFor(text)| + 1);
  }

  /** Its last line ending left off, it is the excerpt itself exactly when that does not end in a carriage return. */
  lemma ReadsBackExactlyIff(text: string, after: string)
    ensures ReadBlock(Block(text) + "\n\n" + after).Some?
    ensures var trimmed := TrimEnd(text);
            var read := WithoutLastEnding(ReadBlock(Block(text) + "\n\n" + after).value);
            read == trimmed <==> !(trimmed != "" && trimmed[|trimmed| - 1] == '\r')
  {
    ReadsBack(text, after);
    var trimmed := TrimEnd(text);
    var content := trimmed + "\n";
    assert content[..|content| - 1] == trimmed;
    assert WithoutLastEnding(content) == trimmed || |WithoutLastEnding(content)| == |trimmed| - 1;
  }

  /** An excerpt that ends in a carriage return is read back without it. */
  lemma ACarriageReturnIsLost(after: string)
    ensures ReadBlock(Block("a\r") + "\n\n" + after) == Some("a\r\n")
    ensures WithoutLastEnding("a\r\n") == "a"
  {
    ReadsBack("a\r", after);
    assert TrimEnd("a\r") == "a\r";
    assert "a\r" + "\n" == "a\r\n";
    assert "a\r\n"[..1] == "a";
  }
}
