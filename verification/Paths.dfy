/**
 The paths agents report, resolved lexically and measured against their workspace.
 */
module Paths {
  import opened Options

  predicate IsSeparator(c: char) {
    c == '/' || c == '\\'
  }

  /** The path cut at every separator. */
  function Pieces(path: string): (pieces: seq<string>)
    ensures |pieces| > 0
    decreases |path|
  {
    if path == "" then [""]
    else
      var rest := Pieces(path[1..]);
      if IsSeparator(path[0]) then [""] + rest else [[path[0]] + rest[0]] + rest[1..]
  }

  /** A drive letter is a component that `..` does not go above. */
  predicate IsFloor(part: string) {
    part != "" && part[|part| - 1] == ':'
  }

  function Resolved(parts: seq<string>, piece: string): seq<string> {
    if piece == "" || piece == "." then parts
    else if piece == ".." then
      if parts != [] && !IsFloor(parts[|parts| - 1]) then parts[..|parts| - 1] else parts
    else parts + [piece]
  }

  function ResolvedAll(parts: seq<string>, pieces: seq<string>): seq<string>
    decreases |pieces|
  {
    if pieces == [] then parts else ResolvedAll(Resolved(parts, pieces[0]), pieces[1..])
  }

  /** The components of `path` after `base`. */
  function Norm(base: seq<string>, path: string): seq<string> {
    ResolvedAll(base, Pieces(path))
  }

  /** `normalized`. */
  method Normalized(base: seq<string>, path: string) returns (parts: seq<string>)
    ensures parts == Norm(base, path)
  {
    parts := base;
    var pieces := Pieces(path);
    for i := 0 to |pieces|
      invariant ResolvedAll(parts, pieces[i..]) == Norm(base, path)
    {
      var part := pieces[i];
      assert pieces[i..][0] == part && pieces[i..][1..] == pieces[i + 1..];
      if part == "" || part == "." {
      } else if part == ".." {
        if |parts| > 0 && !IsFloor(parts[|parts| - 1]) {
          parts := parts[..|parts| - 1];
        }
      } else {
        parts := parts + [part];
      }
    }
  }

  // ---- Resolving ----

  predicate IsComponent(part: string) {
    part != "" && part != "." && part != ".." && forall i :: 0 <= i < |part| ==> !IsSeparator(part[i])
  }

  predicate IsClean(parts: seq<string>) {
    forall i :: 0 <= i < |parts| ==> IsComponent(parts[i])
  }

  predicate HasNoSeparator(piece: string) {
    forall i :: 0 <= i < |piece| ==> !IsSeparator(piece[i])
  }

  lemma {:induction false} PiecesHaveNoSeparator(path: string)
    ensures forall i :: 0 <= i < |Pieces(path)| ==> HasNoSeparator(Pieces(path)[i])
    decreases |path|
  {
    if path != "" {
      PiecesHaveNoSeparator(path[1..]);
    }
  }

  lemma {:induction false} ResolvedAllClean(parts: seq<string>, pieces: seq<string>)
    requires IsClean(parts) && forall i :: 0 <= i < |pieces| ==> HasNoSeparator(pieces[i])
    ensures IsClean(ResolvedAll(parts, pieces))
    decreases |pieces|
  {
    if pieces != [] {
      ResolvedAllClean(Resolved(parts, pieces[0]), pieces[1..]);
    }
  }

  /** Nothing empty, no `.` and no `..` is left, however the path was spelled. */
  lemma NormIsClean(base: seq<string>, path: string)
    requires IsClean(base)
    ensures IsClean(Norm(base, path))
  {
    PiecesHaveNoSeparator(path);
    ResolvedAllClean(base, Pieces(path));
  }

  lemma {:induction false} PiecesJoin(p: string, sep: char, q: string)
    requires IsSeparator(sep)
    ensures Pieces(p + [sep] + q) == Pieces(p) + Pieces(q)
    decreases |p|
  {
    var path := p + [sep] + q;
    if p == "" {
      assert path[1..] == q;
    } else {
      assert path[1..] == p[1..] + [sep] + q;
      PiecesJoin(p[1..], sep, q);
    }
  }

  lemma {:induction false} ResolvedAllOn(parts: seq<string>, a: seq<string>, b: seq<string>)
    ensures ResolvedAll(parts, a + b) == ResolvedAll(ResolvedAll(parts, a), b)
    decreases |a|
  {
    if a == [] {
      assert a + b == b;
    } else {
      assert (a + b)[1..] == a[1..] + b;
      ResolvedAllOn(Resolved(parts, a[0]), a[1..], b);
    }
  }

  /** Resolving `p/q` is resolving `q` from where `p` leads. */
  lemma NormComposes(base: seq<string>, p: string, sep: char, q: string)
    requires sep == '/' || sep == '\\'
    ensures Norm(base, p + [sep] + q) == Norm(Norm(base, p), q)
  {
    PiecesJoin(p, sep, q);
    ResolvedAllOn(base, Pieces(p), Pieces(q));
  }

  // ---- What the pieces do ----

  /** A component goes one further, `..` goes back one but not past a drive letter, and the others stay. */
  lemma NormOfPiece(base: seq<string>, piece: string)
    requires HasNoSeparator(piece)
    ensures IsComponent(piece) ==> Norm(base, piece) == base + [piece]
    ensures piece == ".." && (base == [] || (base[|base| - 1] != "" && base[|base| - 1][|base[|base| - 1]| - 1] == ':')) ==>
              Norm(base, piece) == base
    ensures piece == ".." && base != [] && (base[|base| - 1] == "" || base[|base| - 1][|base[|base| - 1]| - 1] != ':') ==>
              Norm(base, piece) == base[..|base| - 1]
    ensures piece == "." || piece == "" ==> Norm(base, piece) == base
  {
    PiecesOfComponent(piece);
    assert [piece][1..] == [];
    assert ResolvedAll(base, [piece]) == ResolvedAll(Resolved(base, piece), []);
  }

  /** The same behind any path: what a path with one piece more leads to, by where it leads without. */
  lemma NormOfLast(base: seq<string>, p: string, sep: char, piece: string)
    requires (sep == '/' || sep == '\\') && HasNoSeparator(piece)
    ensures var n := Norm(base, p);
            var m := Norm(base, p + [sep] + piece);
            && (IsComponent(piece) ==> m == n + [piece])
            && (piece == ".." ==> m == if n == [] || (n[|n| - 1] != "" && n[|n| - 1][|n[|n| - 1]| - 1] == ':') then n else n[..|n| - 1])
            && (piece == "." || piece == "" ==> m == n)
  {
    NormComposes(base, p, sep, piece);
    NormOfPiece(Norm(base, p), piece);
  }

  /** Going into a directory and back up leads nowhere else, unless it looks like a drive letter. */
  lemma DownAndUp(base: seq<string>, p: string, sep: char, c: string, q: string)
    requires (sep == '/' || sep == '\\') && IsComponent(c) && c[|c| - 1] != ':'
    ensures Norm(base, p + [sep] + c + [sep] + ".." + [sep] + q) == Norm(base, p + [sep] + q)
  {
    var n := Norm(base, p);
    NormOfLast(base, p, sep, c);
    NormOfLast(base, p + [sep] + c, sep, "..");
    assert n + [c] != [] && (n + [c])[..|n + [c]| - 1] == n;
    NormComposes(base, p + [sep] + c + [sep] + "..", sep, q);
    NormComposes(base, p, sep, q);
  }

  function Ups(n: nat): string
    requires n > 0
  {
    if n == 1 then ".." else ".." + "/" + Ups(n - 1)
  }

  /** So many `..` lead as many components up, to the empty location and no further. */
  lemma {:induction false} NormOfUps(root: seq<string>, n: nat)
    requires n > 0 && forall i :: 0 <= i < |root| ==> root[i] == "" || root[i][|root[i]| - 1] != ':'
    ensures Norm(root, Ups(n)) == root[..if n < |root| then |root| - n else 0]
    decreases n
  {
    hide Norm;
    NormOfPiece(root, "..");
    if n > 1 {
      assert ".." + "/" + Ups(n - 1) == ".." + ['/'] + Ups(n - 1);
      NormComposes(root, "..", '/', Ups(n - 1));
      var up := Norm(root, "..");
      assert up == if root == [] then [] else root[..|root| - 1];
      NormOfUps(up, n - 1);
    } else if root == [] {
      assert root[..0] == root;
    }
  }

  // ---- `workspace_relative` ----

  /** A leading separator, or a one-byte first character with `:/` or `:\` behind it. */
  predicate IsAbsolute(path: string) {
    || (path != "" && IsSeparator(path[0]))
    || (|path| >= 3 && path[0] < '\U{80}' && path[1] == ':' && IsSeparator(path[2]))
  }

  function Lower(c: char): char {
    if 'A' <= c <= 'Z' then c - 'A' + 'a' else c
  }

  predicate SameIgnoringCase(a: string, b: string) {
    |a| == |b| && forall i :: 0 <= i < |a| ==> Lower(a[i]) == Lower(b[i])
  }

  /** Only under a drive letter are components compared without case. */
  predicate Same(root: seq<string>, a: string, b: string) {
    if root != [] && IsFloor(root[0]) then SameIgnoringCase(a, b) else a == b
  }

  predicate Extends(root: seq<string>, full: seq<string>) {
    |full| >= |root| && forall i :: 0 <= i < |root| ==> Same(root, root[i], full[i])
  }

  function Joined(parts: seq<string>): string {
    if parts == [] then "" else if |parts| == 1 then parts[0] else parts[0] + "/" + Joined(parts[1..])
  }

  function Location(path: string, cwd: string): seq<string> {
    if IsAbsolute(path) then Norm([], path) else Norm(Norm([], cwd), path)
  }

  /** The path relative to the workspace, or `None` for one that is outside. */
  function WorkspaceRelative(path: string, cwd: Option<string>): Option<string> {
    match cwd
    case None => None
    case Some(dir) =>
      var root := Norm([], dir);
      var full := Location(path, dir);
      if !Extends(root, full) then None
      else
        var relative := Joined(full[|root|..]);
        Some(if relative == "" then "." else relative)
  }

  /** Under a root with no drive letter, extending it is beginning with it; letters' case tells names apart. */
  lemma ExtendsPlain(root: seq<string>, full: seq<string>)
    requires root == [] || root[0] == "" || root[0][|root[0]| - 1] != ':'
    ensures Extends(root, full) <==> root <= full
  {
    if root <= full {
      forall i | 0 <= i < |root| ensures root[i] == full[i] {
      }
    }
  }

  /** Two letters that are the same but for the case, in ASCII. */
  predicate DifferInCase(a: char, b: char) {
    ('A' <= a <= 'Z' && b == a - 'A' + 'a') || ('A' <= b <= 'Z' && a == b - 'A' + 'a')
  }

  /** Under a drive letter the components of the root are compared without it. */
  lemma ExtendsUnderDrive(root: seq<string>, full: seq<string>)
    requires root != [] && root[0] != "" && root[0][|root[0]| - 1] == ':'
    ensures Extends(root, full) <==>
            && |root| <= |full|
            && forall i :: 0 <= i < |root| ==>
                 |root[i]| == |full[i]| && forall j :: 0 <= j < |root[i]| ==> root[i][j] == full[i][j] || DifferInCase(root[i][j], full[i][j])
  {
    forall i | 0 <= i < |root| && |root| <= |full|
      ensures Same(root, root[i], full[i]) <==>
              |root[i]| == |full[i]| && forall j :: 0 <= j < |root[i]| ==> root[i][j] == full[i][j] || DifferInCase(root[i][j], full[i][j])
    {
      forall a: char, b: char ensures Lower(a) == Lower(b) <==> a == b || DifferInCase(a, b) {
      }
    }
  }

  /** A path that starts at a separator or a drive letter leads where it leads, whatever the workspace; no other does. */
  lemma LocationOfRooted(cwd: string, c: char, sep: char, rest: string)
    requires IsSeparator(sep)
    ensures Location([sep] + rest, cwd) == Norm([], rest)
    ensures c < '\U{80}' ==> Location([c, ':', sep] + rest, cwd) == Norm([], [c, ':', sep] + rest)
    ensures !IsSeparator(c) ==> Location([c], cwd) == Norm(Norm([], cwd), [c])
    ensures !IsSeparator(c) && c != ':' ==> Location([c, c, sep] + rest, cwd) == Norm(Norm([], cwd), [c, c, sep] + rest)
  {
    assert [sep] + rest == "" + [sep] + rest;
    NormComposes([], "", sep, rest);
    NormOfPiece([], "");
  }

  // ---- What an answer means ----

  lemma {:induction false} PiecesOfComponent(part: string)
    requires HasNoSeparator(part)
    ensures Pieces(part) == [part]
    decreases |part|
  {
    if part != "" {
      PiecesOfComponent(part[1..]);
      assert [part[0]] + part[1..] == part;
    }
  }

  lemma {:induction false} PiecesOfJoined(parts: seq<string>)
    requires IsClean(parts) && parts != []
    ensures Pieces(Joined(parts)) == parts
    decreases |parts|
  {
    PiecesOfComponent(parts[0]);
    if |parts| > 1 {
      PiecesOfJoined(parts[1..]);
      PiecesJoin(parts[0], '/', Joined(parts[1..]));
      assert [parts[0]] + parts[1..] == parts;
    } else {
      assert parts == [parts[0]];
    }
  }

  lemma {:induction false} ResolvedAllKeeps(base: seq<string>, parts: seq<string>)
    requires IsClean(parts)
    ensures ResolvedAll(base, parts) == base + parts
    decreases |parts|
  {
    if parts != [] {
      assert IsComponent(parts[0]);
      ResolvedAllKeeps(base + [parts[0]], parts[1..]);
      assert base + [parts[0]] + parts[1..] == base + parts;
    } else {
      assert base + parts == base;
    }
  }

  /** The components an answer stands for: none for a dot. */
  function Suffix(answer: string): seq<string> {
    if answer == "." then [] else Pieces(answer)
  }

  lemma JoinedIsRead(parts: seq<string>)
    requires IsClean(parts)
    ensures parts != [] ==> Joined(parts) != "" && Joined(parts) != "." && Suffix(Joined(parts)) == parts
  {
    if parts != [] {
      PiecesOfJoined(parts);
      assert IsComponent(parts[0]);
      PiecesOfComponent("");
      PiecesOfComponent(".");
    }
  }

  lemma SuffixIsClean(path: string, cwd: string)
    requires Extends(Norm([], cwd), Location(path, cwd))
    ensures IsClean(Norm([], cwd)) && IsClean(Location(path, cwd)[|Norm([], cwd)|..])
  {
    NormIsClean([], cwd);
    if IsAbsolute(path) {
      NormIsClean([], path);
    } else {
      NormIsClean(Norm([], cwd), path);
    }
  }

  /**
   There is an answer exactly when the resolved location extends the root, and it spells out what
   the location has beyond the root and nothing else.
   */
  lemma AnswerIsSuffix(path: string, cwd: string)
    ensures WorkspaceRelative(path, Some(cwd)).Some? <==> Extends(Norm([], cwd), Location(path, cwd))
    ensures WorkspaceRelative(path, Some(cwd)).Some? ==>
              Suffix(WorkspaceRelative(path, Some(cwd)).value) == Location(path, cwd)[|Norm([], cwd)|..]
  {
    if Extends(Norm([], cwd), Location(path, cwd)) {
      SuffixIsClean(path, cwd);
      JoinedIsRead(Location(path, cwd)[|Norm([], cwd)|..]);
    }
  }

  /**
   A relative path that goes up at least as far as the root is deep is answered only if what comes then
   begins with the root again.
   */
  lemma UpAndOut(n: nat, q: string, cwd: string)
    requires n > 0 && n >= |Norm([], cwd)|
    requires forall i :: 0 <= i < |Norm([], cwd)| ==> !IsFloor(Norm([], cwd)[i])
    ensures WorkspaceRelative(Ups(n) + "/" + q, Some(cwd)).Some? <==> Norm([], cwd) <= Norm([], q)
  {
    var root := Norm([], cwd);
    var path := Ups(n) + "/" + q;
    NormOfUps(root, n);
    assert root[..0] == [];
    assert path == Ups(n) + ['/'] + q && path[0] == '.' && (|path| >= 2 ==> path[1] == '.');
    NormComposes(root, Ups(n), '/', q);
    ExtendsPlain(root, Norm([], q));
  }

  /** Two paths get the same answer only when they resolve to the same place under their roots. */
  lemma SameAnswerSamePlace(p: string, q: string, cwd1: string, cwd2: string)
    requires WorkspaceRelative(p, Some(cwd1)).Some?
    requires WorkspaceRelative(p, Some(cwd1)) == WorkspaceRelative(q, Some(cwd2))
    ensures Location(p, cwd1)[|Norm([], cwd1)|..] == Location(q, cwd2)[|Norm([], cwd2)|..]
  {
    AnswerIsSuffix(p, cwd1);
    AnswerIsSuffix(q, cwd2);
  }

  lemma {:induction false} ExtendsSelf(root: seq<string>, parts: seq<string>)
    ensures Extends(root, root + parts)
  {
  }

  /**
   An answer read again against the same workspace is itself, unless it looks rooted in a drive
   and the workspace is not the root of everything: then it is taken for a path of its own.
   */
  lemma ReadingAgainIff(path: string, cwd: string)
    requires WorkspaceRelative(path, Some(cwd)).Some?
    ensures var answer := WorkspaceRelative(path, Some(cwd)).value;
            WorkspaceRelative(answer, Some(cwd)) == Some(answer) <==> !IsAbsolute(answer) || Norm([], cwd) == []
  {
    var answer := WorkspaceRelative(path, Some(cwd)).value;
    var root := Norm([], cwd);
    var suffix := Location(path, cwd)[|root|..];
    AnswerIsSuffix(path, cwd);
    AnswerIsSuffix(answer, cwd);
    SuffixIsClean(path, cwd);
    JoinedIsRead(suffix);
    var again := Location(answer, cwd);
    if !IsAbsolute(answer) {
      AnswerLeads(root, answer, suffix);
      ExtendsSelf(root, suffix);
      assert (root + suffix)[|root|..] == suffix;
    } else {
      AnswerLeads([], answer, suffix);
      assert [] + suffix == suffix;
      if root != [] && Extends(root, again) {
        assert |again[|root|..]| < |suffix|;
      }
    }
  }

  /** From any base, an answer leads to the base and its suffix. */
  lemma AnswerLeads(base: seq<string>, answer: string, suffix: seq<string>)
    requires IsClean(suffix) && answer == (if suffix == [] then "." else Joined(suffix))
    ensures Norm(base, answer) == base + suffix
  {
    if suffix == [] {
      PiecesOfComponent(".");
      assert Resolved(base, ".") == base;
      assert ResolvedAll(base, ["."]) == ResolvedAll(base, []);
    } else {
      PiecesOfJoined(suffix);
      ResolvedAllKeeps(base, suffix);
    }
  }

  /** An answer looks rooted exactly when its first component is a drive letter with more behind it. */
  lemma LooksRooted(suffix: seq<string>)
    requires IsClean(suffix) && suffix != []
    ensures IsAbsolute(Joined(suffix)) <==>
            |suffix| >= 2 && |suffix[0]| == 2 && suffix[0][0] < '\U{80}' && suffix[0][1] == ':'
  {
    var answer := Joined(suffix);
    assert IsComponent(suffix[0]);
    assert answer[0] == suffix[0][0];
    if |suffix| >= 2 {
      assert answer == suffix[0] + "/" + Joined(suffix[1..]);
      JoinedIsRead(suffix[1..]);
      if |suffix[0]| == 1 {
        assert answer[1] == '/';
      } else if |suffix[0]| >= 3 {
        assert answer[2] == suffix[0][2];
      }
    }
  }

  /** A directory called `C:` in the workspace: its files' answers are read as being on another drive. */
  lemma ADriveLikeAnswerIsNotReadAgain()
    ensures WorkspaceRelative("./C:/x", Some("/work")) == Some("C:/x")
    ensures WorkspaceRelative("C:/x", Some("/work")) == None
  {
    hide Norm;
    Resolutions();
    assert ["work", "C:", "x"][1..] == ["C:", "x"];
    assert Joined(["C:", "x"]) == "C:/x" by {
      assert ["C:", "x"][1..] == ["x"];
      assert "C:" + "/" + "x" == "C:/x";
    }
  }

  lemma Resolutions()
    ensures Norm([], "/work") == ["work"]
    ensures Norm(["work"], "./C:/x") == ["work", "C:", "x"]
    ensures Norm([], "C:/x") == ["C:", "x"]
  {
    hide Pieces;
    CutAtSeparators();
    AddsOne([], ".", []);
    ResolvesTwo([], "", "work");
    ResolvesTwo([], "C:", "x");
    ResolvesTwo(["work"], "C:", "x");
    assert [".", "C:", "x"][1..] == ["C:", "x"];
    assert [] + ["work"] == ["work"] && [] + ["C:", "x"] == ["C:", "x"] && ["work"] + ["C:", "x"] == ["work", "C:", "x"];
  }

  lemma AddsOne(base: seq<string>, piece: string, rest: seq<string>)
    ensures ResolvedAll(base, [piece] + rest) == ResolvedAll(Resolved(base, piece), rest)
  {
    assert ([piece] + rest)[1..] == rest;
  }

  lemma ResolvesTwo(base: seq<string>, a: string, b: string)
    requires (a == "" || IsComponent(a)) && IsComponent(b)
    ensures ResolvedAll(base, [a, b]) == base + if a == "" then [b] else [a, b]
  {
    AddsOne(base, a, [b]);
    AddsOne(Resolved(base, a), b, []);
    assert [a] + [b] == [a, b] && [b] + [] == [b];
    assert base + [a] + [b] == base + [a, b];
  }

  lemma CutAtSeparators()
    ensures Pieces("/work") == ["", "work"] && Pieces("./C:/x") == [".", "C:", "x"] && Pieces("C:/x") == ["C:", "x"]
  {
    CutsTwo("", "work");
    CutsTwo("C:", "x");
    hide Pieces;
    PiecesOfComponent(".");
    PiecesJoin(".", '/', "C:/x");
    assert "/work" == "" + ['/'] + "work" && "C:/x" == "C:" + ['/'] + "x" && "./C:/x" == "." + ['/'] + "C:/x";
  }

  lemma CutsTwo(a: string, b: string)
    requires HasNoSeparator(a) && HasNoSeparator(b)
    ensures Pieces(a + ['/'] + b) == [a, b]
  {
    hide Pieces;
    PiecesOfComponent(a);
    PiecesOfComponent(b);
    PiecesJoin(a, '/', b);
  }
}
