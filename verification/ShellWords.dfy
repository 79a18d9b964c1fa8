/**
 Argument lists written as one shell-like line, and the line split back into arguments.
 */
module ShellWords {
  import opened Options

  datatype Quote = Unquoted | Single | Double

  /** The variables of the loop: the words so far, the one being read, and the quote it is in. */
  datatype State = State(words: seq<string>, current: string, inWord: bool, quote: Quote)

  const INITIAL := State([], "", false, Unquoted)

  /** `\s` of a JavaScript regular expression. */
  predicate IsSpace(c: char) {
    || c == ' ' || '\t' <= c <= '\r'
    || c == '\U{A0}' || c == '\U{1680}' || '\U{2000}' <= c <= '\U{200A}'
    || c == '\U{2028}' || c == '\U{2029}' || c == '\U{202F}' || c == '\U{205F}' || c == '\U{3000}' || c == '\U{FEFF}'
  }

  /** White space and line ends as ECMAScript lists them (sections 12.2 and 12.3 of ECMA-262). */
  const SPACES :=
    "\t\n\U{B}\U{C}\r \U{A0}\U{1680}\U{2000}\U{2001}\U{2002}\U{2003}\U{2004}\U{2005}\U{2006}\U{2007}\U{2008}\U{2009}\U{200A}\U{2028}\U{2029}\U{202F}\U{205F}\U{3000}\U{FEFF}"

  lemma SpacesAreListed(c: char)
    ensures IsSpace(c) <==> c in SPACES
  {
    if IsSpace(c) {
      SpaceIsListed(c);
    }
  }

  lemma SpaceIsListed(c: char)
    requires IsSpace(c)
    ensures c in SPACES
  {
    var n := |SPACES|;
    assert n == 25;
    if '\U{2000}' <= c <= '\U{200A}' {
      var i := 8 + (c as int - 0x2000);
      assert SPACES[i] == c;
    } else if '\t' <= c <= '\r' {
      var i := c as int - 9;
      assert SPACES[i] == c;
    } else {
      assert SPACES[5] == ' ' && SPACES[6] == '\U{A0}' && SPACES[7] == '\U{1680}' && SPACES[19] == '\U{2028}' && SPACES[20] == '\U{2029}';
      assert SPACES[21] == '\U{202F}' && SPACES[22] == '\U{205F}' && SPACES[23] == '\U{3000}' && SPACES[24] == '\U{FEFF}';
    }
  }

  predicate IsQuote(c: char) {
    c == '\'' || c == '"'
  }

  /** A backslash that takes the character after it, which is there, with it. */
  predicate Escapes(line: string, quote: Quote)
    requires line != ""
  {
    && line[0] == '\\' && |line| > 1
    && match quote
       case Unquoted => true
       case Single => false
       case Double => line[1] == '"' || line[1] == '\\'
  }

  /** What one character, or a backslash and the character it takes, does. */
  function Reads(line: string, s: State): State
    requires line != ""
  {
    var c := line[0];
    if Escapes(line, s.quote) then s.(current := s.current + [line[1]], inWord := true)
    else
      match s.quote
      case Single => if c == '\'' then s.(quote := Unquoted) else s.(current := s.current + [c])
      case Double => if c == '"' then s.(quote := Unquoted) else s.(current := s.current + [c])
      case Unquoted =>
        if IsQuote(c) then s.(quote := if c == '"' then Double else Single, inWord := true)
        else if IsSpace(c) then State(if s.inWord then s.words + [s.current] else s.words, "", false, Unquoted)
        else s.(current := s.current + [c], inWord := true)
  }

  function Taken(line: string, s: State): (n: nat)
    requires line != ""
    ensures 0 < n <= |line|
  {
    if Escapes(line, s.quote) then 2 else 1
  }

  function Run(line: string, s: State): State
    decreases |line|
  {
    if line == "" then s else Run(line[Taken(line, s)..], Reads(line, s))
  }

  function Result(s: State): Option<seq<string>> {
    if !s.quote.Unquoted? then None
    else Some(if s.inWord then s.words + [s.current] else s.words)
  }

  function Split(line: string): Option<seq<string>> {
    Result(Run(line, INITIAL))
  }

  /** `splitWords`. */
  method SplitWords(line: string) returns (words: Option<seq<string>>)
    ensures words == Split(line)
  {
    var found: seq<string> := [];
    var current := "";
    var inWord := false;
    var quote := Unquoted;
    var i := 0;
    while i < |line|
      invariant 0 <= i <= |line|
      invariant (quote.Double? ==> inWord)
      invariant Run(line[i..], State(found, current, inWord, quote)) == Run(line, INITIAL)
    {
      var c := line[i];
      ghost var before := State(found, current, inWord, quote);
      ghost var rest := line[i..];
      ghost var start := i;
      if quote == Single {
        if c == '\'' {
          quote := Unquoted;
        } else {
          current := current + [c];
        }
      } else if quote == Double {
        if c == '"' {
          quote := Unquoted;
        } else if c == '\\' && i + 1 < |line| && (line[i + 1] == '"' || line[i + 1] == '\\') {
          i := i + 1;
          current := current + [line[i]];
        } else {
          current := current + [c];
        }
      } else if c == '\'' || c == '"' {
        quote := if c == '"' then Double else Single;
        inWord := true;
      } else if c == '\\' && i + 1 < |line| {
        i := i + 1;
        current := current + [line[i]];
        inWord := true;
      } else if IsSpace(c) {
        if inWord {
          found := found + [current];
        }
        current := "";
        inWord := false;
      } else {
        current := current + [c];
        inWord := true;
      }
      i := i + 1;
      assert rest[0] == c && (|rest| > 1 ==> rest[1] == line[start + 1]);
      assert rest[Taken(rest, before)..] == line[i..];
    }
    if quote != Unquoted {
      return None;
    }
    if inWord {
      found := found + [current];
    }
    return Some(found);
  }

  // ---- `joinWords` ----

  predicate IsPlain(word: string) {
    word != "" && forall i :: 0 <= i < |word| ==> !IsSpace(word[i]) && !IsQuote(word[i]) && word[i] != '\\'
  }

  function Escaped(word: string): string {
    if word == "" then ""
    else (if word[0] == '"' || word[0] == '\\' then ['\\', word[0]] else [word[0]]) + Escaped(word[1..])
  }

  function Quoted(word: string): string {
    if IsPlain(word) then word
    else if '\'' !in word then "'" + word + "'"
    else "\"" + Escaped(word) + "\""
  }

  function Join(words: seq<string>): string {
    if words == [] then ""
    else if |words| == 1 then Quoted(words[0])
    else Quoted(words[0]) + " " + Join(words[1..])
  }

  // ---- What quotes and backslashes do ----

  /** Between single quotes everything stands for itself, backslashes and double quotes too. */
  lemma SingleQuoted(body: string)
    requires '\'' !in body
    ensures Split("'" + body + "'") == Some([body])
  {
    assert "'" + body + "'" == "'" + (body + "'" + "");
    OpensQuote("'", body + "'" + "", INITIAL);
    RunSingle(body, "", INITIAL.(quote := Single, inWord := true));
    assert "" + body == body && [] + [body] == [body];
  }

  /** A backslash between double quotes that has neither of the two behind it. */
  ghost predicate IsLiteral(body: string) {
    && (forall i :: 0 <= i < |body| ==> body[i] != '"')
    && (forall i :: 0 <= i < |body| && body[i] == '\\' ==> i + 1 < |body| && body[i + 1] != '\\')
  }

  /** Between double quotes a backslash takes only a quote or a backslash: before anything else it stands for itself. */
  lemma DoubleQuoted(body: string)
    requires IsLiteral(body)
    ensures Split("\"" + body + "\"") == Some([body])
  {
    assert "\"" + body + "\"" == "\"" + (body + "\"" + "");
    OpensQuote("\"", body + "\"" + "", INITIAL);
    RunLiteral(body, "", INITIAL.(quote := Double, inWord := true));
    assert "" + body == body && [] + [body] == [body];
  }

  lemma {:induction false} RunLiteral(body: string, rest: string, s: State)
    requires IsLiteral(body) && s.quote.Double? && s.inWord
    ensures Run(body + "\"" + rest, s) == Run(rest, s.(current := s.current + body, quote := Unquoted))
    decreases |body|
  {
    var line := body + "\"" + rest;
    if body == "" {
      assert line[1..] == rest && s.current + body == s.current;
    } else {
      var t := s.(current := s.current + [body[0]]);
      assert line[1..] == body[1..] + "\"" + rest;
      assert body[0] == '\\' ==> line[1] == body[1] && line[1] != '"';
      assert Reads(line, s) == t && Taken(line, s) == 1;
      forall i | 0 <= i < |body[1..]| && body[1..][i] == '\\' ensures i + 1 < |body[1..]| && body[1..][i + 1] != '\\' {
        assert body[i + 1] == '\\';
      }
      RunLiteral(body[1..], rest, t);
      assert t.current + body[1..] == s.current + body;
    }
  }

  /** Outside quotes a backslash takes whatever is behind it, a space too; one at the end stands for itself. */
  lemma Backslashes(c: char)
    ensures Split(['\\', c]) == Some([[c]])
    ensures Split("\\") == Some(["\\"])
  {
    var s := INITIAL.(current := [c], inWord := true);
    assert "" + [c] == [c] && ['\\', c][2..] == "" && "\\"[1..] == "" && "" + "\\" == "\\";
    assert Reads(['\\', c], INITIAL) == s;
    assert Run(['\\', c], INITIAL) == Run("", s);
    assert Run("\\", INITIAL) == Run("", INITIAL.(current := "\\", inWord := true));
    assert [] + [[c]] == [[c]] && [] + ["\\"] == ["\\"];
  }

  // ---- Reading back what was joined ----

  lemma {:induction false} RunPlain(word: string, rest: string, s: State)
    requires s.quote.Unquoted? && forall i :: 0 <= i < |word| ==> !IsSpace(word[i]) && !IsQuote(word[i]) && word[i] != '\\'
    ensures Run(word + rest, s) == Run(rest, if word == "" then s else s.(current := s.current + word, inWord := true))
    decreases |word|
  {
    if word == "" {
      assert word + rest == rest;
    } else {
      var line := word + rest;
      assert line[1..] == word[1..] + rest;
      var t := s.(current := s.current + [word[0]], inWord := true);
      assert Reads(line, s) == t && Taken(line, s) == 1;
      RunPlain(word[1..], rest, t);
      assert t.current + word[1..] == s.current + word;
      assert word[1..] == "" ==> t.current == s.current + word;
    }
  }

  lemma {:induction false} RunSingle(word: string, rest: string, s: State)
    requires s.quote.Single? && '\'' !in word
    ensures Run(word + "'" + rest, s) == Run(rest, s.(current := s.current + word, quote := Unquoted))
    decreases |word|
  {
    var line := word + "'" + rest;
    if word == "" {
      assert line[1..] == rest && s.current + word == s.current;
    } else {
      assert line[1..] == word[1..] + "'" + rest;
      var t := s.(current := s.current + [word[0]]);
      assert Reads(line, s) == t && Taken(line, s) == 1;
      RunSingle(word[1..], rest, t);
      assert t.current + word[1..] == s.current + word;
    }
  }

  lemma {:induction false} RunDouble(word: string, rest: string, s: State)
    requires s.quote.Double? && s.inWord
    ensures Run(Escaped(word) + "\"" + rest, s) == Run(rest, s.(current := s.current + word, quote := Unquoted))
    decreases |word|
  {
    var line := Escaped(word) + "\"" + rest;
    if word == "" {
      assert line[1..] == rest && s.current + word == s.current;
    } else {
      hide Run, Escaped;
      var t := s.(current := s.current + [word[0]]);
      RunEscaped(word, rest, s);
      RunDouble(word[1..], rest, t);
      assert t.current + word[1..] == s.current + word;
    }
  }

  /** Between double quotes, one character of the word is read from what was printed for it. */
  lemma RunEscaped(word: string, rest: string, s: State)
    requires s.quote.Double? && s.inWord && word != ""
    ensures Run(Escaped(word) + "\"" + rest, s) ==
            Run(Escaped(word[1..]) + "\"" + rest, s.(current := s.current + [word[0]]))
  {
    var line, more := Escaped(word) + "\"" + rest, Escaped(word[1..]) + "\"" + rest;
    if word[0] == '"' || word[0] == '\\' {
      assert line == ['\\', word[0]] + more;
      hide Escaped;
      assert line[2..] == more && line[0] == '\\' && line[1] == word[0];
      ReadsOn(line, s, more, s.(current := s.current + [word[0]]));
    } else {
      assert line == [word[0]] + more;
      hide Escaped;
      assert line[1..] == more && line[0] == word[0];
      ReadsOn(line, s, more, s.(current := s.current + [word[0]]));
    }
  }

  /** A word as it is printed is read as that word, whatever stands after it. */
  lemma RunQuoted(word: string, rest: string, s: State)
    requires s.quote.Unquoted? && s.current == ""
    ensures Run(Quoted(word) + rest, s) == Run(rest, s.(current := word, inWord := true))
  {
    var t := s.(inWord := true);
    assert "" + word == word;
    if IsPlain(word) {
      RunPlain(word, rest, s);
    } else if '\'' !in word {
      assert Quoted(word) + rest == "'" + (word + "'" + rest);
      OpensQuote("'", word + "'" + rest, s);
      RunSingle(word, rest, t.(quote := Single));
    } else {
      assert Quoted(word) + rest == "\"" + (Escaped(word) + "\"" + rest);
      OpensQuote("\"", Escaped(word) + "\"" + rest, s);
      RunDouble(word, rest, t.(quote := Double));
    }
  }

  lemma OpensQuote(mark: string, more: string, s: State)
    requires s.quote.Unquoted? && |mark| == 1 && IsQuote(mark[0])
    ensures Run(mark + more, s) == Run(more, s.(quote := if mark[0] == '"' then Double else Single, inWord := true))
  {
    var line := mark + more;
    assert line[1..] == more && line[0] == mark[0];
  }

  lemma {:induction false} RunJoined(words: seq<string>, before: seq<string>)
    requires words != []
    ensures Result(Run(Join(words), State(before, "", false, Unquoted))) == Some(before + words)
    decreases |words|
  {
    hide Run, Join, Quoted;
    var s := State(before, "", false, Unquoted);
    JoinedFirst(words);
    if |words| == 1 {
      RunQuoted(words[0], "", s);
      RunsOut(s.(current := words[0], inWord := true));
      assert words == [words[0]];
    } else {
      var rest := " " + Join(words[1..]);
      RunQuoted(words[0], rest, s);
      SpaceEndsWord(Join(words[1..]), s.(current := words[0], inWord := true));
      RunJoined(words[1..], before + [words[0]]);
      assert before + [words[0]] + words[1..] == before + words;
    }
  }

  lemma RunsOut(s: State)
    ensures Run("", s) == s
  {
  }

  lemma JoinedFirst(words: seq<string>)
    requires words != []
    ensures Join(words) == Quoted(words[0]) + if |words| == 1 then "" else " " + Join(words[1..])
  {
    hide Quoted;
    assert Quoted(words[0]) + "" == Quoted(words[0]);
    assert |words| > 1 ==> Quoted(words[0]) + " " + Join(words[1..]) == Quoted(words[0]) + (" " + Join(words[1..]));
  }

  lemma SpaceEndsWord(more: string, s: State)
    requires s.quote.Unquoted? && s.inWord
    ensures Run(" " + more, s) == Run(more, State(s.words + [s.current], "", false, Unquoted))
  {
    assert (" " + more)[1..] == more;
  }

  /** Any list of arguments, printed as a line and split, is the same list. */
  lemma SplitJoin(words: seq<string>)
    ensures Split(Join(words)) == Some(words)
  {
    if words != [] {
      RunJoined(words, []);
      assert [] + words == words;
    }
  }

  // ---- Splitting two lines put together ----

  /** The line ends in a backslash that would take the next character, were there one. */
  ghost predicate Dangles(line: string, s: State)
    decreases |line|
  {
    line != "" && ((line == "\\" && s.quote.Unquoted?) || Dangles(line[Taken(line, s)..], Reads(line, s)))
  }

  lemma {:induction false} RunOn(a: string, b: string, s: State)
    requires !Dangles(a, s) && Run(a, s).quote.Unquoted?
    ensures Run(a + b, s) == Run(b, Run(a, s))
    decreases |a|
  {
    if a == "" {
      assert a + b == b;
    } else {
      var n := Taken(a, s);
      assert |a| == 1 ==> a[1..] == "";
      assert (a + b)[0] == a[0] && (|a| > 1 ==> (a + b)[1] == a[1]);
      assert Taken(a + b, s) == n && Reads(a + b, s) == Reads(a, s);
      assert (a + b)[n..] == a[n..] + b;
      RunOn(a[n..], b, Reads(a, s));
    }
  }

  lemma {:induction false} RunCarries(line: string, before: seq<string>, s: State)
    ensures Run(line, s.(words := before + s.words)) == Run(line, s).(words := before + Run(line, s).words)
    decreases |line|
  {
    if line != "" {
      var t := s.(words := before + s.words);
      assert before + s.words + [s.current] == before + (s.words + [s.current]);
      assert Reads(line, t) == Reads(line, s).(words := before + Reads(line, s).words);
      RunCarries(line[Taken(line, s)..], before, Reads(line, s));
    }
  }

  ghost function Both(a: Option<seq<string>>, b: Option<seq<string>>): Option<seq<string>> {
    if a.Some? && b.Some? then Some(a.value + b.value) else None
  }

  lemma SplitsApart(a: string, b: string)
    requires Split(a).Some? && !Dangles(a, INITIAL)
    ensures Split(a + " " + b) == Both(Split(a), Split(b))
  {
    var s := Run(a, INITIAL);
    assert a + " " + b == a + (" " + b);
    RunOn(a, " " + b, INITIAL);
    assert (" " + b)[1..] == b;
    assert Run(" " + b, s) == Run(b, State(Split(a).value, "", false, Unquoted));
    RunCarries(b, Split(a).value, INITIAL);
    assert Split(a).value + [] == Split(a).value;
    var u := Run(b, INITIAL);
    assert Split(a).value + u.words + [u.current] == Split(a).value + (u.words + [u.current]);
  }

  /** A space after a dangling backslash is taken into the word, in its place. */
  lemma {:induction false} DanglingTakesSpace(a: string, s: State)
    requires Dangles(a, s) && Run(a, s).quote.Unquoted?
    ensures var t := Run(a, s);
            var u := Run(a + " ", s);
            && t.inWord && u.inWord && u.quote.Unquoted? && t.words == u.words
            && |t.current| > 0 && t.current[|t.current| - 1] == '\\' && u.current != t.current
    decreases |a|
  {
    var n := Taken(a, s);
    if a == "\\" && s.quote.Unquoted? {
      assert a + " " == "\\ ";
      assert (a + " ")[2..] == "" && a[1..] == "";
      assert Run(a + " ", s) == s.(current := s.current + " ", inWord := true);
      assert Run(a, s) == s.(current := s.current + "\\", inWord := true);
      assert (s.current + " ")[|s.current|] != (s.current + "\\")[|s.current|];
    } else {
      assert a[1..] == "" ==> !Run(a, s).quote.Unquoted? || a == "\\";
      assert (a + " ")[n..] == a[n..] + " ";
      assert Taken(a + " ", s) == n && Reads(a + " ", s) == Reads(a, s);
      DanglingTakesSpace(a[n..], Reads(a, s));
    }
  }

  /**
   For a line that splits: splitting it and anything put after it with a space is splitting the
   two apart, exactly when it does not end in a backslash that would take that space.
   */
  lemma SplitsApartIff(a: string)
    requires Split(a).Some?
    ensures (forall b :: Split(a + " " + b) == Both(Split(a), Split(b))) <==> !Dangles(a, INITIAL)
  {
    if Dangles(a, INITIAL) {
      DanglingTakesSpace(a, INITIAL);
      var t, u := Run(a, INITIAL), Run(a + " ", INITIAL);
      assert a + " " + "" == a + " ";
      assert Split(a + " ").value[|u.words|] == u.current && Both(Split(a), Split("")).value[|t.words|] == t.current;
      assert Split(a + " " + "") != Both(Split(a), Split(""));
    } else {
      forall b ensures Split(a + " " + b) == Both(Split(a), Split(b)) {
        SplitsApart(a, b);
      }
    }
  }

  lemma ReadsOn(line: string, s: State, rest: string, t: State)
    requires line != "" && line[Taken(line, s)..] == rest && Reads(line, s) == t
    ensures Run(line, s) == Run(rest, t)
  {
  }

  /** A backslash alone is a word of its own, and with a space and a word behind it the three are one. */
  lemma ABackslashTakesTheSpace()
    ensures Split("\\") == Some(["\\"]) && Split("b") == Some(["b"])
    ensures Split("\\" + " " + "b") == Some([" b"])
  {
    assert [] + ["\\"] == ["\\"] && [] + ["b"] == ["b"] && [] + [" b"] == [" b"];
    ReadsOn("\\", INITIAL, "", State([], "\\", true, Unquoted));
    ReadsOn("b", INITIAL, "", State([], "b", true, Unquoted));
    assert "\\" + " " + "b" == "\\ b" && "\\ b"[2..] == "b";
    ReadsOn("\\ b", INITIAL, "b", State([], " ", true, Unquoted));
    ReadsOn("b", State([], " ", true, Unquoted), "", State([], " b", true, Unquoted));
  }
}
