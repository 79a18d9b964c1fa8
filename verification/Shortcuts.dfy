/**
 Keyboard bindings: which are allowed, and what is made of the saved ones, whatever was saved.
 */
module Shortcuts {
  import opened Options

  type Binding = Option<string>

  /** The commands' default keys, in the order of the commands. */
  const DEFAULTS: seq<Binding> := [
    Some("k"), Some("/"), Some(","), Some("o"), Some("n"), Some("t"), Some("w"), Some("b"), Some("Alt+b"), Some("l"), Some("e"), Some("r"),
    Some("ArrowUp"), Some("ArrowDown"), Some("ArrowLeft"), Some("ArrowRight"), None, None, None, None, None, None, None]

  const COUNT := 23

  // ---- What is allowed ----

  predicate IsKey(key: string) {
    || (|key| == 1 && ('a' <= key[0] <= 'z' || key[0] == ',' || key[0] == '/'))
    || key == "ArrowUp" || key == "ArrowDown" || key == "ArrowLeft" || key == "ArrowRight"
  }

  /** Copy, paste and save. */
  predicate IsReserved(key: string) {
    key == "c" || key == "v" || key == "s"
  }

  predicate HasAlt(key: string) {
    |key| > 4 && key[0] == 'A' && key[1] == 'l' && key[2] == 't' && key[3] == '+'
  }

  predicate IsValidKey(key: string) {
    var base := if HasAlt(key) then key[4..] else key;
    IsKey(base) && !IsReserved(base)
  }

  /** A letter other than those for copy, paste and save, a comma, a slash or an arrow, with Alt or without. */
  lemma ValidKeyIff(key: string)
    ensures IsValidKey(key) <==> exists base :: IsBase(base) && (key == base || key == "Alt+" + base)
  {
    hide IsKey, IsReserved, IsBase;
    BaseIff(if HasAlt(key) then key[4..] else key);
    if HasAlt(key) {
      assert key == "Alt+" + key[4..];
    }
    if base :| IsBase(base) && (key == base || key == "Alt+" + base) {
      BaseIff(base);
      if key != base {
        assert key[4..] == base;
      }
    }
  }

  lemma BaseIff(base: string)
    ensures IsKey(base) && !IsReserved(base) <==> IsBase(base)
    ensures IsBase(base) ==> base != "" && !HasAlt(base)
  {
    if |base| == 1 && 'a' <= base[0] <= 'z' && !IsReserved(base) {
      assert base[0] != 'c' && base[0] != 'v' && base[0] != 's' by {
        assert base == [base[0]];
      }
      LetterIsListed(base[0]);
    }
  }

  lemma LetterIsListed(c: char)
    requires 'a' <= c <= 'z' && c != 'c' && c != 'v' && c != 's'
    ensures c in "abdefghijklmnopqrtuwxyz"
  {
    var letters := "abdefghijklmnopqrtuwxyz";
    var i := c as int - 'a' as int;
    assert letters[if c < 'c' then i else if c < 's' then i - 1 else if c < 'v' then i - 2 else i - 3] == c;
  }

  ghost predicate IsBase(base: string) {
    || base == "," || base == "/" || base == "ArrowUp" || base == "ArrowDown" || base == "ArrowLeft" || base == "ArrowRight"
    || (|base| == 1 && base[0] in "abdefghijklmnopqrtuwxyz")
  }

  predicate IsValid(binding: Binding) {
    binding.None? || IsValidKey(binding.value)
  }

  /** Every binding is allowed and no key is bound twice. */
  ghost predicate IsAccepted(bindings: seq<Binding>) {
    IsAcceptedTo(bindings, |bindings|)
  }

  ghost predicate IsAcceptedTo(bindings: seq<Binding>, n: nat)
    requires n <= |bindings|
  {
    && (forall i :: 0 <= i < n ==> IsValid(bindings[i]))
    && forall i, j :: 0 <= i < j < n && bindings[i].Some? ==> bindings[i] != bindings[j]
  }

  lemma AcceptedNext(bindings: seq<Binding>, n: nat)
    requires n < |bindings| && IsAcceptedTo(bindings, n) && IsValid(bindings[n])
    requires bindings[n].Some? ==> forall i :: 0 <= i < n ==> bindings[i] != bindings[n]
    ensures IsAcceptedTo(bindings, n + 1)
  {
  }

  lemma InvalidIsRefused(bindings: seq<Binding>, i: nat)
    requires i < |bindings| && !IsValid(bindings[i])
    ensures !IsAccepted(bindings)
  {
  }

  datatype Problem = Invalid(command: nat) | Conflict(command: nat, with: nat)

  lemma RepeatedIsRefused(bindings: seq<Binding>, i: nat, j: nat)
    requires i < j < |bindings| && bindings[i].Some? && bindings[i] == bindings[j]
    ensures !IsAccepted(bindings)
  {
  }

  /** `bindingError`. */
  method BindingError(bindings: seq<Binding>) returns (problem: Option<Problem>)
    ensures problem.None? <==> IsAccepted(bindings)
    ensures problem.Some? && problem.value.Invalid? ==> problem.value.command < |bindings| && !IsValid(bindings[problem.value.command])
    ensures problem.Some? && problem.value.Conflict? ==>
              problem.value.with < problem.value.command < |bindings| && bindings[problem.value.command].Some?
              && bindings[problem.value.with] == bindings[problem.value.command]
  {
    var used: map<string, nat> := map[];
    for i := 0 to |bindings|
      invariant IsAcceptedTo(bindings, i)
      invariant forall key :: key in used ==> used[key] < i && bindings[used[key]] == Some(key)
      invariant forall j :: 0 <= j < i && bindings[j].Some? ==> bindings[j].value in used
    {
      var binding := bindings[i];
      if !IsValid(binding) {
        InvalidIsRefused(bindings, i);
        return Some(Invalid(i));
      }
      if binding.Some? {
        if binding.value in used {
          RepeatedIsRefused(bindings, used[binding.value], i);
          return Some(Conflict(i, used[binding.value]));
        }
        used := used[binding.value := i];
      }
      AcceptedNext(bindings, i);
    }
    return None;
  }

  // ---- What was saved ----

  datatype Value = Null | Text(text: string) | Other

  /** The saved text as JSON, or what is wrong with it. */
  datatype Saved = Missing | NotJson | NotAMap | Commands(values: map<nat, Value>)

  function Choice(saved: map<nat, Value>, i: nat): Option<Binding> {
    if i !in saved then None
    else
      match saved[i]
      case Null => Some(None)
      case Text(text) => if IsValidKey(text) then Some(Some(text)) else None
      case Other => None
  }

  /** An earlier command was saved with the same key. */
  ghost predicate IsRepeated(saved: map<nat, Value>, i: nat) {
    && Choice(saved, i).Some? && Choice(saved, i).value.Some?
    && exists j: nat :: j < i && Choice(saved, j) == Choice(saved, i)
  }

  /** A saved choice other than an earlier one's key is kept; a repeated one is left unassigned. */
  ghost function Kept(saved: map<nat, Value>, i: nat): Binding
    requires Choice(saved, i).Some?
  {
    if IsRepeated(saved, i) then None else Choice(saved, i).value
  }

  /** The key was saved for some command. */
  ghost predicate IsSavedKey(saved: map<nat, Value>, binding: Binding) {
    binding.Some? && exists j: nat :: j < COUNT && Choice(saved, j) == Some(binding)
  }

  /** What is read for a command, given the commands' defaults. */
  ghost function Recovered(defaults: seq<Binding>, saved: map<nat, Value>, i: nat): Binding
    requires i < |defaults| == COUNT
  {
    if Choice(saved, i).Some? then Kept(saved, i)
    else if IsSavedKey(saved, defaults[i]) then None
    else defaults[i]
  }

  /** A saved binding was invalid, or duplicates an earlier one. */
  ghost predicate IsFaulty(saved: map<nat, Value>, i: nat) {
    (i in saved && Choice(saved, i).None?) || IsRepeated(saved, i)
  }

  /** A default's key was saved for another command. */
  ghost predicate IsDisplaced(defaults: seq<Binding>, saved: map<nat, Value>, i: nat)
    requires i < |defaults|
  {
    Choice(saved, i).None? && IsSavedKey(saved, defaults[i])
  }

  ghost predicate AnyFaulty(saved: map<nat, Value>, n: nat) {
    exists i: nat :: i < n && IsFaulty(saved, i)
  }

  ghost predicate AnyDisplaced(defaults: seq<Binding>, saved: map<nat, Value>, n: nat)
    requires n <= |defaults|
  {
    exists i: nat :: i < n && IsDisplaced(defaults, saved, i)
  }

  ghost predicate IsReadFrom(defaults: seq<Binding>, saved: map<nat, Value>, bindings: seq<Binding>, notice: bool)
    requires |defaults| == COUNT
  {
    && |bindings| == COUNT
    && (forall i :: 0 <= i < COUNT ==> bindings[i] == Recovered(defaults, saved, i))
    && (notice <==> AnyFaulty(saved, COUNT) || AnyDisplaced(defaults, saved, COUNT))
  }

  ghost predicate IsRead(saved: Saved, bindings: seq<Binding>, notice: bool) {
    match saved
    case Missing => bindings == DEFAULTS && !notice
    case NotJson => bindings == DEFAULTS && notice
    case NotAMap => bindings == DEFAULTS && notice
    case Commands(values) => IsReadFrom(DEFAULTS, values, bindings, notice)
  }

  lemma DefaultsAreAccepted()
    ensures IsAccepted(DEFAULTS) && |DEFAULTS| == COUNT
  {
    hide IsValid;
    DefaultsAreValid();
    forall i, j | 0 <= i < j < |DEFAULTS| && DEFAULTS[i].Some? ensures DEFAULTS[i] != DEFAULTS[j] {
    }
  }

  lemma DefaultsAreValid()
    ensures forall i :: 0 <= i < |DEFAULTS| ==> IsValid(DEFAULTS[i])
  {
    assert "Alt+b"[4..] == "b";
  }

  // ---- Reading them ----

  /** The key is saved for one of the first `n` commands. */
  ghost predicate IsTaken(saved: map<nat, Value>, key: string, n: nat) {
    exists j: nat :: j < n && Choice(saved, j) == Some(Some(key))
  }

  /** The loop over the saved choices. `used` are the keys they took. */
  method ReadSaved(defaults: seq<Binding>, saved: map<nat, Value>)
    returns (bindings: seq<Binding>, used: set<string>, needsDefault: set<nat>, notice: bool)
    requires |defaults| == COUNT
    ensures |bindings| == COUNT
    ensures forall i :: 0 <= i < COUNT ==> (i in needsDefault <==> Choice(saved, i).None?)
    ensures forall i :: 0 <= i < COUNT && Choice(saved, i).Some? ==> bindings[i] == Kept(saved, i)
    ensures forall key :: key in used <==> IsTaken(saved, key, COUNT)
    ensures notice <==> AnyFaulty(saved, COUNT)
  {
    bindings, used, needsDefault, notice := defaults, {}, {}, false;
    for i := 0 to COUNT
      invariant |bindings| == COUNT
      invariant forall j :: j in needsDefault ==> j < i
      invariant forall j :: 0 <= j < i ==> (j in needsDefault <==> Choice(saved, j).None?)
      invariant forall j :: 0 <= j < i && Choice(saved, j).Some? ==> bindings[j] == Kept(saved, j)
      invariant forall key :: key in used <==> IsTaken(saved, key, i)
      invariant notice <==> AnyFaulty(saved, i)
    {
      var choice := Choice(saved, i);
      RepeatedIfTaken(saved, i);
      FaultyNext(saved, i);
      if choice.None? {
        needsDefault := needsDefault + {i};
        notice := notice || i in saved;
      } else if choice.value.Some? && choice.value.value in used {
        bindings := bindings[i := None];
        notice := true;
      } else {
        bindings := bindings[i := choice.value];
        if choice.value.Some? {
          used := used + {choice.value.value};
        }
      }
      forall key ensures key in used <==> IsTaken(saved, key, i + 1) {
        TakenNext(saved, key, i);
      }
    }
  }

  lemma TakenNext(saved: map<nat, Value>, key: string, n: nat)
    ensures IsTaken(saved, key, n + 1) <==> IsTaken(saved, key, n) || Choice(saved, n) == Some(Some(key))
  {
    if IsTaken(saved, key, n) {
      var j: nat :| j < n && Choice(saved, j) == Some(Some(key));
    }
  }

  lemma FaultyNext(saved: map<nat, Value>, n: nat)
    ensures AnyFaulty(saved, n + 1) <==> AnyFaulty(saved, n) || IsFaulty(saved, n)
  {
    if AnyFaulty(saved, n) {
      var i: nat :| i < n && IsFaulty(saved, i);
    }
  }

  lemma DisplacedNext(defaults: seq<Binding>, saved: map<nat, Value>, n: nat)
    requires n < |defaults|
    ensures AnyDisplaced(defaults, saved, n + 1) <==> AnyDisplaced(defaults, saved, n) || IsDisplaced(defaults, saved, n)
  {
    if AnyDisplaced(defaults, saved, n) {
      var i: nat :| i < n && IsDisplaced(defaults, saved, i);
    }
  }

  lemma RepeatedIfTaken(saved: map<nat, Value>, i: nat)
    ensures IsRepeated(saved, i) <==> Choice(saved, i).Some? && Choice(saved, i).value.Some? && IsTaken(saved, Choice(saved, i).value.value, i)
  {
  }

  /** `readBindings`. */
  method ReadBindings(saved: Saved) returns (bindings: seq<Binding>, notice: bool)
    ensures IsRead(saved, bindings, notice)
  {
    match saved {
      case Missing => return DEFAULTS, false;
      case NotJson => return DEFAULTS, true;
      case NotAMap => return DEFAULTS, true;
      case Commands(values) =>
        DefaultsAreAccepted();
        bindings, notice := FillDefaults(DEFAULTS, values);
    }
  }

  /** The second loop: a default only where its key is free. */
  method FillDefaults(defaults: seq<Binding>, saved: map<nat, Value>) returns (bindings: seq<Binding>, notice: bool)
    requires |defaults| == COUNT && IsAccepted(defaults)
    ensures IsReadFrom(defaults, saved, bindings, notice)
  {
    var used, needsDefault, faulty;
    bindings, used, needsDefault, faulty := ReadSaved(defaults, saved);
    ghost var savedKeys := used;
    var displaced := false;
    for i := 0 to COUNT
      invariant |bindings| == COUNT
      invariant forall j :: 0 <= j < i ==> bindings[j] == Recovered(defaults, saved, j)
      invariant forall j :: i <= j < COUNT && Choice(saved, j).Some? ==> bindings[j] == Kept(saved, j)
      invariant savedKeys <= used
      invariant forall key :: key in used && key !in savedKeys ==> exists j :: 0 <= j < i && defaults[j] == Some(key)
      invariant displaced <==> AnyDisplaced(defaults, saved, i)
    {
      DisplacedNext(defaults, saved, i);
      if i in needsDefault {
        var key := defaults[i];
        assert key.Some? ==> (key.value in used <==> key.value in savedKeys);
        assert key.Some? ==> (IsSavedKey(saved, key) <==> IsTaken(saved, key.value, COUNT));
        if key.Some? && key.value in used {
          bindings := bindings[i := None];
          displaced := true;
        } else {
          bindings := bindings[i := key];
          if key.Some? {
            used := used + {key.value};
          }
        }
      }
    }
    notice := faulty || displaced;
  }

  // ---- What reading promises ----

  lemma {:induction false} FirstWith(saved: map<nat, Value>, i: nat) returns (first: nat)
    requires Choice(saved, i).Some? && Choice(saved, i).value.Some?
    ensures first <= i && Choice(saved, first) == Choice(saved, i) && !IsRepeated(saved, first)
    decreases i
  {
    if IsRepeated(saved, i) {
      var j: nat :| j < i && Choice(saved, j) == Choice(saved, i);
      first := FirstWith(saved, j);
    } else {
      first := i;
    }
  }

  lemma RecoveredDiffer(defaults: seq<Binding>, saved: map<nat, Value>, i: nat, j: nat)
    requires |defaults| == COUNT && IsAccepted(defaults)
    requires i < j < COUNT && Recovered(defaults, saved, i).Some?
    ensures Recovered(defaults, saved, i) != Recovered(defaults, saved, j)
  {
    if Choice(saved, i).Some? && Choice(saved, j).None? {
      assert IsSavedKey(saved, Choice(saved, i).value);
    }
    if Choice(saved, i).None? && Choice(saved, j).Some? && Recovered(defaults, saved, j).Some? {
      assert IsSavedKey(saved, Choice(saved, j).value);
    }
  }

  lemma RecoveredAccepted(defaults: seq<Binding>, saved: map<nat, Value>, bindings: seq<Binding>, notice: bool)
    requires |defaults| == COUNT && IsAccepted(defaults) && IsReadFrom(defaults, saved, bindings, notice)
    ensures IsAccepted(bindings)
  {
    forall i, j | 0 <= i < j < COUNT && bindings[i].Some? ensures bindings[i] != bindings[j] {
      RecoveredDiffer(defaults, saved, i, j);
    }
  }

  /** Whatever was saved, what is read is accepted. */
  lemma ReadIsAccepted(saved: Saved, bindings: seq<Binding>, notice: bool)
    requires IsRead(saved, bindings, notice)
    ensures IsAccepted(bindings) && |bindings| == COUNT
  {
    DefaultsAreAccepted();
    if saved.Commands? {
      RecoveredAccepted(DEFAULTS, saved.values, bindings, notice);
    }
  }

  /**
   A valid saved choice survives unless an earlier command was saved with its key, and no default
   takes the key of any saved choice: that key stays with a command it was saved for.
   */
  lemma SavedChoicesSurvive(defaults: seq<Binding>, saved: map<nat, Value>, bindings: seq<Binding>, notice: bool, i: nat)
    requires |defaults| == COUNT && IsReadFrom(defaults, saved, bindings, notice) && i < COUNT && Choice(saved, i).Some?
    ensures !IsRepeated(saved, i) ==> bindings[i] == Choice(saved, i).value
    ensures Choice(saved, i).value.Some? ==>
              exists k :: 0 <= k <= i && bindings[k] == Choice(saved, i).value && Choice(saved, k) == Choice(saved, i)
  {
    if Choice(saved, i).value.Some? {
      var first := FirstWith(saved, i);
      assert bindings[first] == Recovered(defaults, saved, first);
    }
  }

  /** A saved value that is neither a valid key nor null is as good as none, but for the notice. */
  lemma NotUnderstoodIsMissing(defaults: seq<Binding>, saved: map<nat, Value>, bindings: seq<Binding>, notice: bool, i: nat)
    requires |defaults| == COUNT && IsReadFrom(defaults, saved, bindings, notice)
    requires i < COUNT && i in saved && (saved[i].Other? || (saved[i].Text? && !IsValidKey(saved[i].text)))
    ensures notice && exists other: bool :: IsReadFrom(defaults, saved - {i}, bindings, other)
  {
    var without := saved - {i};
    assert forall j: nat :: Choice(without, j) == Choice(saved, j);
    assert IsFaulty(saved, i);
    forall j: nat ensures IsRepeated(without, j) <==> IsRepeated(saved, j) {
    }
    forall j | 0 <= j < COUNT ensures Recovered(defaults, without, j) == Recovered(defaults, saved, j) {
      assert IsSavedKey(without, defaults[j]) <==> IsSavedKey(saved, defaults[j]);
    }
    assert IsReadFrom(defaults, without, bindings, AnyFaulty(without, COUNT) || AnyDisplaced(defaults, without, COUNT));
  }

  /** The saved form of bindings: every command with its key, or null. */
  function SavedForm(bindings: seq<Binding>): map<nat, Value> {
    map i: nat | i < |bindings| :: if bindings[i].Some? then Text(bindings[i].value) else Null
  }

  /** Accepted bindings that are saved are read back as they are, and there is nothing to say. */
  lemma SavedIsReadBack(defaults: seq<Binding>, bindings: seq<Binding>, read: seq<Binding>, notice: bool)
    requires IsAccepted(bindings) && |bindings| == |defaults| == COUNT
    requires IsReadFrom(defaults, SavedForm(bindings), read, notice)
    ensures read == bindings && !notice
  {
    var saved := SavedForm(bindings);
    forall i: nat | i < COUNT ensures Choice(saved, i) == Some(bindings[i]) && !IsRepeated(saved, i) {
      forall j: nat | j < i ensures bindings[i].Some? ==> Choice(saved, j) != Choice(saved, i) {
        assert Choice(saved, j) == Some(bindings[j]);
      }
    }
    forall i | 0 <= i < COUNT ensures read[i] == bindings[i] && !IsFaulty(saved, i) && !IsDisplaced(defaults, saved, i) {
      assert read[i] == Recovered(defaults, saved, i);
    }
  }
}
