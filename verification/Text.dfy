/**
 Splitting text on a separator, as the parsers do, and decimal numbers.
 */
module Text {
  import opened Options

  /** No character of the text is the separator. */
  predicate Free(text: string, sep: char) {
    forall i :: 0 <= i < |text| ==> text[i] != sep
  }

  /** Where the separator first stands, or the length. */
  function IndexOf(text: string, sep: char): (at: nat)
    ensures at <= |text| && Free(text[..at], sep) && (at < |text| ==> text[at] == sep)
    decreases |text|
  {
    if text == "" || text[0] == sep then 0
    else
      var at := 1 + IndexOf(text[1..], sep);
      assert forall i :: 0 < i < at ==> text[i] == text[1..][i - 1];
      assert forall i :: 0 <= i < at ==> text[..at][i] != sep by {
        forall i | 0 <= i < at ensures text[..at][i] != sep {
          assert i > 0 ==> text[..at][i] == text[1..][..at - 1][i - 1];
        }
      }
      at
  }

  /** `split`: every piece, the empty ones too. */
  function Split(text: string, sep: char): (pieces: seq<string>)
    ensures |pieces| > 0
    decreases |text|
  {
    var at := IndexOf(text, sep);
    if at == |text| then [text] else [text[..at]] + Split(text[at + 1..], sep)
  }

  /** `splitn`: at most `n` pieces, the last with whatever separators are left. */
  function SplitN(text: string, sep: char, n: nat): (pieces: seq<string>)
    requires n > 0
    ensures 0 < |pieces| <= n
    decreases n
  {
    var at := IndexOf(text, sep);
    if n == 1 || at == |text| then [text] else [text[..at]] + SplitN(text[at + 1..], sep, n - 1)
  }

  lemma IndexOfFirst(head: string, sep: char, tail: string)
    requires Free(head, sep)
    ensures IndexOf(head + [sep] + tail, sep) == |head|
    ensures (head + [sep] + tail)[..|head|] == head && (head + [sep] + tail)[|head| + 1..] == tail
  {
    var text := head + [sep] + tail;
    var at := IndexOf(text, sep);
    assert text[|head|] == sep;
    assert forall i :: 0 <= i < at ==> text[..at][i] == text[i];
    assert forall i :: 0 <= i < |head| ==> text[i] == head[i];
  }

  lemma IndexOfNone(text: string, sep: char)
    requires Free(text, sep)
    ensures IndexOf(text, sep) == |text|
  {
  }

  lemma SplitFirst(head: string, sep: char, tail: string)
    requires Free(head, sep)
    ensures Split(head + [sep] + tail, sep) == [head] + Split(tail, sep)
  {
    IndexOfFirst(head, sep, tail);
  }

  lemma SplitNFirst(head: string, sep: char, tail: string, n: nat)
    requires Free(head, sep) && n > 1
    ensures SplitN(head + [sep] + tail, sep, n) == [head] + SplitN(tail, sep, n - 1)
  {
    IndexOfFirst(head, sep, tail);
  }

  // ---- Decimal numbers ----

  const U32_END := 0x1_0000_0000

  predicate IsDigit(c: char) {
    '0' <= c <= '9'
  }

  predicate AllDigits(text: string) {
    forall i :: 0 <= i < |text| ==> IsDigit(text[i])
  }

  function DigitValue(c: char): nat
    requires IsDigit(c)
  {
    c as nat - '0' as nat
  }

  function Value(text: string): nat
    requires AllDigits(text)
    decreases |text|
  {
    if text == "" then 0 else 10 * Value(text[..|text| - 1]) + DigitValue(text[|text| - 1])
  }

  function DigitOf(n: nat): (c: char)
    requires n < 10
    ensures IsDigit(c) && DigitValue(c) == n
  {
    '0' + n as char
  }

  function Decimal(n: nat): (text: string)
    ensures text != "" && AllDigits(text) && Value(text) == n
    decreases n
  {
    if n < 10 then
      var text := [DigitOf(n)];
      assert text[..0] == "" && text[0] == DigitOf(n);
      text
    else
      var front := Decimal(n / 10);
      var text := front + [DigitOf(n % 10)];
      assert text[..|text| - 1] == front;
      text
  }

  /** `str::parse::<u32>`: an optional plus sign, digits, and a value that fits. */
  function ParseU32(text: string): Option<nat> {
    var digits := if text != "" && text[0] == '+' then text[1..] else text;
    if digits != "" && AllDigits(digits) && Value(digits) < U32_END then Some(Value(digits)) else None
  }

  /** Decimal digits, at least one, of that value. */
  ghost predicate IsNumeral(text: string, n: nat) {
    text != "" && AllDigits(text) && Value(text) == n
  }

  /** A number is read exactly from its digits, leading zeros and one plus sign allowed, if it is below 2 to the 32nd. */
  lemma U32Iff(text: string, n: nat)
    ensures ParseU32(text) == Some(n) <==>
            n < 4_294_967_296 && exists digits :: IsNumeral(digits, n) && (text == digits || text == "+" + digits)
  {
    if ParseU32(text) == Some(n) {
      assert text == text[..1] + text[1..];
      assert IsNumeral(if text[0] == '+' then text[1..] else text, n);
    }
    if digits :| n < 4_294_967_296 && IsNumeral(digits, n) && (text == digits || text == "+" + digits) {
      assert IsDigit(digits[0]);
      assert text == "+" + digits ==> text[1..] == digits;
    }
  }

  lemma ParseDecimal(n: nat)
    requires n < U32_END
    ensures ParseU32(Decimal(n)) == Some(n)
  {
    assert IsDigit(Decimal(n)[0]);
  }
}
