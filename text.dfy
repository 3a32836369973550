/**
 * The string operations the bot relies on, restricted to ASCII: str.strip(),
 * str.lower(), the `in` substring test and int() in base 10.
 */
module Text {
  import opened Wrappers

  /** The ASCII characters for which Python's str.isspace() holds: tab, line
      feed, vertical tab, form feed, carriage return, the four information
      separators and the space. */
  predicate IsSpace(c: char) {
    c == ' ' || '\t' <= c <= '\r' || '\U{1C}' <= c <= '\U{1F}'
  }

  predicate IsBlank(s: string) {
    forall k :: 0 <= k < |s| ==> IsSpace(s[k])
  }

  /** The number of whitespace characters s starts with. */
  function LeadingBlanks(s: string): (n: nat)
    ensures n <= |s|
    ensures forall k :: 0 <= k < n ==> IsSpace(s[k])
    ensures n < |s| ==> !IsSpace(s[n])
  {
    if |s| > 0 && IsSpace(s[0]) then
      var n := 1 + LeadingBlanks(s[1..]);
      assert forall k :: 1 <= k < n ==> s[k] == s[1..][k - 1];
      n
    else 0
  }

  /** The number of whitespace characters s ends with. */
  function TrailingBlanks(s: string): (n: nat)
    ensures n <= |s|
    ensures forall k :: |s| - n <= k < |s| ==> IsSpace(s[k])
    ensures n < |s| ==> !IsSpace(s[|s| - 1 - n])
  {
    if |s| > 0 && IsSpace(s[|s| - 1]) then
      var n := 1 + TrailingBlanks(s[..|s| - 1]);
      assert forall k :: 0 <= k < |s| - 1 ==> s[k] == s[..|s| - 1][k];
      n
    else 0
  }

  /** str.strip(): the text between the leading and the trailing whitespace,
      empty when the text is all whitespace. */
  function Strip(s: string): (r: string)
    ensures r == [] || (!IsSpace(r[0]) && !IsSpace(r[|r| - 1]))
    ensures r == [] <==> IsBlank(s)
  {
    var i := LeadingBlanks(s);
    if i == |s| then []
    else
      var j := TrailingBlanks(s);
      s[i..|s| - j]
  }

  /** Strip drops whitespace at the two ends and keeps everything between: the
      result is the infix of s after its leading whitespace, and only
      whitespace follows it. */
  lemma StripDropsOnlyBlanks(s: string)
    ensures var i := LeadingBlanks(s);
            var r := Strip(s);
            && i + |r| <= |s| && r == s[i..i + |r|]
            && (forall k :: 0 <= k < i ==> IsSpace(s[k]))
            && (forall k :: i + |r| <= k < |s| ==> IsSpace(s[k]))
  {
  }

  /** Text with no whitespace at either end is left as it is. */
  lemma StripKeepsTrimmed(s: string)
    requires |s| > 0 && !IsSpace(s[0]) && !IsSpace(s[|s| - 1])
    ensures Strip(s) == s
  {
  }

  function LowerChar(c: char): char {
    if 'A' <= c <= 'Z' then (c as int + 32) as char else c
  }

  /** str.lower() on ASCII letters; every other character is kept. */
  function Lower(s: string): (r: string)
    ensures |r| == |s|
  {
    seq(|s|, k requires 0 <= k < |s| => LowerChar(s[k]))
  }

  /** q occurs in t starting at position i. */
  predicate OccursAt(q: string, t: string, i: int) {
    0 <= i && i + |q| <= |t| && t[i..i + |q|] == q
  }

  ghost predicate IsSubstring(q: string, t: string) {
    exists i :: OccursAt(q, t, i)
  }

  /** Python's `q in t` on strings, scanning t from the left. */
  function Contains(q: string, t: string): (b: bool)
    ensures b <==> IsSubstring(q, t)
    decreases |t|
  {
    if |q| > |t| then false
    else if t[..|q|] == q then
      assert OccursAt(q, t, 0);
      true
    else
      var b := Contains(q, t[1..]);
      ShiftOccurrence(q, t);
      b
  }

  lemma ShiftOccurrence(q: string, t: string)
    requires |t| > 0 && |q| <= |t| && t[..|q|] != q
    ensures IsSubstring(q, t[1..]) <==> IsSubstring(q, t)
  {
    if IsSubstring(q, t[1..]) {
      var i :| OccursAt(q, t[1..], i);
      assert t[1..][i..i + |q|] == t[i + 1..i + 1 + |q|];
      assert OccursAt(q, t, i + 1);
    }
    if IsSubstring(q, t) {
      var i :| OccursAt(q, t, i);
      assert i != 0;
      assert t[1..][i - 1..i - 1 + |q|] == t[i..i + |q|];
      assert OccursAt(q, t[1..], i - 1);
    }
  }

  predicate IsDigit(c: char) {
    '0' <= c <= '9'
  }

  /** The body of a base-10 literal as int() accepts it: digits, with single
      underscores allowed between two digits ("1_0" reads as 10). */
  predicate IsDigitGroup(s: string) {
    && |s| > 0
    && IsDigit(s[0])
    && forall k :: 0 <= k < |s| ==> DigitOrJoin(s, k)
  }

  /** Position k of s holds a digit, or an underscore followed by a digit. */
  predicate DigitOrJoin(s: string, k: int)
    requires 0 <= k < |s|
  {
    IsDigit(s[k]) || (s[k] == '_' && k + 1 < |s| && IsDigit(s[k + 1]))
  }

  /** The value of a digit group, underscores ignored. */
  function DigitsValue(s: string): nat {
    if s == [] then 0
    else if IsDigit(s[|s| - 1]) then
      10 * DigitsValue(s[..|s| - 1]) + (s[|s| - 1] as int - '0' as int)
    else DigitsValue(s[..|s| - 1])
  }

  /** int(s) in base 10 for an already stripped s: an optional sign, then a
      digit group; anything else raises ValueError, here None. */
  function ParseInt(s: string): Option<int> {
    if |s| > 0 && (s[0] == '+' || s[0] == '-') then
      if IsDigitGroup(s[1..]) then
        Some(if s[0] == '-' then -(DigitsValue(s[1..]) as int) else DigitsValue(s[1..]))
      else None
    else if IsDigitGroup(s) then Some(DigitsValue(s))
    else None
  }

  function DigitChar(d: nat): char
    requires d < 10
  {
    ('0' as int + d) as char
  }

  /** str(n) for a non-negative n: its decimal digits, most significant first. */
  function Decimal(n: nat): (s: string)
    ensures |s| > 0 && forall k :: 0 <= k < |s| ==> IsDigit(s[k])
    ensures DigitsValue(s) == n
  {
    if n < 10 then [DigitChar(n)]
    else
      var s := Decimal(n / 10) + [DigitChar(n % 10)];
      assert s[..|s| - 1] == Decimal(n / 10);
      s
  }

  /** int(str(n)) == n: reading back a decimal rendering gives the number. */
  lemma {:induction false} ParseIntDecimal(n: nat)
    ensures ParseInt(Decimal(n)) == Some(n)
    ensures ParseInt("-" + Decimal(n)) == Some(-(n as int))
  {
    var s := Decimal(n);
    assert IsDigitGroup(s);
    assert ("-" + s)[1..] == s;
  }
}
