/** Strings as sequences of characters: substring search and the
    `String.prototype.split` / `Array.prototype.join` pair the request
    handlers rely on, plus decimal rendering of a non-negative number. */
module Text {
  import opened Options

  /** `pat` occurs in `s` starting at index `i`. */
  ghost predicate OccursAt(s: string, pat: string, i: int) {
    0 <= i && i + |pat| <= |s| && s[i..i + |pat|] == pat
  }

  /** `pat` occurs somewhere in `s`. */
  ghost predicate Contains(s: string, pat: string) {
    exists i :: OccursAt(s, pat, i)
  }

  /** `i` is the leftmost occurrence of `pat` in `s`. */
  ghost predicate FirstOccurrence(s: string, pat: string, i: int) {
    OccursAt(s, pat, i) && forall j :: 0 <= j < i ==> !OccursAt(s, pat, j)
  }

  /** Leftmost occurrence of `pat` in `s` at or after `from`. */
  function FindFrom(s: string, pat: string, from: nat): (r: Option<nat>)
    requires from <= |s|
    decreases |s| - from
    ensures r.Some? ==> from <= r.value && OccursAt(s, pat, r.value)
    ensures r.Some? ==> forall j :: from <= j < r.value ==> !OccursAt(s, pat, j)
    ensures r.None? ==> forall j :: from <= j ==> !OccursAt(s, pat, j)
  {
    if from + |pat| > |s| then None
    else if s[from..from + |pat|] == pat then Some(from)
    else if from == |s| then None
    else FindFrom(s, pat, from + 1)
  }

  /** Leftmost occurrence of `pat` in `s` (JavaScript `indexOf`, with
      `None` for -1). */
  function Find(s: string, pat: string): (r: Option<nat>)
    ensures r.Some? ==> FirstOccurrence(s, pat, r.value)
    ensures r.None? ==> !Contains(s, pat)
  {
    FindFrom(s, pat, 0)
  }

  /** An occurrence that fits inside the left operand of a concatenation is
      an occurrence in that operand. */
  lemma OccursInLeftPart(a: string, b: string, pat: string, j: int)
    requires 0 <= j && j + |pat| <= |a|
    ensures OccursAt(a + b, pat, j) <==> OccursAt(a, pat, j)
  {
    assert (a + b)[j..j + |pat|] == a[j..j + |pat|];
  }

  /** A prefix of a string free of `pat` is free of `pat`. */
  lemma PrefixAvoids(s: string, pat: string, k: nat)
    requires |pat| > 0 && k <= |s|
    requires forall j :: 0 <= j < k ==> !OccursAt(s, pat, j)
    ensures !Contains(s[..k], pat)
  {
    forall j | OccursAt(s[..k], pat, j)
      ensures false
    {
      assert j < k;
      assert s[..k][j..j + |pat|] == s[j..j + |pat|];
      assert OccursAt(s, pat, j);
    }
  }

  /** A one-character pattern occurs exactly where that character does. */
  lemma CharOccurrence(s: string, c: char, i: int)
    ensures OccursAt(s, [c], i) <==> 0 <= i < |s| && s[i] == c
  {
    if 0 <= i < |s| && s[i] == c {
      assert s[i..i + 1] == [c];
    }
  }

  /** A string contains a one-character pattern exactly when it contains
      the character. */
  lemma ContainsChar(s: string, c: char)
    ensures Contains(s, [c]) <==> c in s
  {
    if c in s {
      var i :| 0 <= i < |s| && s[i] == c;
      CharOccurrence(s, c, i);
    }
    if Contains(s, [c]) {
      var i :| OccursAt(s, [c], i);
      CharOccurrence(s, c, i);
    }
  }

  /** Inverse of `Split`: the pieces glued back together with `sep`. */
  function Join(parts: seq<string>, sep: string): string
    decreases |parts|
  {
    if |parts| == 0 then ""
    else if |parts| == 1 then parts[0]
    else parts[0] + sep + Join(parts[1..], sep)
  }

  /** JavaScript `s.split(sep)` for a non-empty separator: the pieces of
      `s` between successive non-overlapping occurrences of `sep`, scanned
      left to right. */
  function Split(s: string, sep: string): (parts: seq<string>)
    requires |sep| > 0
    decreases |s|
    ensures |parts| >= 1
    ensures forall k :: 0 <= k < |parts| ==> !Contains(parts[k], sep)
    ensures Join(parts, sep) == s
    ensures |parts[0]| <= |s| && parts[0] == s[..|parts[0]|]
  {
    match Find(s, sep)
    case None => [s]
    case Some(i) =>
      var rest := s[i + |sep|..];
      var tail := Split(rest, sep);
      PrefixAvoids(s, sep, i);
      assert ([s[..i]] + tail)[1..] == tail;
      assert s == s[..i] + sep + rest;
      [s[..i]] + tail
  }

  /** The cuts are made left to right: there is a single piece exactly
      when `sep` does not occur, and otherwise the first piece ends at the
      leftmost occurrence (for `"aaa".split("aa")` that gives `["", "a"]`,
      not `["a", ""]`). */
  lemma {:induction false} SplitCutsAtLeftmost(s: string, sep: string)
    requires |sep| > 0
    ensures |Split(s, sep)| == 1 <==> !Contains(s, sep)
    ensures |Split(s, sep)| >= 2 ==> FirstOccurrence(s, sep, |Split(s, sep)[0]|)
  {
    match Find(s, sep)
    case None =>
    case Some(i) =>
      assert Split(s, sep)[0] == s[..i];
  }

  /** The first piece of `s.split(sep)` is `s` up to the first occurrence
      of `sep`, or all of `s` when there is none. */
  lemma {:induction false} SplitHead(s: string, sep: string, k: int)
    requires |sep| > 0 && 0 <= k <= |s|
    requires forall j :: 0 <= j < k ==> !OccursAt(s, sep, j)
    requires k == |s| || OccursAt(s, sep, k)
    ensures Split(s, sep)[0] == s[..k]
  {
    match Find(s, sep)
    case None =>
      assert k == |s|;
    case Some(i) =>
      assert i == k;
  }

  /** The second piece of `s.split(sep)` exists exactly when `sep` occurs,
      and is the first piece of what follows the first occurrence. */
  lemma {:induction false} SplitSecond(s: string, sep: string, i: int)
    requires |sep| > 0 && FirstOccurrence(s, sep, i)
    ensures |Split(s, sep)| >= 2
    ensures Split(s, sep)[1] == Split(s[i + |sep|..], sep)[0]
  {
    match Find(s, sep)
    case None =>
      assert Contains(s, sep);
    case Some(i') =>
      assert i' == i;
  }

  /** Without an occurrence of `sep`, `s.split(sep)` is the one piece `s`. */
  lemma {:induction false} SplitWhole(s: string, sep: string)
    requires |sep| > 0 && !Contains(s, sep)
    ensures Split(s, sep) == [s]
  {
    assert Find(s, sep).None?;
  }

  predicate IsDigit(c: char) {
    '0' <= c <= '9'
  }

  /** Decimal text of `n` without leading zeros (JavaScript `String(n)` for
      a non-negative integer). */
  function Decimal(n: nat): (r: string)
    ensures |r| >= 1
    ensures forall k :: 0 <= k < |r| ==> IsDigit(r[k])
    ensures r[0] == '0' ==> n == 0 && r == "0"
  {
    if n < 10 then ['0' + n as char]
    else Decimal(n / 10) + ['0' + (n % 10) as char]
  }

  /** Numeric value of a string of decimal digits. */
  function DigitsValue(s: string): nat
    requires forall k :: 0 <= k < |s| ==> IsDigit(s[k])
  {
    if |s| == 0 then 0
    else
      assert IsDigit(s[|s| - 1]);
      DigitsValue(s[..|s| - 1]) * 10 + (s[|s| - 1] as int - '0' as int)
  }

  /** Reading the decimal text back gives the number. */
  lemma {:induction false} DecimalRoundTrip(n: nat)
    ensures DigitsValue(Decimal(n)) == n
  {
    if n >= 10 {
      var r := Decimal(n);
      assert r[..|r| - 1] == Decimal(n / 10);
      DecimalRoundTrip(n / 10);
    }
  }
}
