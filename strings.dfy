/**
  Python string operations the scripts rely on, on `string` (a sequence of
  code points). Case mapping is modelled for ASCII letters only; whitespace is
  the full set of code points Python's `str.isspace` (and `\s` in a `str`
  regex) accepts.
*/
module Strings {
  import opened Wrappers

  /** `c.lower()` for the ASCII letters; other code points are left as they are. */
  function LowerChar(c: char): (r: char)
    ensures 'A' <= c <= 'Z' ==> r as int == c as int + 32
    ensures !('A' <= c <= 'Z') ==> r == c
  {
    if 'A' <= c <= 'Z' then (c as int + 32) as char else c
  }

  /** `s.lower()`. */
  function Lower(s: string): (r: string)
    ensures |r| == |s|
    ensures forall i :: 0 <= i < |s| ==> r[i] == LowerChar(s[i])
  {
    seq(|s|, i requires 0 <= i < |s| => LowerChar(s[i]))
  }

  lemma LowerIdempotent(s: string)
    ensures Lower(Lower(s)) == Lower(s)
  {
  }

  lemma LowerConcat(a: string, b: string)
    ensures Lower(a + b) == Lower(a) + Lower(b)
  {
  }

  /** The code points for which Python's `str.isspace()` is true. */
  predicate IsSpace(c: char) {
    || c == ' ' || '\t' <= c <= '\r' || '\U{1C}' <= c <= '\U{1F}'
    || c == '\U{85}' || c == '\U{A0}' || c == '\U{1680}'
    || '\U{2000}' <= c <= '\U{200A}' || c == '\U{2028}' || c == '\U{2029}'
    || c == '\U{202F}' || c == '\U{205F}' || c == '\U{3000}'
  }

  predicate AllSpace(s: string) {
    forall i :: 0 <= i < |s| ==> IsSpace(s[i])
  }

  predicate NoSpace(s: string) {
    forall i :: 0 <= i < |s| ==> !IsSpace(s[i])
  }

  /** Number of leading whitespace code points. */
  function LeadingSpace(s: string): (n: nat)
    ensures n <= |s|
  {
    if s == [] || !IsSpace(s[0]) then 0 else 1 + LeadingSpace(s[1..])
  }

  /** The leading run is all whitespace and ends at a non-space or the end. */
  lemma {:induction false} LeadingSpaceSpec(s: string)
    ensures AllSpace(s[..LeadingSpace(s)])
    ensures LeadingSpace(s) < |s| ==> !IsSpace(s[LeadingSpace(s)])
  {
    if s != [] && IsSpace(s[0]) {
      LeadingSpaceSpec(s[1..]);
      var k := LeadingSpace(s[1..]);
      assert s[1..][..k] == s[1..k + 1];
    }
  }

  /** Number of trailing whitespace code points. */
  function TrailingSpace(s: string): (n: nat)
    ensures n <= |s|
  {
    if s == [] || !IsSpace(s[|s| - 1]) then 0 else 1 + TrailingSpace(s[..|s| - 1])
  }

  /** The trailing run is all whitespace and starts after a non-space or at the start. */
  lemma {:induction false} TrailingSpaceSpec(s: string)
    ensures AllSpace(s[|s| - TrailingSpace(s)..])
    ensures TrailingSpace(s) < |s| ==> !IsSpace(s[|s| - TrailingSpace(s) - 1])
  {
    if s != [] && IsSpace(s[|s| - 1]) {
      TrailingSpaceSpec(s[..|s| - 1]);
      var k := TrailingSpace(s[..|s| - 1]);
      assert s[..|s| - 1][|s| - 1 - k..] == s[|s| - 1 - k..|s| - 1];
    }
  }

  /** Where `s.strip()` cuts: the start and the end of the text between the whitespace runs. */
  function StripBounds(s: string): (b: (nat, nat))
    ensures b.0 <= b.1 <= |s|
  {
    var i := LeadingSpace(s);
    if i == |s| then (i, i)
    else
      StripBoundsFit(s);
      (i, |s| - TrailingSpace(s))
  }

  /** Below a non-space, the trailing run cannot reach the leading run. */
  lemma StripBoundsFit(s: string)
    requires LeadingSpace(s) < |s|
    ensures LeadingSpace(s) + TrailingSpace(s) < |s|
  {
    LeadingSpaceSpec(s);
    TrailingSpaceSpec(s);
  }

  /** The cut-off parts are whitespace, and the kept part starts and ends with a non-space. */
  lemma StripBoundsSpec(s: string)
    ensures var b := StripBounds(s);
            && AllSpace(s[..b.0]) && AllSpace(s[b.1..])
            && (b.0 < b.1 ==> !IsSpace(s[b.0]) && !IsSpace(s[b.1 - 1]))
  {
    LeadingSpaceSpec(s);
    TrailingSpaceSpec(s);
    if LeadingSpace(s) == |s| {
      assert s[|s|..] == [];
    }
  }

  /** `s.strip()`: the text between the leading and the trailing whitespace. */
  function Strip(s: string): (r: string)
    ensures |r| <= |s|
  {
    var b := StripBounds(s);
    s[b.0..b.1]
  }

  /** What `strip` keeps: no whitespace at either end, and only whitespace cut off. */
  lemma StripSpec(s: string)
    ensures var b := StripBounds(s);
            && Strip(s) == s[b.0..b.1]
            && AllSpace(s[..b.0]) && AllSpace(s[b.1..])
    ensures Strip(s) == [] || (!IsSpace(Strip(s)[0]) && !IsSpace(Strip(s)[|Strip(s)| - 1]))
  {
    StripBoundsSpec(s);
  }

  /** `Strip(s) == t` for an `s` that is `t` padded by `l` spaces in front and `r` behind. */
  lemma StripPadded(s: string, t: string, l: nat, r: nat)
    requires |s| == l + |t| + r && s[l..l + |t|] == t
    requires forall i :: 0 <= i < l ==> s[i] == ' '
    requires forall i :: l + |t| <= i < |s| ==> s[i] == ' '
    requires t != [] && !IsSpace(t[0]) && !IsSpace(t[|t| - 1])
    ensures Strip(s) == t
  {
    StripBoundsSpec(s);
    var b := StripBounds(s);
    assert !IsSpace(s[l]) && !IsSpace(s[l + |t| - 1]);
    AllSpaceSlice(s, 0, b.0);
    AllSpaceSlice(s, b.1, |s|);
  }

  /** Every character of an all-space slice is a space. */
  lemma AllSpaceSlice(s: string, i: nat, j: nat)
    requires i <= j <= |s| && AllSpace(s[i..j])
    ensures forall k :: i <= k < j ==> IsSpace(s[k])
  {
    forall k | i <= k < j ensures IsSpace(s[k]) {
      assert s[i..j][k - i] == s[k];
    }
  }

  lemma StripAllSpace(s: string)
    requires AllSpace(s)
    ensures Strip(s) == []
  {
    LeadingSpaceAll(s);
  }

  lemma {:induction false} LeadingSpaceAll(s: string)
    requires AllSpace(s)
    ensures LeadingSpace(s) == |s|
  {
    if s != [] {
      assert IsSpace(s[0]);
      LeadingSpaceAll(s[1..]);
    }
  }

  /** The code points at which `str.splitlines()` ends a line. */
  predicate IsLineBreak(c: char) {
    '\n' <= c <= '\r' || '\U{1C}' <= c <= '\U{1E}' || c == '\U{85}' || c == '\U{2028}' || c == '\U{2029}'
  }

  predicate NoBreak(s: string) {
    forall i :: 0 <= i < |s| ==> !IsLineBreak(s[i])
  }

  /** The position of the first line break in `s`, if any. */
  function FirstBreak(s: string): (r: Option<nat>)
    ensures r.None? ==> NoBreak(s)
    ensures r.Some? ==> r.value < |s| && IsLineBreak(s[r.value]) && NoBreak(s[..r.value])
    decreases |s|
  {
    if s == [] then None
    else if IsLineBreak(s[0]) then Some(0)
    else match FirstBreak(s[1..])
      case None => None
      case Some(k) => assert s[..k + 1] == [s[0]] + s[1..][..k]; Some(k + 1)
  }

  /** `s.splitlines()`: the lines without their ends; `\r\n` ends a single line, and no empty line follows a final break. */
  function SplitLines(s: string): (r: seq<string>)
    ensures forall i :: 0 <= i < |r| ==> NoBreak(r[i])
    ensures s == [] <==> r == []
    decreases |s|
  {
    if s == [] then []
    else match FirstBreak(s)
      case None => [s]
      case Some(k) =>
        var w := if s[k] == '\r' && k + 1 < |s| && s[k + 1] == '\n' then 2 else 1;
        [s[..k]] + SplitLines(s[k + w..])
  }

  /** The lines, each followed by a newline: what a file written line by line holds. */
  function Terminated(lines: seq<string>): string
    decreases |lines|
  {
    if lines == [] then [] else lines[0] + "\n" + Terminated(lines[1..])
  }

  /** Splitting newline-terminated lines that hold no line break gives the lines back. */
  lemma {:induction false} SplitLinesTerminated(lines: seq<string>)
    requires forall i :: 0 <= i < |lines| ==> NoBreak(lines[i])
    ensures SplitLines(Terminated(lines)) == lines
    decreases |lines|
  {
    if lines != [] {
      SplitLinesCons(lines[0], Terminated(lines[1..]));
      SplitLinesTerminated(lines[1..]);
    }
  }

  /** A break-free line and a newline, in front of `rest`, add that line in front of `rest`'s lines. */
  lemma SplitLinesCons(l: string, rest: string)
    requires NoBreak(l)
    ensures SplitLines(l + "\n" + rest) == [l] + SplitLines(rest)
  {
    var s := l + "\n" + rest;
    assert s[|l|] == '\n' && s[..|l|] == l;
    FirstBreakAt(s, |l|);
    assert s[|l| + 1..] == rest;
  }

  /** A break after a break-free prefix is the first one. */
  lemma {:induction false} FirstBreakAt(s: string, k: nat)
    requires k < |s| && IsLineBreak(s[k]) && NoBreak(s[..k])
    ensures FirstBreak(s) == Some(k)
    decreases k
  {
    if k > 0 {
      assert s[..k][0] == s[0];
      assert s[1..][..k - 1] == s[..k][1..];
      assert s[1..][k - 1] == s[k];
      FirstBreakAt(s[1..], k - 1);
    }
  }

  predicate StartsWith(s: string, prefix: string) {
    |prefix| <= |s| && s[..|prefix|] == prefix
  }

  predicate EndsWith(s: string, suffix: string) {
    |suffix| <= |s| && s[|s| - |suffix|..] == suffix
  }

  /** `sub in s` for strings. */
  predicate Contains(s: string, sub: string) {
    exists i | 0 <= i <= |s| - |sub| :: OccursAt(s, sub, i)
  }

  predicate OccursAt(s: string, sub: string, i: int) {
    0 <= i <= |s| - |sub| && s[i..i + |sub|] == sub
  }

  /** The first position of `c` in `s`, if any. */
  function IndexOf(s: string, c: char): (r: Option<nat>)
    ensures r.None? <==> c !in s
    ensures r.Some? ==> r.value < |s| && s[r.value] == c && c !in s[..r.value]
    ensures r.Some? ==> forall i :: 0 <= i < r.value ==> s[i] != c
  {
    if s == [] then None
    else if s[0] == c then Some(0)
    else
      match IndexOf(s[1..], c)
      case None => None
      case Some(k) => assert s[1..][..k] == s[1..k + 1]; Some(k + 1)
  }

  /** The last position of `c` in `s`, if any (`s.rfind(c)`). */
  function LastIndexOf(s: string, c: char): (r: Option<nat>)
    ensures r.None? <==> c !in s
    ensures r.Some? ==> r.value < |s| && s[r.value] == c && c !in s[r.value + 1..]
    ensures r.Some? ==> forall i :: r.value < i < |s| ==> s[i] != c
    decreases |s|
  {
    if s == [] then None
    else if s[|s| - 1] == c then Some(|s| - 1)
    else
      assert s == s[..|s| - 1] + [s[|s| - 1]];
      match LastIndexOf(s[..|s| - 1], c)
      case None => None
      case Some(k) => assert s[k + 1..] == s[..|s| - 1][k + 1..] + [s[|s| - 1]]; Some(k)
  }

  /** `s.split(c, 1)` when `c` occurs: the text before and after its first occurrence. */
  function SplitOnce(s: string, c: char): (r: Option<(string, string)>)
    ensures r.None? <==> c !in s
    ensures r.Some? ==> s == r.value.0 + [c] + r.value.1 && c !in r.value.0
  {
    match IndexOf(s, c)
    case None => None
    case Some(k) =>
      assert s == s[..k] + [c] + s[k + 1..];
      Some((s[..k], s[k + 1..]))
  }

  /** `s.split(c)[0]`: the text before the first `c`, or all of `s`. */
  function BeforeFirst(s: string, c: char): (r: string)
    ensures c !in r
    ensures StartsWith(s, r)
    ensures c in s ==> |r| < |s| && s[|r|] == c
    ensures c !in s ==> r == s
    ensures forall i :: 0 <= i < |r| ==> s[i] != c
  {
    match SplitOnce(s, c)
    case None => s
    case Some(p) => assert s[..|p.0|] == p.0; p.0
  }

  /** The first `c` is at `k`. */
  lemma IndexOfAt(s: string, c: char, k: nat)
    requires k < |s| && s[k] == c && c !in s[..k]
    ensures IndexOf(s, c) == Some(k)
    ensures BeforeFirst(s, c) == s[..k]
  {
    forall i | 0 <= i < k ensures s[i] != c {
      assert s[..k][i] == s[i];
    }
  }

  /** The last `c` is at `k`. */
  lemma LastIndexOfAt(s: string, c: char, k: nat)
    requires k < |s| && s[k] == c && c !in s[k + 1..]
    ensures LastIndexOf(s, c) == Some(k)
  {
    forall i | k < i < |s| ensures s[i] != c {
      assert s[k + 1..][i - k - 1] == s[i];
    }
  }

  /** `s.replace(pat, repl)`: leftmost non-overlapping occurrences, scanned left to right. */
  function ReplaceAll(s: string, pat: string, repl: string): (r: string)
    requires pat != []
    decreases |s|
  {
    if s == [] then []
    else if StartsWith(s, pat) then repl + ReplaceAll(s[|pat|..], pat, repl)
    else [s[0]] + ReplaceAll(s[1..], pat, repl)
  }

  /** A string in which `pat` does not occur is left unchanged by replacing it. */
  lemma {:induction false} ReplaceAllAbsent(s: string, pat: string, repl: string)
    requires pat != []
    requires !Contains(s, pat)
    ensures ReplaceAll(s, pat, repl) == s
    decreases |s|
  {
    if s != [] {
      PrefixOccurs(s, pat);
      if Contains(s[1..], pat) {
        var i :| 0 <= i <= |s| - 1 - |pat| && OccursAt(s[1..], pat, i);
        assert s[1..][i..i + |pat|] == s[i + 1..i + 1 + |pat|];
        assert OccursAt(s, pat, i + 1);
      }
      ReplaceAllAbsent(s[1..], pat, repl);
    }
  }

  lemma PrefixOccurs(s: string, pat: string)
    ensures StartsWith(s, pat) ==> OccursAt(s, pat, 0)
  {
  }

  /** `sep.join(parts)`. */
  function Join(sep: string, parts: seq<string>): (r: string)
    ensures parts == [] ==> r == []
    ensures |parts| == 1 ==> r == parts[0]
  {
    if parts == [] then []
    else if |parts| == 1 then parts[0]
    else parts[0] + sep + Join(sep, parts[1..])
  }

  function DigitChar(d: nat): (c: char)
    requires d < 10
    ensures '0' <= c <= '9'
  {
    ('0' as int + d) as char
  }

  predicate IsDigit(c: char) { '0' <= c <= '9' }

  predicate AllDigits(s: string) {
    forall i :: 0 <= i < |s| ==> IsDigit(s[i])
  }

  /** `str(n)` for a natural number. */
  function NatToString(n: nat): (r: string)
    ensures r != [] && AllDigits(r)
    decreases n
  {
    if n < 10 then [DigitChar(n)] else NatToString(n / 10) + [DigitChar(n % 10)]
  }

  /** `str(i)` for any integer: a minus sign before the digits of a negative one. */
  function IntToString(i: int): (r: string)
    ensures r != []
    ensures i >= 0 ==> AllDigits(r)
    ensures i < 0 ==> r[0] == '-' && AllDigits(r[1..])
  {
    if i < 0 then "-" + NatToString(-i) else NatToString(i)
  }

  /** The value of a string of decimal digits (`int(s)` restricted to digit strings). */
  function DecimalValue(s: string): (v: nat)
    requires AllDigits(s)
    decreases |s|
  {
    if s == [] then 0 else DecimalValue(s[..|s| - 1]) * 10 + (s[|s| - 1] as int - '0' as int)
  }

  /** `int(str(n)) == n`. */
  lemma {:induction false} DecimalOfNatToString(n: nat)
    ensures DecimalValue(NatToString(n)) == n
    decreases n
  {
    if n >= 10 {
      var s := NatToString(n);
      assert s[..|s| - 1] == NatToString(n / 10);
      DecimalOfNatToString(n / 10);
    }
  }
}
