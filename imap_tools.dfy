/**
  `imap_tools`: deletes unread mail whose sender matches one of a list of
  patterns, and counts the senders of unread mail. The IMAP session, the
  header decoding and Python's regular expressions are parameters: a
  message number's fetch result, the address finder (the first
  address-like substring of a From header) and the pattern matcher
  (`re.search(pattern, address, re.IGNORECASE)`).
*/
module ImapTools {
  import opened Wrappers
  import opened Strings
  import opened PySeq
  import opened Sorting
  import opened Counter

  /** `re.search(ADDRESS_RE, header)`: the first address-like substring, if any. */
  type AddressFinder = string -> Option<string>

  /** `re.search(pattern, text, re.IGNORECASE)` is truthy. */
  type Matcher = (string, string) -> bool

  // ---------------------------------------------------------------- match_email_against_patterns

  /** The address the patterns are matched against: the first address in the header, or "". */
  function SenderAddress(header: string, find: AddressFinder): (a: string)
    ensures find(header).Some? ==> a == find(header).value
    ensures find(header).None? ==> a == ""
  {
    match find(header)
    case Some(m) => m
    case None => ""
  }

  function MatchesAddress(address: string, matches: Matcher): string -> bool {
    p => matches(p, address)
  }

  /** `match_email_against_patterns`: whether any pattern matches, and the patterns that do. */
  function MatchEmailAgainstPatterns(header: string, patterns: seq<string>, find: AddressFinder, matches: Matcher)
    : (r: (bool, seq<string>))
    ensures var a := SenderAddress(header, find);
            && (r.0 <==> r.1 != [])
            && (forall i :: 0 <= i < |r.1| ==> r.1[i] in patterns && matches(r.1[i], a))
            && (forall i :: 0 <= i < |patterns| && matches(patterns[i], a) ==> patterns[i] in r.1)
            && (r.0 <==> exists i :: 0 <= i < |patterns| && matches(patterns[i], a))
  {
    var hits := Filter(patterns, MatchesAddress(SenderAddress(header, find), matches));
    assert hits != [] ==> hits[0] in patterns;
    (hits != [], hits)
  }

  /** The matching patterns come in the order of the pattern list, each as often as it is listed. */
  lemma MatchInOrder(header: string, patterns: seq<string>, find: AddressFinder, matches: Matcher)
    ensures Subsequence(MatchEmailAgainstPatterns(header, patterns, find, matches).1, patterns)
    ensures |MatchEmailAgainstPatterns(header, patterns, find, matches).1|
            == CountWhere(patterns, MatchesAddress(SenderAddress(header, find), matches))
  {
    FilterSubsequence(patterns, MatchesAddress(SenderAddress(header, find), matches));
    FilterLength(patterns, MatchesAddress(SenderAddress(header, find), matches));
  }

  /** A matcher that, like `re.IGNORECASE`, does not see the case of the text. */
  ghost predicate CaseBlind(matches: Matcher) {
    forall p, e :: matches(p, e) == matches(p, Lower(e))
  }

  /**
    With a case-blind matcher, two headers whose addresses differ only in
    case match the same patterns.
  */
  lemma MatchIgnoresCase(h1: string, h2: string, patterns: seq<string>, find: AddressFinder, matches: Matcher)
    requires CaseBlind(matches)
    requires Lower(SenderAddress(h1, find)) == Lower(SenderAddress(h2, find))
    ensures MatchEmailAgainstPatterns(h1, patterns, find, matches) == MatchEmailAgainstPatterns(h2, patterns, find, matches)
  {
    var a1, a2 := SenderAddress(h1, find), SenderAddress(h2, find);
    forall p ensures MatchesAddress(a1, matches)(p) == MatchesAddress(a2, matches)(p) {
      assert matches(p, a1) == matches(p, Lower(a1));
      assert matches(p, a2) == matches(p, Lower(a2));
    }
    FilterSamePredicate(patterns, MatchesAddress(a1, matches), MatchesAddress(a2, matches));
  }

  /** Without an address in the header, the patterns are matched against the empty string. */
  lemma MatchWithoutAddress(header: string, patterns: seq<string>, find: AddressFinder, matches: Matcher)
    requires find(header).None?
    requires forall i :: 0 <= i < |patterns| ==> !matches(patterns[i], "")
    ensures MatchEmailAgainstPatterns(header, patterns, find, matches) == (false, [])
  {
    FilterNone(patterns, MatchesAddress("", matches));
  }

  /** A header that matches none of the patterns (the third case of the module's tests). */
  lemma MatchNoneExample(find: AddressFinder, matches: Matcher)
    requires find("John Doe <mail@example.com>") == Some("mail@example.com")
    requires !matches("timesjobs", "mail@example.com")
    ensures MatchEmailAgainstPatterns("John Doe <mail@example.com>", ["timesjobs"], find, matches) == (false, [])
  {
    var ps := ["timesjobs"];
    assert ps[1..] == [];
  }

  /** Two patterns that both match are returned in their order (the fourth case of the module's tests). */
  lemma MatchBothExample(find: AddressFinder, matches: Matcher)
    requires find("John Doe <john.doe@example.com>") == Some("john.doe@example.com")
    requires matches("example", "john.doe@example.com") && matches("john", "john.doe@example.com")
    ensures MatchEmailAgainstPatterns("John Doe <john.doe@example.com>", ["example", "john"], find, matches)
            == (true, ["example", "john"])
  {
    var a := "john.doe@example.com";
    var ps := ["example", "john"];
    var p := MatchesAddress(a, matches);
    assert SenderAddress("John Doe <john.doe@example.com>", find) == a;
    assert ps[1..] == ["john"] && ps[1..][1..] == [];
    assert p("example") && p("john");
    assert Filter(["john"], p) == ["john"];
    assert Filter(ps, p) == ["example"] + Filter(["john"], p);
    assert Filter(ps, p) == ps;
    assert MatchEmailAgainstPatterns("John Doe <john.doe@example.com>", ps, find, matches) == (true, ps);
  }

  // ---------------------------------------------------------------- pattern loading

  /** `[line.strip() for line in text.splitlines() if line.strip()]`. */
  function PatternLines(text: string): (r: seq<string>)
    ensures forall i :: 0 <= i < |r| ==> r[i] != [] && !IsSpace(r[i][0]) && !IsSpace(r[i][|r[i]| - 1])
  {
    NonBlankStripped(SplitLines(text))
  }

  function NonBlankStripped(lines: seq<string>): (r: seq<string>)
    ensures forall i :: 0 <= i < |r| ==> r[i] != [] && !IsSpace(r[i][0]) && !IsSpace(r[i][|r[i]| - 1])
    decreases |lines|
  {
    if lines == [] then []
    else
      var t := Strip(lines[0]);
      StripSpec(lines[0]);
      (if t != [] then [t] else []) + NonBlankStripped(lines[1..])
  }

  /** One pattern per non-blank line, in the file's order. */
  lemma {:induction false} NonBlankStrippedSpec(lines: seq<string>)
    ensures |NonBlankStripped(lines)| == CountWhere(lines, (l: string) => Strip(l) != [])
    ensures NonBlankStripped(lines) == [] <==> forall i :: 0 <= i < |lines| ==> Strip(lines[i]) == []
    decreases |lines|
  {
    if lines != [] {
      NonBlankStrippedSpec(lines[1..]);
      assert forall i :: 0 <= i < |lines[1..]| ==> lines[1..][i] == lines[i + 1];
      if Strip(lines[0]) == [] {
        assert forall i :: 1 <= i < |lines| ==> lines[i] == lines[1..][i - 1];
      }
    }
  }

  /** A pattern file written one already-stripped pattern per line loads back as those patterns. */
  lemma {:induction false} PatternLinesTerminated(patterns: seq<string>)
    requires forall i :: 0 <= i < |patterns| ==> NoBreak(patterns[i]) && patterns[i] != []
    requires forall i :: 0 <= i < |patterns| ==> !IsSpace(patterns[i][0]) && !IsSpace(patterns[i][|patterns[i]| - 1])
    ensures PatternLines(Terminated(patterns)) == patterns
  {
    SplitLinesTerminated(patterns);
    NonBlankStrippedOfStripped(patterns);
  }

  lemma {:induction false} NonBlankStrippedOfStripped(patterns: seq<string>)
    requires forall i :: 0 <= i < |patterns| ==> patterns[i] != []
    requires forall i :: 0 <= i < |patterns| ==> !IsSpace(patterns[i][0]) && !IsSpace(patterns[i][|patterns[i]| - 1])
    ensures NonBlankStripped(patterns) == patterns
    decreases |patterns|
  {
    if patterns != [] {
      var p := patterns[0];
      StripPadded(p, p, 0, 0);
      assert forall i :: 0 <= i < |patterns[1..]| ==> patterns[1..][i] == patterns[i + 1];
      NonBlankStrippedOfStripped(patterns[1..]);
      assert patterns == [p] + patterns[1..];
    }
  }

  /** A Python `str` option is truthy: given and non-empty. */
  predicate Truthy(s: Option<string>) {
    s.Some? && s.value != []
  }

  /**
    The pattern list `delete_matching` builds: the file's patterns, then the
    URL's; `read` and `fetch` give the text behind a path and a URL.
  */
  function LoadedPatterns(filePath: Option<string>, urlPath: Option<string>,
                          read: string -> string, fetch: string -> string): (r: seq<string>)
  {
    (if Truthy(filePath) then PatternLines(read(filePath.value)) else [])
    + (if Truthy(urlPath) then PatternLines(fetch(urlPath.value)) else [])
  }

  /** The file's patterns come first and the URL's follow; a source that is not given adds none. */
  lemma LoadedPatternsOrder(filePath: Option<string>, urlPath: Option<string>,
                            read: string -> string, fetch: string -> string)
    ensures var r := LoadedPatterns(filePath, urlPath, read, fetch);
            var f := if Truthy(filePath) then PatternLines(read(filePath.value)) else [];
            && f <= r
            && r[|f|..] == (if Truthy(urlPath) then PatternLines(fetch(urlPath.value)) else [])
    ensures !Truthy(filePath) && !Truthy(urlPath) ==> LoadedPatterns(filePath, urlPath, read, fetch) == []
  {
  }

  // ---------------------------------------------------------------- message-number selection

  /**
    Message numbers are the SEARCH response's decimal numerals (as `bytes`;
    they compare like these strings). `sorted(..., reverse=True)`, as written.
  */
  function LatestFirstAsWritten(nums: seq<string>): (r: seq<string>)
    ensures multiset(r) == multiset(nums)
    ensures SortedBy(r, Descending())
  {
    DescendingIsTotalPreorder();
    SortSorted(nums, Descending());
    Sort(nums, Descending())
  }

  /** `sorted` on the numerals compares them as text: "9" comes before "10". */
  lemma LatestFirstAsWrittenExample()
    ensures LatestFirstAsWritten(["9", "10"]) == ["9", "10"]
    ensures DecimalValue("10") > DecimalValue("9")
  {
    assert LexLe("10", "9") by {
      assert "10"[0] < "9"[0];
    }
    var s := ["9", "10"];
    assert s[1..] == ["10"] && s[1..][1..] == [];
    assert "10"[..1] == "1";
  }

  /** The highest message numbers when at most one message is kept, as written: "9", not "10". */
  lemma StatsSelectionAsWrittenExample()
    ensures SliceTo(LatestFirstAsWritten(["9", "10"]), 1) == ["9"]
  {
    LatestFirstAsWrittenExample();
  }

  /** A message numeral: decimal digits without a leading zero. */
  predicate Numeral(s: string) {
    s != [] && AllDigits(s) && s[0] != '0'
  }

  /** Numeral order: a shorter numeral is smaller; equal lengths compare digit by digit. */
  predicate NumeralLe(a: string, b: string) {
    |a| < |b| || (|a| == |b| && LexLe(a, b))
  }

  /** Descending numeral order: the latest (highest-numbered) messages first. */
  function Newest(): (string, string) -> bool {
    (a, b) => NumeralLe(b, a)
  }

  lemma NewestIsTotalPreorder()
    ensures TotalPreorder(Newest())
  {
    forall a, b ensures NumeralLe(a, b) || NumeralLe(b, a) { LexLeTotal(a, b); }
    forall a, b, c | NumeralLe(b, a) && NumeralLe(c, b) ensures NumeralLe(c, a) {
      if |a| == |b| == |c| { LexLeTransitive(c, b, a); }
    }
  }

  /** The message numbers from the highest down, as "latest emails first" intends. */
  function LatestFirst(nums: seq<string>): (r: seq<string>)
    ensures multiset(r) == multiset(nums)
    ensures forall i :: 0 <= i < |r| ==> r[i] in nums
    ensures SortedBy(r, Newest())
  {
    assert forall i :: 0 <= i < |Sort(nums, Newest())| ==> Sort(nums, Newest())[i] in multiset(nums);
    NewestIsTotalPreorder();
    SortSorted(nums, Newest());
    Sort(nums, Newest())
  }

  function Pow10(n: nat): (p: nat)
    ensures p >= 1
  {
    if n == 0 then 1 else 10 * Pow10(n - 1)
  }

  lemma {:induction false} Pow10Mono(m: nat, n: nat)
    requires m <= n
    ensures Pow10(m) <= Pow10(n)
    decreases n
  {
    if m < n { Pow10Mono(m, n - 1); }
  }

  function Digit(c: char): nat
    requires IsDigit(c)
  {
    c as int - '0' as int
  }

  /** A numeral of `n` digits is below 10^n. */
  lemma {:induction false} DecimalBelow(s: string)
    requires AllDigits(s)
    ensures DecimalValue(s) < Pow10(|s|)
    decreases |s|
  {
    if s != [] {
      var init := s[..|s| - 1];
      assert AllDigits(init) by { assert forall i :: 0 <= i < |init| ==> init[i] == s[i]; }
      DecimalBelow(init);
      assert DecimalValue(s) == DecimalValue(init) * 10 + Digit(s[|s| - 1]);
      assert DecimalValue(init) + 1 <= Pow10(|init|);
      assert (DecimalValue(init) + 1) * 10 <= Pow10(|init|) * 10;
    }
  }

  /** The value of a numeral read from its first digit. */
  lemma {:induction false} DecimalFront(s: string)
    requires s != [] && AllDigits(s)
    ensures AllDigits(s[1..])
    ensures DecimalValue(s) == Digit(s[0]) * Pow10(|s| - 1) + DecimalValue(s[1..])
    decreases |s|
  {
    assert AllDigits(s[1..]) by { assert forall i :: 0 <= i < |s| - 1 ==> s[1..][i] == s[i + 1]; }
    if |s| == 1 {
      assert s[..0] == [] && s[1..] == [];
    } else {
      var init := s[..|s| - 1];
      assert AllDigits(init) by { assert forall i :: 0 <= i < |init| ==> init[i] == s[i]; }
      DecimalFront(init);
      assert init[0] == s[0] && init[1..] == s[1..][..|s| - 2];
      var v := DecimalValue(init[1..]);
      var e := Digit(s[|s| - 1]);
      assert s[1..][|s| - 2] == s[|s| - 1];
      assert DecimalValue(s[1..]) == v * 10 + e;
      assert DecimalValue(s) == DecimalValue(init) * 10 + e;
      ShiftDigit(Digit(s[0]), Pow10(|s| - 2), v, e);
    }
  }

  /** Appending a digit shifts the leading digit's place by one. */
  lemma ShiftDigit(d: nat, p: nat, v: nat, e: nat)
    ensures (d * p + v) * 10 + e == d * (10 * p) + (v * 10 + e)
  {
  }

  /** A numeral is at least 10^(n-1). */
  lemma DecimalAtLeast(s: string)
    requires Numeral(s)
    ensures DecimalValue(s) >= Pow10(|s| - 1)
  {
    DecimalFront(s);
    AtLeastOnce(Digit(s[0]), Pow10(|s| - 1), DecimalValue(s[1..]));
  }

  lemma AtLeastOnce(d: nat, p: nat, v: nat)
    requires d >= 1
    ensures d * p + v >= p
  {
  }

  /** Leading digits decide: a smaller first digit gives a smaller value. */
  lemma FrontDigitDecides(x: nat, y: nat, p: nat, u: nat, v: nat)
    requires x < y && u < p
    ensures x * p + u < y * p + v
  {
    assert (x + 1) * p <= y * p;
  }

  /** For digit strings of one length, comparing as text is comparing values. */
  lemma {:induction false} SameLengthOrder(a: string, b: string)
    requires |a| == |b| && AllDigits(a) && AllDigits(b)
    ensures LexLe(a, b) <==> DecimalValue(a) <= DecimalValue(b)
    decreases |a|
  {
    if a != [] {
      DecimalFront(a);
      DecimalFront(b);
      var p := Pow10(|a| - 1);
      DecimalBelow(a[1..]);
      DecimalBelow(b[1..]);
      if a[0] < b[0] {
        FrontDigitDecides(Digit(a[0]), Digit(b[0]), p, DecimalValue(a[1..]), DecimalValue(b[1..]));
      } else if b[0] < a[0] {
        FrontDigitDecides(Digit(b[0]), Digit(a[0]), p, DecimalValue(b[1..]), DecimalValue(a[1..]));
      } else {
        SameLengthOrder(a[1..], b[1..]);
      }
    }
  }

  /** On message numerals, numeral order is the order of their values. */
  lemma NumeralOrder(a: string, b: string)
    requires Numeral(a) && Numeral(b)
    ensures NumeralLe(a, b) <==> DecimalValue(a) <= DecimalValue(b)
  {
    if |a| < |b| {
      DecimalBelow(a);
      Pow10Mono(|a|, |b| - 1);
      DecimalAtLeast(b);
    } else if |b| < |a| {
      DecimalBelow(b);
      Pow10Mono(|b|, |a| - 1);
      DecimalAtLeast(a);
    } else {
      SameLengthOrder(a, b);
    }
  }

  /** With numeral order, "10" comes before "9". */
  lemma LatestFirstExample()
    ensures LatestFirst(["9", "10"]) == ["10", "9"]
  {
    var s := ["9", "10"];
    assert s[1..] == ["10"] && s[1..][1..] == [];
    assert !NumeralLe("10", "9");
  }

  /**
    The numbers `stats_senders` reads, as written: the unseen numbers
    sorted in descending text order, cut to `max_emails` when it is given.
    The result is a front part of that sorted permutation, so it is itself
    in descending text order and drawn from the given numbers; all of them
    without a limit, `max_emails` of them for a limit up to their count, and
    all but the last `-max_emails` for a negative one.
  */
  function StatsSelection(nums: seq<string>, maxEmails: Option<int>): (r: seq<string>)
    ensures r <= LatestFirstAsWritten(nums)
    ensures SortedBy(r, Descending())
    ensures multiset(r) <= multiset(nums)
    ensures maxEmails.None? ==> multiset(r) == multiset(nums)
    ensures maxEmails.Some? && maxEmails.value >= 0 ==> |r| == (if maxEmails.value < |nums| then maxEmails.value else |nums|)
    ensures maxEmails.Some? && maxEmails.value < 0 ==> |r| == (if |nums| + maxEmails.value < 0 then 0 else |nums| + maxEmails.value)
  {
    var sorted := LatestFirstAsWritten(nums);
    var r := if maxEmails.Some? then SliceTo(sorted, maxEmails.value) else sorted;
    assert sorted == r + sorted[|r|..];
    assert multiset(sorted) == multiset(r) + multiset(sorted[|r|..]);
    r
  }

  /**
    The numbers `delete_matching` processes: all unseen numbers in the
    server's order when `max_process` is not given or zero; otherwise the
    same descending-text selection as `stats_senders` makes.
  */
  function DeleteSelection(nums: seq<string>, maxProcess: Option<int>): (r: seq<string>)
    ensures maxProcess.None? || maxProcess == Some(0) ==> r == nums
    ensures maxProcess.Some? && maxProcess.value != 0 ==> r == StatsSelection(nums, maxProcess)
    ensures multiset(r) <= multiset(nums)
  {
    if maxProcess.Some? && maxProcess.value != 0 then SliceTo(LatestFirstAsWritten(nums), maxProcess.value) else nums
  }

  /**
    The written sort agrees with numeric order when all the numbers have
    the same count of digits: then both selections keep the highest
    numbers. They part only across a change of width ("9" and "10").
  */
  lemma AsWrittenSameWidth(nums: seq<string>, w: nat)
    requires forall i :: 0 <= i < |nums| ==> |nums[i]| == w
    ensures LatestFirstAsWritten(nums) == LatestFirst(nums)
  {
    forall x, y | x in multiset(nums) && y in multiset(nums) ensures Descending()(x, y) == Newest()(x, y) {
      assert x in nums && y in nums;
    }
    SortAgree(nums, Descending(), Newest(), multiset(nums));
  }

  /**
    A cut keeps the highest numbers: each kept message number is at least
    every dropped one, and the kept ones are among the given ones.
  */
  lemma SelectionKeepsHighest(nums: seq<string>, n: int, i: int, j: int)
    requires forall k :: 0 <= k < |nums| ==> Numeral(nums[k])
    requires 0 <= i < |SliceTo(LatestFirst(nums), n)| <= j < |nums|
    ensures Numeral(LatestFirst(nums)[j]) && Numeral(SliceTo(LatestFirst(nums), n)[i])
    ensures DecimalValue(LatestFirst(nums)[j]) <= DecimalValue(SliceTo(LatestFirst(nums), n)[i])
    ensures multiset(SliceTo(LatestFirst(nums), n)) <= multiset(nums)
  {
    var s := LatestFirst(nums);
    var r := SliceTo(s, n);
    assert r[i] == s[i];
    assert Newest()(s[i], s[j]);
    assert s[i] in multiset(nums) && s[j] in multiset(nums);
    NumeralOrder(s[j], s[i]);
    assert s == r + s[|r|..];
    assert multiset(s) == multiset(r) + multiset(s[|r|..]);
  }

  // ---------------------------------------------------------------- stats_senders

  /** What one FROM-header fetch gives: the decoded header, or `None` when no message data came back. */
  type FromFetcher = string -> Option<string>

  /** The sender addresses counted for `nums`, in order. */
  function Senders(nums: seq<string>, fetchFrom: FromFetcher, find: AddressFinder): (r: seq<string>)
    decreases |nums|
  {
    if nums == [] then []
    else
      var init := Senders(nums[..|nums| - 1], fetchFrom, find);
      var last := nums[|nums| - 1];
      if fetchFrom(last).Some? && find(fetchFrom(last).value).Some? then init + [find(fetchFrom(last).value).value]
      else init
  }

  predicate HasSender(fetchFrom: FromFetcher, find: AddressFinder, num: string) {
    fetchFrom(num).Some? && find(fetchFrom(num).value).Some?
  }

  /** One address is counted per message that came back with an address in its From header. */
  lemma {:induction false} SendersCount(nums: seq<string>, fetchFrom: FromFetcher, find: AddressFinder)
    ensures |Senders(nums, fetchFrom, find)| == CountWhere(nums, (n: string) => HasSender(fetchFrom, find, n))
    decreases |nums|
  {
    if nums != [] {
      var init := nums[..|nums| - 1];
      SendersCount(init, fetchFrom, find);
      assert nums == init + [nums[|nums| - 1]];
      CountWhereSnoc(init, nums[|nums| - 1], (n: string) => HasSender(fetchFrom, find, n));
    }
  }

  /** How `stats_senders` ends. */
  datatype StatsOutcome =
    | StatsInboxNotSelected
    | NoUnread
    | TopSenders(rows: Items<string>)

  /**
    `stats_senders`: counts the sender address of each selected unread
    message, skipping messages that came back without data or without an
    address, and reports the `topCount` most common.
  */
  method StatsSenders(inboxOk: bool, unseen: seq<string>, maxEmails: Option<int>, topCount: int,
                      fetchFrom: FromFetcher, find: AddressFinder)
    returns (outcome: StatsOutcome, ghost counted: Items<string>)
    ensures !inboxOk ==> outcome == StatsInboxNotSelected
    ensures inboxOk && StatsSelection(unseen, maxEmails) == [] ==> outcome == NoUnread
    ensures inboxOk && StatsSelection(unseen, maxEmails) != [] ==>
              && counted == Tally(Senders(StatsSelection(unseen, maxEmails), fetchFrom, find))
              && outcome == TopSenders(MostCommon(counted, Some(topCount)))
  {
    counted := [];
    if !inboxOk {
      return StatsInboxNotSelected, counted;
    }
    var nums := LatestFirstAsWritten(unseen);
    if maxEmails.Some? {
      nums := SliceTo(nums, maxEmails.value);
    }
    assert nums == StatsSelection(unseen, maxEmails);
    if nums == [] {
      return NoUnread, counted;
    }
    var counter: Items<string> := [];
    var i := 0;
    while i < |nums|
      invariant 0 <= i <= |nums|
      invariant counter == Tally(Senders(nums[..i], fetchFrom, find))
    {
      var num := nums[i];
      ghost var before := Senders(nums[..i], fetchFrom, find);
      SendersStep(nums, i, fetchFrom, find);
      var header := fetchFrom(num);
      if header.Some? {
        var sender := find(header.value);
        if sender.Some? {
          assert HasSender(fetchFrom, find, num);
          assert Senders(nums[..i + 1], fetchFrom, find) == before + [sender.value];
          TallySnoc(before, sender.value);
          counter := Bump(counter, sender.value);
        } else {
          assert Senders(nums[..i + 1], fetchFrom, find) == before;
        }
      } else {
        assert Senders(nums[..i + 1], fetchFrom, find) == before;
      }
      i := i + 1;
    }
    assert nums[..i] == nums;
    counted := counter;
    outcome := TopSenders(MostCommon(counter, Some(topCount)));
  }

  lemma SendersStep(nums: seq<string>, i: nat, fetchFrom: FromFetcher, find: AddressFinder)
    requires i < |nums|
    ensures Senders(nums[..i + 1], fetchFrom, find)
            == Senders(nums[..i], fetchFrom, find)
               + (if HasSender(fetchFrom, find, nums[i]) then [find(fetchFrom(nums[i]).value).value] else [])
  {
    TakeOneMore(nums, i);
  }

  lemma TallySnoc(s: seq<string>, x: string)
    ensures Tally(s + [x]) == Bump(Tally(s), x)
  {
    assert (s + [x])[..|s|] == s;
  }

  /**
    The counts `stats_senders` gathers: each address is counted once per
    message it sent, and the counts add up to the messages with an address.
  */
  lemma StatsCounts(nums: seq<string>, fetchFrom: FromFetcher, find: AddressFinder, a: string)
    ensures Get(Tally(Senders(nums, fetchFrom, find)), a) == Occurrences(Senders(nums, fetchFrom, find), a)
    ensures TotalCount(Tally(Senders(nums, fetchFrom, find)))
            == CountWhere(nums, (n: string) => HasSender(fetchFrom, find, n))
  {
    TallyGet(Senders(nums, fetchFrom, find), a);
    TallyTotal(Senders(nums, fetchFrom, find));
    SendersCount(nums, fetchFrom, find);
  }

  // ---------------------------------------------------------------- delete_matching

  /**
    What fetching FROM and SUBJECT gives: the decoded From header, a non-OK
    status, an IMAP error, or an OK status whose first data item is `None`
    (then `msg_data[0][1]` raises `TypeError`).
  */
  datatype FetchResult = Fetched(from: string) | NotOk | ImapError | OkNoData

  /** Whether the fetch of a number is OK without data. */
  function NoData(fetch: string -> FetchResult): string -> bool {
    num => fetch(num).OkNoData?
  }

  /** Whether the run deletes message `num`: fetched, its sender matches, and deletion is allowed or confirmed. */
  predicate Deletes(matched: string -> bool, allowAll: bool, fetch: string -> FetchResult,
                    confirm: string -> bool, num: string)
  {
    fetch(num).Fetched? && matched(fetch(num).from) && (allowAll || confirm(num))
  }

  function Deletion(matched: string -> bool, allowAll: bool, fetch: string -> FetchResult,
                    confirm: string -> bool): string -> bool
  {
    num => Deletes(matched, allowAll, fetch, confirm, num)
  }

  /** Whether a decoded From header matches any of the patterns. */
  function HeaderMatches(patterns: seq<string>, find: AddressFinder, matches: Matcher): string -> bool {
    h => MatchEmailAgainstPatterns(h, patterns, find, matches).0
  }

  /** How `delete_matching` ends. */
  datatype DeleteOutcome =
    | NoSource                                 // neither --file-path nor --url-path
    | DeleteInboxNotSelected
    | Totals(processed: nat, deleted: nat)     // the closing "Total emails processed/deleted" line
    | NoDataError(num: string)                 // the TypeError on `num`'s data ends the command

  /**
    `delete_matching`: loads the patterns, then goes through the selected
    unread messages, counting each one, and marks for deletion (and
    expunges) those whose sender matches when `allowAll` or the user's
    answer `confirm(num)` says so. `deletedNums` are the message numbers
    deleted. A fetch that is OK without data raises, which ends the command
    before its totals: the numbers deleted are then those of the messages
    before it.
  */
  method DeleteMatching(filePath: Option<string>, urlPath: Option<string>, read: string -> string,
                        fetchUrl: string -> string, inboxOk: bool, unseen: seq<string>,
                        maxProcess: Option<int>, allowAll: bool, fetch: string -> FetchResult,
                        confirm: string -> bool, find: AddressFinder, matches: Matcher)
    returns (outcome: DeleteOutcome, deletedNums: seq<string>)
    ensures filePath.None? && urlPath.None? ==> outcome == NoSource && deletedNums == []
    ensures (filePath.Some? || urlPath.Some?) && !inboxOk ==> outcome == DeleteInboxNotSelected && deletedNums == []
    ensures (filePath.Some? || urlPath.Some?) && inboxOk ==>
              var sel := DeleteSelection(unseen, maxProcess);
              var patterns := LoadedPatterns(filePath, urlPath, read, fetchUrl);
              var del := Deletion(HeaderMatches(patterns, find, matches), allowAll, fetch, confirm);
              var k := FirstWhere(sel, NoData(fetch));
              && deletedNums == Filter(sel[..k], del)
              && (k == |sel| ==> outcome == Totals(|sel|, CountWhere(sel, del)))
              && (k < |sel| ==> outcome == NoDataError(sel[k]))
  {
    deletedNums := [];
    if filePath.None? && urlPath.None? {
      return NoSource, deletedNums;
    }
    var patterns := LoadPatterns(filePath, urlPath, read, fetchUrl);
    if !inboxOk {
      return DeleteInboxNotSelected, deletedNums;
    }
    var nums := DeleteSelection(unseen, maxProcess);
    var processed, deleted, failed;
    processed, deleted, deletedNums, failed := ProcessMessages(nums, HeaderMatches(patterns, find, matches), allowAll, fetch, confirm);
    if failed.Some? {
      outcome := NoDataError(failed.value);
    } else {
      assert nums[..|nums|] == nums;
      outcome := Totals(processed, deleted);
    }
  }

  /** The pattern list of `delete_matching`, extended first from the file, then from the URL. */
  method LoadPatterns(filePath: Option<string>, urlPath: Option<string>,
                      read: string -> string, fetch: string -> string) returns (patterns: seq<string>)
    ensures patterns == LoadedPatterns(filePath, urlPath, read, fetch)
  {
    patterns := [];
    if Truthy(filePath) {
      var filePatterns := PatternLines(read(filePath.value));
      assert patterns + filePatterns == filePatterns;
      patterns := patterns + filePatterns;
    }
    if Truthy(urlPath) {
      var urlPatterns := PatternLines(fetch(urlPath.value));
      patterns := patterns + urlPatterns;
    }
  }

  /**
    The loop of `delete_matching` over the selected messages, with the
    sender test `matched`; `failed` is the number whose fetch raised, if
    one did, and the loop goes no further than it.
  */
  method ProcessMessages(nums: seq<string>, matched: string -> bool, allowAll: bool,
                         fetch: string -> FetchResult, confirm: string -> bool)
    returns (processed: nat, deleted: nat, deletedNums: seq<string>, failed: Option<string>)
    ensures var k := FirstWhere(nums, NoData(fetch));
            && (failed.Some? <==> k < |nums|)
            && (failed.Some? ==> failed.value == nums[k] && processed == k + 1)
            && (failed.None? ==> processed == |nums|)
            && deletedNums == Filter(nums[..k], Deletion(matched, allowAll, fetch, confirm))
            && deleted == CountWhere(nums[..k], Deletion(matched, allowAll, fetch, confirm))
  {
    ghost var del := Deletion(matched, allowAll, fetch, confirm);
    processed, deleted, deletedNums, failed := 0, 0, [], None;
    ghost var k := FirstWhere(nums, NoData(fetch));
    var i := 0;
    while i < |nums|
      invariant 0 <= i <= k
      invariant processed == i
      invariant deletedNums == Filter(nums[..i], del)
      invariant deleted == CountWhere(nums[..i], del)
    {
      var num := nums[i];
      assert nums[..i + 1] == nums[..i] + [num];
      FilterSnoc(nums[..i], num, del);
      CountWhereSnoc(nums[..i], num, del);
      processed := processed + 1;
      var r := fetch(num);
      if r.OkNoData? {
        failed := Some(num);
        return;
      }
      if r.Fetched? {
        if matched(r.from) {
          var deleting := false;
          if !allowAll {
            if confirm(num) {
              deletedNums := deletedNums + [num];
              deleted := deleted + 1;
              deleting := true;
            }
          } else {
            deletedNums := deletedNums + [num];
            deleted := deleted + 1;
            deleting := true;
          }
        }
      }
      i := i + 1;
    }
    assert nums[..i] == nums;
  }

  /**
    Every message deleted was fetched and matched a pattern, and was
    confirmed unless `allowAll`; no more are deleted than processed.
  */
  lemma DeletedMatched(sel: seq<string>, patterns: seq<string>, allowAll: bool, fetch: string -> FetchResult,
                       confirm: string -> bool, find: AddressFinder, matches: Matcher, num: string)
    requires num in Filter(sel, Deletion(HeaderMatches(patterns, find, matches), allowAll, fetch, confirm))
    ensures num in sel && fetch(num).Fetched? && (allowAll || confirm(num))
    ensures exists i :: 0 <= i < |patterns| && matches(patterns[i], SenderAddress(fetch(num).from, find))
  {
    var del := Deletion(HeaderMatches(patterns, find, matches), allowAll, fetch, confirm);
    var k :| 0 <= k < |Filter(sel, del)| && Filter(sel, del)[k] == num;
    assert del(num);
    assert MatchEmailAgainstPatterns(fetch(num).from, patterns, find, matches).0;
  }

  // ---------------------------------------------------------------- message numbers and EXPUNGE

  /** A message of the inbox, as far as `delete_matching` is concerned. */
  datatype Message = Message(from: string, unseen: bool)

  /**
    One step of the loop as written, on the inbox itself: number `n` names
    the message now at position `n`; if the run deletes it, STORE \Deleted
    and EXPUNGE remove it at once, and the messages after it move up one
    number. A number past the end names nothing (the fetch fails).
  */
  function ExpungeStep(inbox: seq<Message>, n: nat, del: Message -> bool): (r: seq<Message>)
    ensures 1 <= n <= |inbox| && del(inbox[n - 1]) ==> r == inbox[..n - 1] + inbox[n..]
    ensures !(1 <= n <= |inbox| && del(inbox[n - 1])) ==> r == inbox
  {
    if 1 <= n <= |inbox| && del(inbox[n - 1]) then inbox[..n - 1] + inbox[n..] else inbox
  }

  /** The inbox after the loop as written: an EXPUNGE after every deletion. */
  function ExpungeEach(inbox: seq<Message>, nums: seq<nat>, del: Message -> bool): seq<Message>
    decreases |nums|
  {
    if nums == [] then inbox else ExpungeEach(ExpungeStep(inbox, nums[0], del), nums[1..], del)
  }

  /**
    The renumbering as written: of an inbox holding two unseen messages and
    then a read one, all three matching, the UNSEEN search gives 1 and 2.
    Message 1 is deleted and expunged, so number 2 then names the read
    message, which is deleted in place of the second unseen one; with one
    EXPUNGE at the end the read message is the one kept.
  */
  lemma ExpungeRenumbers()
    ensures var a, b, c := Message("a@x", true), Message("b@x", true), Message("c@x", false);
            && ExpungeEach([a, b, c], [1, 2], _ => true) == [b]
            && ExpungeAfter([a, b, c], [1, 2], _ => true) == [c]
  {
    var a, b, c := Message("a@x", true), Message("b@x", true), Message("c@x", false);
    var all := (_: Message) => true;
    assert ExpungeStep([a, b, c], 1, all) == [b, c];
    assert ExpungeStep([b, c], 2, all) == [b];
    assert [1, 2][1..] == [2] && [2][1..] == [];
    var f := Flagged([a, b, c], [1, 2], all);
    assert f(1) && f(2) && !f(3);
    assert [a, b, c][..2] == [a, b] && [a, b][..1] == [a] && [a][..0] == [];
    assert Survivors([a, b], f) == [] by { assert Survivors([a], f) == []; }
  }

  /** The inbox less the messages whose (1-based) number `drop` names. */
  function Survivors(inbox: seq<Message>, drop: nat -> bool): (r: seq<Message>)
    ensures |r| <= |inbox|
    decreases |inbox|
  {
    if inbox == [] then []
    else Survivors(inbox[..|inbox| - 1], drop) + (if drop(|inbox|) then [] else [inbox[|inbox| - 1]])
  }

  /**
    The loop as intended: STORE \Deleted on each number while the numbers
    still name the messages the search found, and one EXPUNGE at the end.
  */
  function ExpungeAfter(inbox: seq<Message>, nums: seq<nat>, del: Message -> bool): seq<Message> {
    Survivors(inbox, Flagged(inbox, nums, del))
  }

  /** The numbers the loop flags \Deleted: those in `nums` naming a message it decides to delete. */
  function Flagged(inbox: seq<Message>, nums: seq<nat>, del: Message -> bool): nat -> bool {
    n => n in nums && 1 <= n <= |inbox| && del(inbox[n - 1])
  }

  /** The messages a run leaves: the read ones, and the unseen ones it decides not to delete. */
  function Kept(del: Message -> bool): Message -> bool {
    (m: Message) => !(m.unseen && del(m))
  }

  /** Dropping by number the messages `keep` rejects is filtering by `keep`. */
  lemma {:induction false} SurvivorsFilter(inbox: seq<Message>, drop: nat -> bool, keep: Message -> bool)
    requires forall n :: 1 <= n <= |inbox| ==> (drop(n) <==> !keep(inbox[n - 1]))
    ensures Survivors(inbox, drop) == Filter(inbox, keep)
    decreases |inbox|
  {
    if inbox != [] {
      var init, last := inbox[..|inbox| - 1], inbox[|inbox| - 1];
      forall n | 1 <= n <= |init| ensures drop(n) <==> !keep(init[n - 1]) {
        assert init[n - 1] == inbox[n - 1];
      }
      SurvivorsFilter(init, drop, keep);
      assert inbox == init + [last];
      FilterSnoc(init, last, keep);
    }
  }

  /**
    With one EXPUNGE at the end, a run over the numbers of exactly the
    unseen messages deletes exactly the unseen messages it decides to
    delete, and keeps every other message in its order.
  */
  lemma ExpungeAfterDeletesMatches(inbox: seq<Message>, nums: seq<nat>, del: Message -> bool)
    requires forall n :: 1 <= n <= |inbox| ==> (n in nums <==> inbox[n - 1].unseen)
    ensures ExpungeAfter(inbox, nums, del) == Filter(inbox, Kept(del))
  {
    var drop, keep := Flagged(inbox, nums, del), Kept(del);
    forall n | 1 <= n <= |inbox| ensures drop(n) <==> !keep(inbox[n - 1]) {
      FlaggedUnlessKept(inbox, nums, del, n);
    }
    SurvivorsFilter(inbox, drop, keep);
  }

  /** One number of the run above: it is flagged exactly when its message is not kept. */
  lemma FlaggedUnlessKept(inbox: seq<Message>, nums: seq<nat>, del: Message -> bool, n: int)
    requires 1 <= n <= |inbox| && (n in nums <==> inbox[n - 1].unseen)
    ensures Flagged(inbox, nums, del)(n) <==> !Kept(del)(inbox[n - 1])
  {
  }

  /** Without any pattern nothing is deleted. */
  lemma NoPatternsDeleteNothing(sel: seq<string>, allowAll: bool, fetch: string -> FetchResult,
                                confirm: string -> bool, find: AddressFinder, matches: Matcher)
    ensures Filter(sel, Deletion(HeaderMatches([], find, matches), allowAll, fetch, confirm)) == []
  {
    FilterNone(sel, Deletion(HeaderMatches([], find, matches), allowAll, fetch, confirm));
  }

  /** With `allowAll`, every fetched message whose sender matches is deleted, without asking. */
  lemma AllowAllDeletesEveryMatch(sel: seq<string>, patterns: seq<string>, fetch: string -> FetchResult,
                                  confirm: string -> bool, find: AddressFinder, matches: Matcher, i: int)
    requires 0 <= i < |sel| && fetch(sel[i]).Fetched?
    requires MatchEmailAgainstPatterns(fetch(sel[i]).from, patterns, find, matches).0
    ensures sel[i] in Filter(sel, Deletion(HeaderMatches(patterns, find, matches), true, fetch, confirm))
  {
  }
}
