/**
  The listing core of `gh_list_changed.py`: the closed pull requests of a
  month, the files each of them added grouped by file name, and the table
  rows sorted by file name.

  The GitHub API is left out: a pull request is a record holding what the
  script reads from it (title, number, close time and changed files), and
  the list of closed pull requests is an input.
*/
module GhListChanged {
  import opened Wrappers
  import opened Strings
  import opened PySeq
  import opened Sorting
  import opened Counter

  // ---------------------------------------------------------------- records

  /** A naive `datetime`, compared field by field. */
  datatype DateTime = DateTime(year: int, month: int, day: int, hour: int, minute: int, second: int, micro: int)

  /** The ranges `datetime` enforces on a month, a day and a time of day. */
  predicate ValidDate(d: DateTime) {
    1 <= d.month <= 12 && 1 <= d.day <= 31 && 0 <= d.hour < 24 && 0 <= d.minute < 60
    && 0 <= d.second < 60 && 0 <= d.micro < 1000000
  }

  /** `a < b` for `datetime` values. */
  predicate Less(a: DateTime, b: DateTime) {
    a.year < b.year || (a.year == b.year &&
    (a.month < b.month || (a.month == b.month &&
    (a.day < b.day || (a.day == b.day &&
    (a.hour < b.hour || (a.hour == b.hour &&
    (a.minute < b.minute || (a.minute == b.minute &&
    (a.second < b.second || (a.second == b.second && a.micro < b.micro)))))))))))
  }

  /** A file in a pull request's file list, with its `status` ("added", "modified", ...). */
  datatype ChangedFile = ChangedFile(filename: string, status: string)

  datatype PullRequest = PullRequest(title: string, number: nat, closedAt: DateTime, files: seq<ChangedFile>)

  // ---------------------------------------------------------------- filter_prs_by_month

  /**
    `datetime.fromisoformat(f"{month}-01T00:00:00")` for a `YYYY-MM` month:
    the year and month, or `None` where the call raises.
  */
  function ParseMonth(month: string): (r: Option<(int, int)>)
    ensures r.Some? ==> 1 <= r.value.0 && 1 <= r.value.1 <= 12
    ensures r.Some? ==> |month| == 7 && month[4] == '-'
  {
    if |month| == 7 && AllDigits(month[..4]) && month[4] == '-' && AllDigits(month[5..]) then
      var y := DecimalValue(month[..4]);
      var m := DecimalValue(month[5..]);
      if 1 <= y && 1 <= m <= 12 then Some((y, m)) else None
    else None
  }

  /** Midnight on the first day of the month. */
  function MonthStart(year: int, month: int): DateTime {
    DateTime(year, month, 1, 0, 0, 0, 0)
  }

  /** The end of the window as written: `start.replace(month=start.month % 12 + 1)`, in the same year. */
  function EndAsWritten(year: int, month: int): DateTime {
    DateTime(year, month % 12 + 1, 1, 0, 0, 0, 0)
  }

  /** The end of the window as intended: the first day of the next month, in the next year after December. */
  function MonthEnd(year: int, month: int): DateTime {
    if month == 12 then DateTime(year + 1, 1, 1, 0, 0, 0, 0) else DateTime(year, month + 1, 1, 0, 0, 0, 0)
  }

  /** `start <= pr.closed_at < end`. */
  function ClosedWithin(start: DateTime, end: DateTime): PullRequest -> bool {
    (pr: PullRequest) => !Less(pr.closedAt, start) && Less(pr.closedAt, end)
  }

  /** `filter_prs_by_month` as written. */
  function FilterByMonthAsWritten(prs: seq<PullRequest>, year: int, month: int): seq<PullRequest> {
    Filter(prs, ClosedWithin(MonthStart(year, month), EndAsWritten(year, month)))
  }

  /** As written, December's window ends on January 1 of the same year, so no pull request is kept. */
  lemma DecemberKeepsNothing(prs: seq<PullRequest>, year: int)
    ensures FilterByMonthAsWritten(prs, year, 12) == []
  {
    FilterNone(prs, ClosedWithin(MonthStart(year, 12), EndAsWritten(year, 12)));
  }

  /** `filter_prs_by_month` with the window ending at the start of the next month. */
  function FilterByMonth(prs: seq<PullRequest>, year: int, month: int): seq<PullRequest> {
    Filter(prs, ClosedWithin(MonthStart(year, month), MonthEnd(year, month)))
  }

  /** A valid close time is in the intended window exactly when it falls in that year and month. */
  lemma WindowIsMonth(d: DateTime, year: int, month: int)
    requires ValidDate(d) && 1 <= month <= 12
    ensures (!Less(d, MonthStart(year, month)) && Less(d, MonthEnd(year, month)))
            <==> d.year == year && d.month == month
  {
  }

  /**
    The corrected filter keeps exactly the pull requests closed in the given
    month, in input order.
  */
  lemma FilterByMonthSpec(prs: seq<PullRequest>, year: int, month: int)
    requires 1 <= month <= 12
    requires forall i :: 0 <= i < |prs| ==> ValidDate(prs[i].closedAt)
    ensures forall i :: 0 <= i < |FilterByMonth(prs, year, month)| ==>
              FilterByMonth(prs, year, month)[i].closedAt.year == year
              && FilterByMonth(prs, year, month)[i].closedAt.month == month
    ensures forall i :: 0 <= i < |prs| && prs[i].closedAt.year == year && prs[i].closedAt.month == month ==>
              prs[i] in FilterByMonth(prs, year, month)
    ensures Subsequence(FilterByMonth(prs, year, month), prs)
  {
    var r := FilterByMonth(prs, year, month);
    forall i | 0 <= i < |r| ensures r[i].closedAt.year == year && r[i].closedAt.month == month {
      var k :| 0 <= k < |prs| && prs[k] == r[i];
      WindowIsMonth(prs[k].closedAt, year, month);
    }
    forall i | 0 <= i < |prs| && prs[i].closedAt.year == year && prs[i].closedAt.month == month
      ensures prs[i] in r
    {
      WindowIsMonth(prs[i].closedAt, year, month);
    }
    FilterSubsequence(prs, ClosedWithin(MonthStart(year, month), MonthEnd(year, month)));
  }

  /** Before December the written window is the intended one. */
  lemma AsWrittenBeforeDecember(prs: seq<PullRequest>, year: int, month: int)
    requires 1 <= month < 12
    ensures FilterByMonthAsWritten(prs, year, month) == FilterByMonth(prs, year, month)
  {
    assert EndAsWritten(year, month) == MonthEnd(year, month);
  }

  // ---------------------------------------------------------------- file_to_prs

  /** `f"{pr.title} (#{pr.number})"`. */
  function Summary(pr: PullRequest): string {
    pr.title + " (#" + NatToString(pr.number) + ")"
  }

  /** `file_to_prs`: a `defaultdict(list)` as its items, in key insertion order. */
  type Groups = seq<(string, seq<string>)>

  /** `file_to_prs[name]`, the empty list for a name never added. */
  function Lookup(g: Groups, name: string): seq<string>
    decreases |g|
  {
    if g == [] then [] else if g[0].0 == name then g[0].1 else Lookup(g[1..], name)
  }

  /** `file_to_prs[name].append(summary)`. */
  function Append(g: Groups, name: string, summary: string): (r: Groups)
    ensures Keys(r) == if name in Keys(g) then Keys(g) else Keys(g) + [name]
    decreases |g|
  {
    if g == [] then [(name, [summary])]
    else if g[0].0 == name then
      KeysCons(g[0], g[1..]);
      KeysCons((name, g[0].1 + [summary]), g[1..]);
      [(name, g[0].1 + [summary])] + g[1..]
    else
      var t := Append(g[1..], name, summary);
      KeysCons(g[0], g[1..]);
      KeysCons(g[0], t);
      [g[0]] + t
  }

  lemma KeysCons(h: (string, seq<string>), t: Groups)
    ensures Keys([h] + t) == [h.0] + Keys(t)
  {
  }

  lemma {:induction false} AppendLookup(g: Groups, name: string, summary: string, x: string)
    ensures Lookup(Append(g, name, summary), x) == Lookup(g, x) + (if x == name then [summary] else [])
    decreases |g|
  {
    if g != [] && g[0].0 != name { AppendLookup(g[1..], name, summary, x); }
  }

  /** The number of summaries held, over all names. */
  function Size(g: Groups): nat
    decreases |g|
  {
    if g == [] then 0 else |g[0].1| + Size(g[1..])
  }

  lemma {:induction false} AppendSize(g: Groups, name: string, summary: string)
    ensures Size(Append(g, name, summary)) == Size(g) + 1
    decreases |g|
  {
    if g != [] && g[0].0 != name { AppendSize(g[1..], name, summary); }
  }

  predicate IsAdded(f: ChangedFile) {
    f.status == "added"
  }

  /** The inner loop: `summary` appended under the name of each added file, in file-list order. */
  function AddFiles(g: Groups, files: seq<ChangedFile>, summary: string): Groups
    decreases |files|
  {
    if files == [] then g
    else
      var h := AddFiles(g, files[..|files| - 1], summary);
      var f := files[|files| - 1];
      if IsAdded(f) then Append(h, f.filename, summary) else h
  }

  /** The outer loop over the pull requests, in processing order. */
  function Grouped(prs: seq<PullRequest>): Groups
    decreases |prs|
  {
    if prs == [] then [] else AddFiles(Grouped(prs[..|prs| - 1]), prs[|prs| - 1].files, Summary(prs[|prs| - 1]))
  }

  /** `n` copies of `x`. */
  function Repeat(x: string, n: nat): (r: seq<string>)
    ensures |r| == n && forall i :: 0 <= i < n ==> r[i] == x
  {
    seq(n, i => x)
  }

  function AddedAs(name: string): ChangedFile -> bool {
    (f: ChangedFile) => IsAdded(f) && f.filename == name
  }

  /**
    The reference for one file name: each pull request's summary, once for
    every time its file list shows that name as added, pull requests in
    processing order.
  */
  function AddedSummaries(prs: seq<PullRequest>, name: string): seq<string>
    decreases |prs|
  {
    if prs == [] then []
    else
      var last := prs[|prs| - 1];
      AddedSummaries(prs[..|prs| - 1], name) + Repeat(Summary(last), CountWhere(last.files, AddedAs(name)))
  }

  lemma {:induction false} AddFilesLookup(g: Groups, files: seq<ChangedFile>, summary: string, name: string)
    ensures Lookup(AddFiles(g, files, summary), name) == Lookup(g, name) + Repeat(summary, CountWhere(files, AddedAs(name)))
    decreases |files|
  {
    if files != [] {
      var init, f := files[..|files| - 1], files[|files| - 1];
      AddFilesLookup(g, init, summary, name);
      assert files == init + [f];
      CountWhereSnoc(init, f, AddedAs(name));
      var h := AddFiles(g, init, summary);
      if IsAdded(f) {
        AppendLookup(h, f.filename, summary, name);
      }
      assert Repeat(summary, CountWhere(init, AddedAs(name))) + (if AddedAs(name)(f) then [summary] else [])
             == Repeat(summary, CountWhere(files, AddedAs(name)));
    }
  }

  /** Each file name holds exactly the summaries of the pull requests that added it, in processing order. */
  lemma {:induction false} GroupedLookup(prs: seq<PullRequest>, name: string)
    ensures Lookup(Grouped(prs), name) == AddedSummaries(prs, name)
    decreases |prs|
  {
    if prs != [] {
      var last := prs[|prs| - 1];
      GroupedLookup(prs[..|prs| - 1], name);
      AddFilesLookup(Grouped(prs[..|prs| - 1]), last.files, Summary(last), name);
    }
  }

  /** The number of added-file entries over all pull requests. */
  function AddedCount(prs: seq<PullRequest>): nat
    decreases |prs|
  {
    if prs == [] then 0 else AddedCount(prs[..|prs| - 1]) + CountWhere(prs[|prs| - 1].files, IsAdded)
  }

  lemma {:induction false} AddFilesSize(g: Groups, files: seq<ChangedFile>, summary: string)
    ensures Size(AddFiles(g, files, summary)) == Size(g) + CountWhere(files, IsAdded)
    decreases |files|
  {
    if files != [] {
      var init, f := files[..|files| - 1], files[|files| - 1];
      AddFilesSize(g, init, summary);
      assert files == init + [f];
      CountWhereSnoc(init, f, IsAdded);
      if IsAdded(f) { AppendSize(AddFiles(g, init, summary), f.filename, summary); }
    }
  }

  /** One summary is appended per added-file entry. */
  lemma {:induction false} GroupedSize(prs: seq<PullRequest>)
    ensures Size(Grouped(prs)) == AddedCount(prs)
    decreases |prs|
  {
    if prs != [] {
      GroupedSize(prs[..|prs| - 1]);
      AddFilesSize(Grouped(prs[..|prs| - 1]), prs[|prs| - 1].files, Summary(prs[|prs| - 1]));
    }
  }

  /** A name is only ever a key after a summary was appended under it. */
  lemma {:induction false} AddFilesNames(g: Groups, files: seq<ChangedFile>, summary: string, name: string)
    requires name in Keys(AddFiles(g, files, summary))
    ensures name in Keys(g) || Lookup(AddFiles(g, files, summary), name) != []
    decreases |files|
  {
    if files != [] {
      var init, f := files[..|files| - 1], files[|files| - 1];
      var h := AddFiles(g, init, summary);
      if IsAdded(f) {
        AppendLookup(h, f.filename, summary, name);
        if name in Keys(h) { AddFilesNames(g, init, summary, name); }
        if Lookup(h, name) != [] { AddFilesLookup(g, init, summary, name); }
      } else {
        AddFilesNames(g, init, summary, name);
      }
    }
  }

  /** `file_to_prs` gains a key only for a file some pull request added. */
  lemma {:induction false} GroupedNames(prs: seq<PullRequest>, name: string)
    requires name in Keys(Grouped(prs))
    ensures AddedSummaries(prs, name) != []
    decreases |prs|
  {
    GroupedLookup(prs, name);
    var last := prs[|prs| - 1];
    var init := prs[..|prs| - 1];
    AddFilesNames(Grouped(init), last.files, Summary(last), name);
    if name in Keys(Grouped(init)) && Lookup(Grouped(prs), name) == [] {
      GroupedNames(init, name);
      GroupedLookup(init, name);
      AddFilesLookup(Grouped(init), last.files, Summary(last), name);
    }
  }

  // ---------------------------------------------------------------- sorted rows

  /** `sorted(file_to_prs.items())`: by file name; the names are distinct, so the lists are never compared. */
  function ByName(): ((string, seq<string>), (string, seq<string>)) -> bool {
    (a: (string, seq<string>), b: (string, seq<string>)) => LexLe(a.0, b.0)
  }

  lemma ByNameIsTotalPreorder()
    ensures TotalPreorder(ByName())
  {
    forall a: (string, seq<string>), b: (string, seq<string>) ensures LexLe(a.0, b.0) || LexLe(b.0, a.0) {
      LexLeTotal(a.0, b.0);
    }
    forall a: (string, seq<string>), b: (string, seq<string>), c: (string, seq<string>)
      | LexLe(a.0, b.0) && LexLe(b.0, c.0) ensures LexLe(a.0, c.0)
    {
      LexLeTransitive(a.0, b.0, c.0);
    }
  }

  /** The table rows: for each item, one `(file, summary)` row per summary, in list order. */
  function Rows(items: Groups): seq<(string, string)>
    decreases |items|
  {
    if items == [] then []
    else seq(|items[0].1|, j requires 0 <= j < |items[0].1| => (items[0].0, items[0].1[j])) + Rows(items[1..])
  }

  lemma {:induction false} RowsCount(items: Groups)
    ensures |Rows(items)| == Size(items)
    decreases |items|
  {
    if items != [] { RowsCount(items[1..]); }
  }

  lemma {:induction false} RowsConcat(a: Groups, b: Groups)
    ensures Rows(a + b) == Rows(a) + Rows(b)
    decreases |a|
  {
    if a == [] {
      assert a + b == b;
    } else {
      assert (a + b)[0] == a[0] && (a + b)[1..] == a[1..] + b;
      RowsConcat(a[1..], b);
    }
  }

  /** Rows of items whose names are all at or above `low` have names at or above `low`. */
  lemma {:induction false} RowsAbove(items: Groups, low: string)
    requires forall k :: 0 <= k < |items| ==> LexLe(low, items[k].0)
    ensures forall i :: 0 <= i < |Rows(items)| ==> LexLe(low, Rows(items)[i].0)
    decreases |items|
  {
    if items != [] {
      RowsAbove(items[1..], low);
      var head := seq(|items[0].1|, j requires 0 <= j < |items[0].1| => (items[0].0, items[0].1[j]));
      assert Rows(items) == head + Rows(items[1..]);
      forall i | 0 <= i < |Rows(items)| ensures LexLe(low, Rows(items)[i].0) {
        if i >= |head| { assert Rows(items)[i] == Rows(items[1..])[i - |head|]; }
      }
    }
  }

  /** Items sorted by name give rows sorted by name. */
  lemma {:induction false} RowsSorted(items: Groups)
    requires SortedBy(items, ByName())
    ensures forall i, j :: 0 <= i < j < |Rows(items)| ==> LexLe(Rows(items)[i].0, Rows(items)[j].0)
    decreases |items|
  {
    if items != [] {
      var name := items[0].0;
      var head := seq(|items[0].1|, j requires 0 <= j < |items[0].1| => (name, items[0].1[j]));
      var tail := Rows(items[1..]);
      assert SortedBy(items[1..], ByName()) by {
        forall a, b | 0 <= a < b < |items[1..]| ensures ByName()(items[1..][a], items[1..][b]) {
          assert items[1..][a] == items[a + 1] && items[1..][b] == items[b + 1];
        }
      }
      RowsSorted(items[1..]);
      assert forall k :: 0 <= k < |items[1..]| ==> LexLe(name, items[1..][k].0) by {
        forall k | 0 <= k < |items[1..]| ensures LexLe(name, items[1..][k].0) {
          assert ByName()(items[0], items[k + 1]);
        }
      }
      RowsAbove(items[1..], name);
      LexLeTotal(name, name);
      var r := Rows(items);
      assert r == head + tail;
      forall i, j | 0 <= i < j < |r| ensures LexLe(r[i].0, r[j].0) {
        if j < |head| {
          assert r[i].0 == name && r[j].0 == name;
        } else if i < |head| {
          assert r[i].0 == name && r[j] == tail[j - |head|];
        } else {
          assert r[i] == tail[i - |head|] && r[j] == tail[j - |head|];
        }
      }
    }
  }

  lemma {:induction false} InsertSize(x: (string, seq<string>), items: Groups)
    ensures Size(Insert(x, items, ByName())) == |x.1| + Size(items)
    decreases |items|
  {
    if items != [] && !ByName()(x, items[0]) {
      InsertSize(x, items[1..]);
      assert Insert(x, items, ByName())[1..] == Insert(x, items[1..], ByName());
    } else {
      assert Insert(x, items, ByName())[1..] == items;
    }
  }

  lemma {:induction false} SortSize(items: Groups)
    ensures Size(Sort(items, ByName())) == Size(items)
    decreases |items|
  {
    if items != [] {
      SortSize(items[1..]);
      InsertSize(items[0], Sort(items[1..], ByName()));
    }
  }

  /**
    The table: one row per appended summary, sorted by file name, holding
    every item of `file_to_prs`.
  */
  lemma TableRows(prs: seq<PullRequest>)
    ensures |Rows(Sort(Grouped(prs), ByName()))| == AddedCount(prs)
    ensures forall i, j :: 0 <= i < j < |Rows(Sort(Grouped(prs), ByName()))| ==>
              LexLe(Rows(Sort(Grouped(prs), ByName()))[i].0, Rows(Sort(Grouped(prs), ByName()))[j].0)
    ensures multiset(Sort(Grouped(prs), ByName())) == multiset(Grouped(prs))
  {
    var sorted := Sort(Grouped(prs), ByName());
    RowsCount(sorted);
    SortSize(Grouped(prs));
    GroupedSize(prs);
    ByNameIsTotalPreorder();
    SortSorted(Grouped(prs), ByName());
    RowsSorted(sorted);
  }

  // ---------------------------------------------------------------- main

  /** `main`'s nested loops filling `file_to_prs`. */
  method GroupAddedFiles(prs: seq<PullRequest>) returns (fileToPrs: Groups)
    ensures fileToPrs == Grouped(prs)
  {
    fileToPrs := [];
    var i := 0;
    while i < |prs|
      invariant 0 <= i <= |prs|
      invariant fileToPrs == Grouped(prs[..i])
    {
      var pr := prs[i];
      var summary := Summary(pr);
      var before := fileToPrs;
      var k := 0;
      while k < |pr.files|
        invariant 0 <= k <= |pr.files|
        invariant fileToPrs == AddFiles(before, pr.files[..k], summary)
      {
        var file := pr.files[k];
        assert pr.files[..k + 1][..k] == pr.files[..k];
        if file.status == "added" {
          fileToPrs := Append(fileToPrs, file.filename, summary);
        }
        k := k + 1;
      }
      assert pr.files[..k] == pr.files;
      assert prs[..i + 1][..i] == prs[..i];
      i := i + 1;
    }
    assert prs[..i] == prs;
  }

  /** `main`'s loops adding the table rows. */
  method EmitRows(sortedFiles: Groups) returns (rows: seq<(string, string)>)
    ensures rows == Rows(sortedFiles)
  {
    rows := [];
    var i := 0;
    while i < |sortedFiles|
      invariant 0 <= i <= |sortedFiles|
      invariant rows == Rows(sortedFiles[..i])
    {
      var (filename, titles) := sortedFiles[i];
      var before := rows;
      var k := 0;
      while k < |titles|
        invariant 0 <= k <= |titles|
        invariant rows == before + seq(k, j requires 0 <= j < k => (filename, titles[j]))
      {
        rows := rows + [(filename, titles[k])];
        k := k + 1;
      }
      assert sortedFiles[..i + 1] == sortedFiles[..i] + [sortedFiles[i]];
      RowsConcat(sortedFiles[..i], [sortedFiles[i]]);
      assert Rows([sortedFiles[i]]) == seq(k, j requires 0 <= j < k => (filename, titles[j]));
      i := i + 1;
    }
    assert sortedFiles[..i] == sortedFiles;
  }

  /** How `main` ends. */
  datatype Outcome = NoToken | BadMonth | Table(rows: seq<(string, string)>)

  /**
    `main`: without a token nothing is fetched; a month that is not
    `YYYY-MM` aborts; otherwise the first `maxPrs` closed pull requests
    are filtered to the month, with the window as written, and their added
    files listed. Before December that is the calendar month; for a
    December the table is empty.
  */
  method ListChanged(token: string, closedPrs: seq<PullRequest>, maxPrs: int, month: string)
    returns (outcome: Outcome)
    ensures token == "" ==> outcome == NoToken
    ensures token != "" && ParseMonth(month).None? ==> outcome == BadMonth
    ensures token != "" && ParseMonth(month).Some? ==>
              outcome == Table(Rows(Sort(Grouped(FilterByMonthAsWritten(SliceTo(closedPrs, maxPrs),
                                                                        ParseMonth(month).value.0,
                                                                        ParseMonth(month).value.1)), ByName())))
    ensures token != "" && ParseMonth(month).Some? && 1 <= ParseMonth(month).value.1 < 12 ==>
              outcome == Table(Rows(Sort(Grouped(FilterByMonth(SliceTo(closedPrs, maxPrs),
                                                               ParseMonth(month).value.0,
                                                               ParseMonth(month).value.1)), ByName())))
    ensures token != "" && ParseMonth(month).Some? && ParseMonth(month).value.1 == 12 ==> outcome == Table([])
  {
    if token == "" {
      return NoToken;
    }
    var allClosed := SliceTo(closedPrs, maxPrs);
    var parsed := ParseMonth(month);
    if parsed.None? {
      return BadMonth;
    }
    var filtered := FilterByMonthAsWritten(allClosed, parsed.value.0, parsed.value.1);
    if parsed.value.1 < 12 {
      AsWrittenBeforeDecember(allClosed, parsed.value.0, parsed.value.1);
    } else if parsed.value.1 == 12 {
      DecemberKeepsNothing(allClosed, parsed.value.0);
    }
    var fileToPrs := GroupAddedFiles(filtered);
    var sortedFiles := Sort(fileToPrs, ByName());
    var rows := EmitRows(sortedFiles);
    outcome := Table(rows);
  }
}
