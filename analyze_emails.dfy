/**
  The counting core of `analyze_emails.py`: which message ids are
  downloaded, how the sender address of each downloaded message is counted
  with a `Counter`, and the order in which the table rows are shown.

  A message is represented by its From header; `email.utils.parseaddr` is a
  parameter that returns the address part of a header ("" when there is none).
*/
module AnalyzeEmails {
  import opened Wrappers
  import opened PySeq
  import opened Sorting
  import opened Counter

  // ---------------------------------------------------------------- download_emails

  /**
    What the server lists for the mailbox: with the SORT capability the
    command asks for `(REVERSE DATE)`, newest first; otherwise SEARCH ALL
    lists the ids in mailbox order, oldest first. `mailbox` holds the ids
    oldest first.
  */
  function Listing(supportsSort: bool, mailbox: seq<string>): (r: seq<string>)
    ensures |r| == |mailbox|
    ensures supportsSort ==> forall i :: 0 <= i < |r| ==> r[i] == mailbox[|mailbox| - 1 - i]
    ensures !supportsSort ==> r == mailbox
  {
    if supportsSort then Reverse(mailbox) else mailbox
  }

  /** `ids[-num_emails:]`, the ids the script downloads (as written). */
  function IdsToDownload(ids: seq<string>, numEmails: int): seq<string> {
    SliceFrom(ids, -numEmails)
  }

  /**
    A positive count keeps the last `numEmails` ids, zero keeps all of them
    (`[-0:]` is `[0:]`), and a negative count drops that many from the front.
  */
  lemma IdsToDownloadSpec(ids: seq<string>, numEmails: int)
    ensures numEmails == 0 ==> IdsToDownload(ids, numEmails) == ids
    ensures 0 < numEmails <= |ids| ==> IdsToDownload(ids, numEmails) == ids[|ids| - numEmails..]
    ensures numEmails > |ids| ==> IdsToDownload(ids, numEmails) == ids
    ensures -|ids| <= numEmails < 0 ==> IdsToDownload(ids, numEmails) == ids[-numEmails..]
    ensures numEmails < -|ids| ==> IdsToDownload(ids, numEmails) == []
  {
  }

  /**
    As written, on a server with SORT the last `n` ids of the newest-first
    listing are the `n` OLDEST messages: for a mailbox of three messages and
    `n = 1` the single message downloaded is the first one, not the latest.
  */
  lemma SortListingTakesOldest()
    ensures IdsToDownload(Listing(true, ["1", "2", "3"]), 1) == ["1"]
  {
    assert Listing(true, ["1", "2", "3"]) == ["3", "2", "1"];
  }

  /**
    The evidently intended selection: the `n` latest messages, whichever
    order the server lists them in (from the front of a newest-first
    listing, from the back of an oldest-first one).
  */
  function LatestIds(supportsSort: bool, mailbox: seq<string>, numEmails: int): seq<string> {
    var listing := Listing(supportsSort, mailbox);
    if supportsSort then Reverse(SliceTo(listing, if numEmails == 0 then |listing| else numEmails))
    else IdsToDownload(listing, numEmails)
  }

  /**
    With either listing, the corrected selection keeps the same ids: the
    last `n` of the mailbox, oldest first, for every `n` between 0 and the
    mailbox size (0 meaning all).
  */
  lemma LatestIdsSpec(supportsSort: bool, mailbox: seq<string>, numEmails: int)
    requires 0 <= numEmails <= |mailbox|
    ensures numEmails == 0 ==> LatestIds(supportsSort, mailbox, numEmails) == mailbox
    ensures 0 < numEmails ==> LatestIds(supportsSort, mailbox, numEmails) == mailbox[|mailbox| - numEmails..]
  {
    var n := if numEmails == 0 then |mailbox| else numEmails;
    if supportsSort {
      assert LatestIds(true, mailbox, numEmails) == Reverse(SliceTo(Reverse(mailbox), n));
      NewestFirstTail(mailbox, n);
    } else {
      assert LatestIds(false, mailbox, numEmails) == SliceFrom(mailbox, -numEmails);
    }
  }

  /** The first `n` of the newest-first listing, put back in mailbox order, are the last `n` of the mailbox. */
  lemma NewestFirstTail<T>(mailbox: seq<T>, n: nat)
    requires n <= |mailbox|
    ensures Reverse(SliceTo(Reverse(mailbox), n)) == mailbox[|mailbox| - n..]
  {
    var q := Reverse(mailbox);
    var p := SliceTo(q, n);
    var r, want := Reverse(p), mailbox[|mailbox| - n..];
    assert p == q[..n];
    forall i | 0 <= i < n ensures r[i] == want[i] {
      var k := n - 1 - i;
      assert r[i] == p[k];
      assert p[k] == q[k];
      assert q[k] == mailbox[|mailbox| - 1 - k];
      assert want[i] == mailbox[|mailbox| - n + i];
    }
    assert |r| == |want|;
  }

  /**
    What the written selection downloads: from the SEARCH listing, the
    last `n` ids of the mailbox (the latest messages); from the
    newest-first SORT listing, the first `n` ids of the mailbox (the
    oldest messages), newest of them first.
  */
  lemma {:induction false} DownloadSelection(supportsSort: bool, mailbox: seq<string>, n: int)
    requires 0 < n <= |mailbox|
    ensures !supportsSort ==> IdsToDownload(Listing(supportsSort, mailbox), n) == mailbox[|mailbox| - n..]
    ensures supportsSort ==> IdsToDownload(Listing(supportsSort, mailbox), n) == Reverse(mailbox[..n])
  {
    IdsToDownloadSpec(Listing(supportsSort, mailbox), n);
    if supportsSort {
      var q := Listing(true, mailbox);
      var r, want := q[|q| - n..], Reverse(mailbox[..n]);
      forall i | 0 <= i < n ensures r[i] == want[i] {
        assert r[i] == q[|q| - n + i] == mailbox[n - 1 - i];
      }
      assert |r| == |want|;
    }
  }

  /**
    `download_emails`: fetches each selected id in turn and appends the
    message; `fetch` is the server's FETCH answer for an id, and
    `supportsSort` whether the test `b"SORT" in server.capabilities`
    holds. The ids are `ids[-num_emails:]` of the listing, as written.
  */
  method DownloadEmails(supportsSort: bool, mailbox: seq<string>, numEmails: int, fetch: string -> string)
    returns (emails: seq<string>)
    ensures |emails| == |IdsToDownload(Listing(supportsSort, mailbox), numEmails)|
    ensures forall i :: 0 <= i < |emails| ==> emails[i] == fetch(IdsToDownload(Listing(supportsSort, mailbox), numEmails)[i])
  {
    var ids := IdsToDownload(Listing(supportsSort, mailbox), numEmails);
    emails := [];
    var k := 0;
    while k < |ids|
      invariant 0 <= k <= |ids|
      invariant |emails| == k
      invariant forall i :: 0 <= i < k ==> emails[i] == fetch(ids[i])
    {
      emails := emails + [fetch(ids[k])];
      k := k + 1;
    }
  }

  /**
    Without SORT the written selection is the corrected one, so then
    `download_emails` fetches the latest `n` messages.
  */
  lemma AsWrittenWithoutSort(mailbox: seq<string>, numEmails: int)
    ensures IdsToDownload(Listing(false, mailbox), numEmails) == LatestIds(false, mailbox, numEmails)
  {
  }

  // ---------------------------------------------------------------- analyze_senders

  /** `[parseaddr(m["From"])[1] for m in emails]`. */
  function SenderAddresses(emails: seq<string>, parse: string -> string): (r: seq<string>)
    ensures |r| == |emails|
    ensures forall i :: 0 <= i < |emails| ==> r[i] == parse(emails[i])
  {
    seq(|emails|, i requires 0 <= i < |emails| => parse(emails[i]))
  }

  /** `analyze_senders`: `Counter(senders).most_common()`. */
  function AnalyzeSenders(emails: seq<string>, parse: string -> string): Items<string> {
    MostCommon(Tally(SenderAddresses(emails, parse)), None)
  }

  /**
    The ranking counts every message once: each row holds how many messages
    that address sent, every sender has a row, the counts add up to the
    number of messages, and the rows come by non-increasing count.
  */
  lemma AnalyzeSendersCounts(emails: seq<string>, parse: string -> string)
    ensures TotalCount(AnalyzeSenders(emails, parse)) == |emails|
    ensures forall i :: 0 <= i < |AnalyzeSenders(emails, parse)| ==>
              AnalyzeSenders(emails, parse)[i].1
              == Occurrences(SenderAddresses(emails, parse), AnalyzeSenders(emails, parse)[i].0)
    ensures forall k :: 0 <= k < |emails| ==> parse(emails[k]) in Keys(AnalyzeSenders(emails, parse))
    ensures forall i, j :: 0 <= i < j < |AnalyzeSenders(emails, parse)| ==>
              AnalyzeSenders(emails, parse)[i].1 >= AnalyzeSenders(emails, parse)[j].1
  {
    MostCommonOfTally(SenderAddresses(emails, parse));
  }

  /**
    Senders with the same count keep the order of their first message:
    among the rows of any one count, the ranking lists them as the counter
    first saw them.
  */
  lemma AnalyzeSendersTies(emails: seq<string>, parse: string -> string, n: nat)
    ensures Filter(AnalyzeSenders(emails, parse), HasCount(n))
            == Filter(Tally(SenderAddresses(emails, parse)), HasCount(n))
    ensures Keys(Tally(SenderAddresses(emails, parse))) == FirstSeen(SenderAddresses(emails, parse))
  {
    MostCommonTies(Tally(SenderAddresses(emails, parse)), ("", n));
    TallyKeys(SenderAddresses(emails, parse));
  }

  // ---------------------------------------------------------------- display_results

  /** `display_results`: the table rows, `reversed(sender_counts)`. */
  function DisplayRows(senderCounts: Items<string>): Items<string> {
    Reverse(senderCounts)
  }

  /**
    The table shows the ranking least frequent first: for rows ranked by
    non-increasing count (as `AnalyzeSendersCounts` proves of the ranking),
    the displayed rows come by non-decreasing count, and reading them
    backwards gives the ranking.
  */
  lemma DisplayLeastFirst(senderCounts: Items<string>)
    requires forall i, j :: 0 <= i < j < |senderCounts| ==> senderCounts[i].1 >= senderCounts[j].1
    ensures Reverse(DisplayRows(senderCounts)) == senderCounts
    ensures forall i, j :: 0 <= i < j < |DisplayRows(senderCounts)| ==>
              DisplayRows(senderCounts)[i].1 <= DisplayRows(senderCounts)[j].1
  {
    ReverseReverse(senderCounts);
    ReverseAscending(senderCounts);
  }

  lemma ReverseAscending(c: Items<string>)
    requires forall i, j :: 0 <= i < j < |c| ==> c[i].1 >= c[j].1
    ensures forall i, j :: 0 <= i < j < |Reverse(c)| ==> Reverse(c)[i].1 <= Reverse(c)[j].1
  {
    forall i, j | 0 <= i < j < |Reverse(c)| ensures Reverse(c)[i].1 <= Reverse(c)[j].1 {
      var a, b := |c| - 1 - i, |c| - 1 - j;
      assert Reverse(c)[i] == c[a] && Reverse(c)[j] == c[b];
      assert 0 <= b < a < |c|;
    }
  }
}
