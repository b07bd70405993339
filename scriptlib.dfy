/** The shared helpers of the scripts: `chunks`, the y/n/q prompt and the logging level choice. */
module ScriptLib {
  import opened Wrappers
  import opened Strings
  import opened PySeq

  /** `ar[idx:idx + n]` for `idx` in `range(0, len(ar), n)`, for a positive `n`. */
  function Slices<T>(ar: seq<T>, n: nat): (r: seq<seq<T>>)
    requires n > 0
    decreases |ar|
  {
    if ar == [] then []
    else if |ar| <= n then [ar]
    else [ar[..n]] + Slices(ar[n..], n)
  }

  datatype ChunkError = ZeroLength  // `range()` refuses a zero step with ValueError

  /** `list(chunks(ar, length))`: a zero length raises, a negative one yields nothing. */
  function Chunks<T>(ar: seq<T>, length: int): (r: Result<seq<seq<T>>, ChunkError>)
    ensures r.Failure? <==> length == 0
    ensures length < 0 ==> r == Success([])
    ensures length > 0 ==> r == Success(Slices(ar, length))
  {
    if length == 0 then Failure(ZeroLength)
    else if length < 0 then Success([])
    else Success(Slices(ar, length))
  }

  /** Joining the slices gives back the input. */
  lemma {:induction false} SlicesFlatten<T>(ar: seq<T>, n: nat)
    requires n > 0
    ensures Flatten(Slices(ar, n)) == ar
    decreases |ar|
  {
    if |ar| > n {
      SlicesFlatten(ar[n..], n);
      assert ar == ar[..n] + ar[n..];
    } else if ar != [] {
      assert Flatten([ar]) == ar + Flatten([]);
    }
  }

  /** Every slice but the last has exactly `n` elements; the last has between 1 and `n`. */
  lemma {:induction false} SlicesSizes<T>(ar: seq<T>, n: nat)
    requires n > 0
    ensures forall i :: 0 <= i < |Slices(ar, n)| - 1 ==> |Slices(ar, n)[i]| == n
    ensures Slices(ar, n) != [] ==> 0 < |Slices(ar, n)[|Slices(ar, n)| - 1]| <= n
    decreases |ar|
  {
    if |ar| > n {
      SlicesSizes(ar[n..], n);
    }
  }

  /** There are ceil(len(ar) / n) slices: the fewest whose `n` places hold `ar`; none for an empty input. */
  lemma {:induction false} SlicesCount<T>(ar: seq<T>, n: nat)
    requires n > 0
    ensures |ar| <= |Slices(ar, n)| * n < |ar| + n
    ensures ar == [] <==> Slices(ar, n) == []
    decreases |ar|
  {
    if |ar| > n {
      var rest := Slices(ar[n..], n);
      SlicesCount(ar[n..], n);
      assert |Slices(ar, n)| * n == n + |rest| * n;
    }
  }

  /** Adding one more batch behind whole batches adds one slice. */
  lemma {:induction false} SlicesAppend<T>(a: seq<T>, c: seq<T>, n: nat, k: nat)
    requires n > 0 && |a| == k * n && 0 < |c| <= n
    ensures Slices(a + c, n) == Slices(a, n) + [c]
    decreases k
  {
    if k == 0 {
      assert a == [];
      assert a + c == c;
    } else {
      assert |a| == (k - 1) * n + n;
      assert (a + c)[..n] == a[..n];
      assert (a + c)[n..] == a[n..] + c;
      SlicesAppend(a[n..], c, n, k - 1);
      if k == 1 {
        assert a[n..] == [];
      }
    }
  }

  /** The example of the docstring: `chunks(range(10), 3)`. */
  lemma SlicesExample()
    ensures Slices([0, 1, 2, 3, 4, 5, 6, 7, 8, 9], 3) == [[0, 1, 2], [3, 4, 5], [6, 7, 8], [9]]
  {
    var s := [0, 1, 2, 3, 4, 5, 6, 7, 8, 9];
    assert s[..3] == [0, 1, 2] && s[3..] == [3, 4, 5, 6, 7, 8, 9];
    var s1 := s[3..];
    assert s1[..3] == [3, 4, 5] && s1[3..] == [6, 7, 8, 9];
    var s2 := s1[3..];
    assert s2[..3] == [6, 7, 8] && s2[3..] == [9];
    assert Slices([9], 3) == [[9]];
    assert Slices(s2, 3) == [[6, 7, 8], [9]];
    assert Slices(s1, 3) == [[3, 4, 5], [6, 7, 8], [9]];
  }

  /** The reply `ask` reads after `.lower().strip()`. */
  function Normalise(reply: string): string {
    Strip(Lower(reply))
  }

  /** The letters `ask` accepts as the start of an answer. */
  predicate IsAnswer(ch: char) {
    ch == 'y' || ch == 'n' || ch == 'q'
  }

  /** A reply `ask` accepts: non-empty after normalising, starting with y, n or q. */
  predicate Accepted(reply: string) {
    var c := Normalise(reply);
    c != [] && IsAnswer(c[0])
  }

  /**
    `ask`: reads replies in turn until one is accepted, printing "Invalid input"
    for each rejected one. `replies` are the lines the user types; running out
    of them is the end of input, where Python's `input()` raises EOFError.
  */
  method Ask(replies: seq<string>) returns (choice: Option<char>, read: nat, rejected: nat)
    ensures read <= |replies| && rejected <= read
    ensures choice.Some? ==> IsAnswer(choice.value)
    ensures choice.Some? ==>
              && read >= 1 && rejected == read - 1
              && Accepted(replies[read - 1])
              && choice.value == Normalise(replies[read - 1])[0]
    ensures choice.None? ==> read == |replies| && rejected == read
    ensures forall j :: 0 <= j < rejected ==> !Accepted(replies[j])
  {
    read, rejected := 0, 0;
    while read < |replies|
      invariant rejected == read <= |replies|
      invariant forall j :: 0 <= j < rejected ==> !Accepted(replies[j])
    {
      var ans := Normalise(replies[read]);
      read := read + 1;
      if ans != [] && IsAnswer(ans[0]) {
        return Some(ans[0]), read, rejected;
      }
      rejected := rejected + 1;
    }
    choice := None;
  }

  const DEBUG: int := 10
  const INFO: int := 20
  const WARNING: int := 30

  /** The level `logging_init` configures. */
  function LogLevel(verbose: bool, logLevel: Option<int>): (level: int)
    ensures logLevel.Some? ==> level == logLevel.value
    ensures logLevel.None? ==> level == (if verbose then DEBUG else INFO)
  {
    match logLevel
    case Some(l) => l
    case None => if verbose then DEBUG else INFO
  }

  /** Whether the root logger, configured at `level`, emits a record of level `record`. */
  predicate Emits(level: int, record: int) {
    record >= level
  }

  /**
    What `logging_init` lets through: without an explicit level, debug
    records only when verbose and info records always; `verbose` never
    shows fewer records; and an explicit level decides alone, whatever
    `verbose` says.
  */
  lemma LogLevelThreshold(verbose: bool, logLevel: Option<int>, record: int)
    ensures logLevel.None? ==> (Emits(LogLevel(verbose, logLevel), DEBUG) <==> verbose)
    ensures logLevel.None? ==> Emits(LogLevel(verbose, logLevel), INFO) && Emits(LogLevel(verbose, logLevel), WARNING)
    ensures logLevel.None? && Emits(LogLevel(false, logLevel), record) ==> Emits(LogLevel(true, logLevel), record)
    ensures logLevel.Some? ==> (Emits(LogLevel(verbose, logLevel), record) <==> record >= logLevel.value)
    ensures logLevel.Some? ==> LogLevel(true, logLevel) == LogLevel(false, logLevel)
  {
  }
}
