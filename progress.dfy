/** Progress reporting: the reporter callbacks and the byte-counting reader
    decorator. */
module Progress {
  import opened Wrappers
  import opened Errors

  /** One call made on a `ProgressReporter`. */
  datatype ProgressCall =
    | Started(totalBytes: Option<nat>)
    | Progressed(bytesProcessed: nat)
    | Finished(message: string)

  /** A `ProgressReporter`, observed through the calls it has taken note of.
      `NoProgressReporter` is the silent reporter: its callbacks have no
      effect, so its log never grows. Any other reporter is modelled as one
      that records every call it receives. */
  class Reporter {
    const silent: bool
    var log: seq<ProgressCall>

    /** `NoProgressReporter::default()`. */
    constructor NoProgress()
      ensures silent && log == []
    {
      silent := true;
      log := [];
    }

    /** A reporter that keeps every call it receives. */
    constructor Recording()
      ensures !silent && log == []
    {
      silent := false;
      log := [];
    }

    /** What this reporter keeps of a sequence of calls. */
    function Kept(calls: seq<ProgressCall>): (r: seq<ProgressCall>)
      ensures silent ==> r == []
      ensures !silent ==> r == calls
    {
      if silent then [] else calls
    }

    /** `on_start`. */
    method OnStart(totalBytes: Option<nat>)
      modifies this
      ensures log == old(log) + Kept([Started(totalBytes)])
    {
      log := log + Kept([Started(totalBytes)]);
    }

    /** `on_progress`. */
    method OnProgress(bytesProcessed: nat)
      modifies this
      ensures log == old(log) + Kept([Progressed(bytesProcessed)])
    {
      log := log + Kept([Progressed(bytesProcessed)]);
    }

    /** `on_finish`. */
    method OnFinish(message: string)
      modifies this
      ensures log == old(log) + Kept([Finished(message)])
    {
      log := log + Kept([Finished(message)]);
    }
  }

  /** A reporter keeps calls one by one: what it keeps of two batches is what
      it keeps of each. */
  lemma KeptOfAppend(reporter: Reporter, first: seq<ProgressCall>, second: seq<ProgressCall>)
    ensures reporter.Kept(first + second) == reporter.Kept(first) + reporter.Kept(second)
  {
    if reporter.silent {
      assert reporter.Kept(first) + reporter.Kept(second) == [];
    }
  }

  /** The total of a sequence of read counts. */
  function Sum(counts: seq<nat>): nat {
    if counts == [] then 0 else Sum(counts[..|counts| - 1]) + counts[|counts| - 1]
  }

  /** The totals after each read: the values a reader reports, in order. */
  function RunningTotals(counts: seq<nat>): (r: seq<nat>)
    ensures |r| == |counts|
    ensures counts != [] ==> r[|r| - 1] == Sum(counts)
  {
    if counts == [] then [] else RunningTotals(counts[..|counts| - 1]) + [Sum(counts)]
  }

  /** The reporter calls that announce a sequence of totals. */
  function Progressions(totals: seq<nat>): (r: seq<ProgressCall>)
    ensures |r| == |totals|
    ensures forall i :: 0 <= i < |totals| ==> r[i] == Progressed(totals[i])
  {
    seq(|totals|, i requires 0 <= i < |totals| => Progressed(totals[i]))
  }

  /** One more read of `n` bytes adds `n` to the sum and announces the new
      sum after the earlier totals. */
  lemma SumOfAppend(counts: seq<nat>, n: nat)
    ensures Sum(counts + [n]) == Sum(counts) + n
    ensures RunningTotals(counts + [n]) == RunningTotals(counts) + [Sum(counts) + n]
    ensures Progressions(RunningTotals(counts + [n])) == Progressions(RunningTotals(counts)) + [Progressed(Sum(counts) + n)]
  {
    assert (counts + [n])[..|counts|] == counts;
    var t := RunningTotals(counts);
    assert Progressions(t + [Sum(counts) + n]) == Progressions(t) + [Progressed(Sum(counts) + n)];
  }

  /** Each running total is the sum of the counts up to and including that read. */
  lemma {:induction false} RunningTotalIsPrefixSum(counts: seq<nat>, i: nat)
    requires i < |counts|
    ensures RunningTotals(counts)[i] == Sum(counts[..i + 1])
  {
    if i < |counts| - 1 {
      var init := counts[..|counts| - 1];
      RunningTotalIsPrefixSum(init, i);
      assert init[..i + 1] == counts[..i + 1];
    } else {
      assert counts[..i + 1] == counts;
    }
  }

  /** Read counts are never negative, so the reported totals never decrease. */
  lemma {:induction false} RunningTotalsNonDecreasing(counts: seq<nat>, i: nat, j: nat)
    requires i <= j < |counts|
    ensures RunningTotals(counts)[i] <= RunningTotals(counts)[j]
  {
    if j < |counts| - 1 {
      RunningTotalsNonDecreasing(counts[..|counts| - 1], i, j);
    } else if i < j {
      var init := counts[..|counts| - 1];
      RunningTotalsNonDecreasing(init, i, |init| - 1);
    }
  }

  /** `std::io::SeekFrom`. */
  datatype SeekFrom = Start(offset: nat) | End(delta: int) | Current(delta: int)

  /** `ProgressReader`: wraps an inner reader and reports the running byte
      total after every successful read. The inner reader's results are
      given to each call; `counts` records the successful read counts and
      `reported` the totals passed to `on_progress`. */
  class ProgressReader {
    const reporter: Reporter
    var bytesRead: nat
    ghost var counts: seq<nat>
    ghost var reported: seq<nat>
    /** The reporter's log when the reader took it over. */
    ghost const before: seq<ProgressCall>

    ghost predicate Valid()
      reads this, reporter
    {
      && bytesRead == Sum(counts)
      && reported == RunningTotals(counts)
      && reporter.log == before + reporter.Kept(Progressions(reported))
    }

    /** `ProgressReader::new`. */
    constructor(reporter: Reporter)
      ensures Valid()
      ensures this.reporter == reporter && before == reporter.log
      ensures bytesRead == 0 && counts == [] && reported == []
    {
      this.reporter := reporter;
      bytesRead := 0;
      counts := [];
      reported := [];
      before := reporter.log;
      new;
      assert Progressions([]) == [];
    }

    /** `bytes_read`: the total of all successful reads so far. */
    function BytesRead(): (n: nat)
      reads this, reporter
      requires Valid()
      ensures n == Sum(counts)
      ensures counts != [] ==> n == reported[|reported| - 1]
    {
      bytesRead
    }

    /** `read`: `inner` is the outcome of the inner reader's `read`. A
        success adds its count to the total and reports the new total; a
        failure is passed on and changes nothing. */
    method Read(inner: Result<nat, IoError>) returns (r: Result<nat, IoError>)
      requires Valid()
      modifies this, reporter
      ensures Valid() && r == inner
      ensures inner.Success? ==>
        && bytesRead == old(bytesRead) + inner.value
        && counts == old(counts) + [inner.value]
        && reported == old(reported) + [bytesRead]
        && reporter.log == old(reporter.log) + reporter.Kept([Progressed(bytesRead)])
      ensures inner.Failure? ==>
        && bytesRead == old(bytesRead)
        && counts == old(counts)
        && reported == old(reported)
        && reporter.log == old(reporter.log)
    {
      if inner.Failure? {
        return inner;
      }
      var n := inner.value;
      SumOfAppend(counts, n);
      KeptOfAppend(reporter, Progressions(reported), [Progressed(bytesRead + n)]);
      bytesRead := bytesRead + n;
      counts := counts + [n];
      reported := reported + [bytesRead];
      reporter.OnProgress(bytesRead);
      r := Success(n);
    }

    /** `seek`: `inner` is the outcome of the inner reader's `seek`, which is
        returned as it is; the reader's own state is not modified. */
    method Seek(pos: SeekFrom, inner: Result<nat, IoError>) returns (r: Result<nat, IoError>)
      ensures r == inner
    {
      r := inner;
    }
  }

  /** A reader over a recording reporter that reads 3 bytes, meets an error,
      then reads 4 bytes: the reporter is told 3 then 7 and nothing about the
      error, and `bytes_read` is 7. */
  method ReadExample() returns (log: seq<ProgressCall>, total: nat)
    ensures log == [Progressed(3), Progressed(7)]
    ensures total == 7
  {
    var reporter := new Reporter.Recording();
    var reader := new ProgressReader(reporter);
    var first := reader.Read(Success(3));
    var failed := reader.Read(Failure(IoError("interrupted")));
    var second := reader.Read(Success(4));
    total := reader.BytesRead();
    log := reporter.log;
  }

  /** The reader's `bytes_read` is the last total it reported, and every
      reported total is at most the current one. */
  lemma ReportedTotalsBounded(reader: ProgressReader, i: nat)
    requires reader.Valid()
    requires i < |reader.reported|
    ensures reader.reported[i] <= reader.BytesRead()
  {
    RunningTotalsNonDecreasing(reader.counts, i, |reader.counts| - 1);
  }
}
