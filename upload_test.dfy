/** The upload measurement (`perform_upload_test`): which sizes are
    uploaded, how each worker drives its `UploadSource` through a chunked
    request body, and how the bytes sent are added up. */
module UploadTest {
  import opened Base
  import opened Time
  import opened Config
  import opened UploadData
  import opened Aggregate

  /** The sizes left after skipping the first `ratio - 1`. A ratio of 0
      makes the unsigned subtraction panic, so it is excluded. */
  function Remaining(sizes: seq<nat>, ratio: nat): (rem: seq<nat>)
    requires ratio >= 1
    ensures |rem| == |sizes| - Min(ratio - 1, |sizes|)
    ensures rem == sizes[|sizes| - |rem|..]
  {
    sizes[Min(ratio - 1, |sizes|)..]
  }

  /** How many times each remaining size is repeated. */
  function UploadCount(n: nat, maxChunkCount: nat): nat {
    if n == 0 then 1 else (maxChunkCount * 2) / n
  }

  /** The number of uploads: the repeated sizes, cut at `maxChunkCount`. */
  function PlanLength(n: nat, maxChunkCount: nat): nat {
    Min(maxChunkCount, n * UploadCount(n, maxChunkCount))
  }

  /** `c` copies of `x`. */
  function Copies(x: nat, c: nat): (r: seq<nat>)
    ensures |r| == c
    ensures forall j :: 0 <= j < c ==> r[j] == x
  {
    seq(c, _ => x)
  }

  /** Each size of `rem` `c` times in a row, in the order of `rem`. */
  function Repeated(rem: seq<nat>, c: nat): seq<nat> {
    if rem == [] then [] else Repeated(rem[..|rem| - 1], c) + Copies(rem[|rem| - 1], c)
  }

  /** The planned sizes: the repeated sizes, cut at `maxChunkCount`. */
  function PlannedSizes(rem: seq<nat>, maxChunkCount: nat): (ps: seq<nat>)
    ensures |ps| == PlanLength(|rem|, maxChunkCount)
  {
    var all := Repeated(rem, UploadCount(|rem|, maxChunkCount));
    RepeatedLength(rem, UploadCount(|rem|, maxChunkCount));
    all[..Min(maxChunkCount, |all|)]
  }

  lemma {:induction false} RepeatedLength(rem: seq<nat>, c: nat)
    ensures |Repeated(rem, c)| == |rem| * c
  {
    if rem != [] {
      RepeatedLength(rem[..|rem| - 1], c);
      assert (|rem| - 1) * c + c == |rem| * c;
    }
  }

  /** `c * a >= c * b + c` when `a > b`. */
  lemma {:induction false} MulGap(c: nat, a: nat, b: nat)
    requires a > b
    ensures c * a >= c * b + c
    decreases a - b
  {
    if a - 1 > b {
      MulGap(c, a - 1, b);
    }
    assert c * a == c * (a - 1) + c;
  }

  /** `(c * i + k) / c == i` for `k < c`. */
  lemma DivOfBlock(i: nat, k: nat, c: nat)
    requires k < c
    ensures (c * i + k) / c == i
  {
    var q := (c * i + k) / c;
    var r := (c * i + k) % c;
    if q > i {
      MulGap(c, q, i);
      assert false;
    } else if q < i {
      MulGap(c, i, q);
      assert false;
    }
  }

  /** Position `j` of the repeated sizes holds size number `j / c`. */
  lemma {:induction false} RepeatedIndex(rem: seq<nat>, c: nat, j: nat)
    requires j < |rem| * c
    ensures c > 0 && j / c < |rem|
    ensures |Repeated(rem, c)| == |rem| * c && Repeated(rem, c)[j] == rem[j / c]
  {
    RepeatedLength(rem, c);
    var init := rem[..|rem| - 1];
    RepeatedLength(init, c);
    assert |init| * c + c == |rem| * c;
    if j < |init| * c {
      RepeatedIndex(init, c, j);
    } else {
      DivOfBlock(|init|, j - |init| * c, c);
    }
  }

  /** Upload number `j` sends size number `j / count` of the remaining sizes,
      and there are `PlanLength` uploads. */
  lemma PlannedSizesIndex(rem: seq<nat>, maxChunkCount: nat, j: nat)
    ensures |PlannedSizes(rem, maxChunkCount)| == PlanLength(|rem|, maxChunkCount)
    ensures j < PlanLength(|rem|, maxChunkCount) ==>
              UploadCount(|rem|, maxChunkCount) > 0 && j / UploadCount(|rem|, maxChunkCount) < |rem|
              && PlannedSizes(rem, maxChunkCount)[j] == rem[j / UploadCount(|rem|, maxChunkCount)]
  {
    var c := UploadCount(|rem|, maxChunkCount);
    RepeatedLength(rem, c);
    if j < PlanLength(|rem|, maxChunkCount) {
      RepeatedIndex(rem, c, j);
    }
  }

  /** The size plan of `perform_upload_test`: skip `ratio - 1` sizes, push
      each remaining size `UploadCount` times, take `maxChunkCount`. */
  method UploadPlan(sizes: seq<nat>, ratio: nat, maxChunkCount: nat) returns (picked: seq<nat>)
    requires ratio >= 1
    ensures picked == PlannedSizes(Remaining(sizes, ratio), maxChunkCount)
  {
    var sizeMax := ratio - 1;
    var uploadSizes := sizes[Min(sizeMax, |sizes|)..];
    var uploadCount := if |uploadSizes| == 0 then 1 else (maxChunkCount * 2) / |uploadSizes|;
    var allSizes: seq<nat> := [];
    for i := 0 to |uploadSizes|
      invariant allSizes == Repeated(uploadSizes[..i], uploadCount)
    {
      for k := 0 to uploadCount
        invariant allSizes == Repeated(uploadSizes[..i], uploadCount) + Copies(uploadSizes[i], k)
      {
        assert Copies(uploadSizes[i], k) + [uploadSizes[i]] == Copies(uploadSizes[i], k + 1);
        allSizes := allSizes + [uploadSizes[i]];
      }
      assert uploadSizes[..i + 1][..i] == uploadSizes[..i];
    }
    assert uploadSizes[..|uploadSizes|] == uploadSizes;
    picked := allSizes[..Min(maxChunkCount, |allSizes|)];
  }

  /** With between one and `2 * maxChunkCount` sizes left, exactly
      `maxChunkCount` uploads are made; with more than that, the repeat
      count is 0 and nothing is uploaded; with none left, nothing either. */
  lemma PlanLengthCases(n: nat, maxChunkCount: nat)
    ensures 0 < n <= 2 * maxChunkCount ==> PlanLength(n, maxChunkCount) == maxChunkCount
    ensures n > 2 * maxChunkCount ==> PlanLength(n, maxChunkCount) == 0
    ensures n == 0 ==> PlanLength(n, maxChunkCount) == 0
  {
    var c := UploadCount(n, maxChunkCount);
    if 0 < n <= 2 * maxChunkCount {
      var r := (maxChunkCount * 2) % n;
      assert n * c + r == 2 * maxChunkCount;
      if n <= maxChunkCount {
        assert n * c > maxChunkCount;
      } else {
        assert c >= 1;
        assert n * c >= n;
      }
    } else if n > 2 * maxChunkCount {
      assert c == 0;
    }
  }

  /** The usual server configuration: eight sizes, ratio 5 and at most ten
      chunks give the last four sizes, five times each, cut at ten. */
  lemma PlanExample()
    ensures PlannedSizes(Remaining([1, 2, 3, 4, 5, 6, 7, 8], 5), 10) == [5, 5, 5, 5, 5, 6, 6, 6, 6, 6]
  {
    var rem := Remaining([1, 2, 3, 4, 5, 6, 7, 8], 5);
    assert rem == [5, 6, 7, 8];
    assert UploadCount(4, 10) == 5;
    assert PlanLength(4, 10) == 10;
    var expected := [5, 5, 5, 5, 5, 6, 6, 6, 6, 6];
    PlannedSizesIndex(rem, 10, 0);
    forall j | 0 <= j < 10 ensures PlannedSizes(rem, 10)[j] == expected[j] {
      PlannedSizesIndex(rem, 10, j);
      assert j / 5 == if j < 5 then 0 else 1;
    }
  }

  function MillisOf(times: seq<Duration>): (ms: seq<nat>)
    requires forall k :: 0 <= k < |times| ==> times[k].Valid()
    ensures |ms| == |times|
    ensures forall k :: 0 <= k < |times| ==> ms[k] == AsMillis(times[k])
  {
    seq(|times|, k requires 0 <= k < |times| => AsMillis(times[k]))
  }

  /** How a chunked upload of a `total`-byte body ends, when the body has
      sent `current` bytes so far and the request reads again at each of the
      elapsed times `ms`: it stops at the first read that emits nothing; a
      read with the counter already past the target panics on the unsigned
      subtraction `total - current`; reads running out (the request ended
      on its own) leave what was sent. */
  function StreamOutcome(current: nat, total: nat, timeoutSecs: nat, ms: seq<nat>): WorkerOutcome
    decreases |ms|
  {
    if ms == [] then Finished(current)
    else if current > total then Panicked
    else if Emitted(current, total, timeoutSecs, ms[0]) == 0 then Finished(current)
    else StreamOutcome(current + ChunkSize, total, timeoutSecs, ms[1..])
  }

  /** What one upload thread hands to the join: the body's outcome, unless
      the POST was answered and the progress dot's `print!`/`flush` that
      follows it panicked (`flushPanics`). */
  function ThreadOutcome(size: nat, testLength: nat, ms: seq<nat>, flushPanics: bool): WorkerOutcome {
    if flushPanics then Panicked else StreamOutcome(0, size, testLength, ms)
  }

  /** One upload thread: build the body for `size` bytes, let the request
      read it at the given times until a read gives 0, print the progress dot
      (which may panic, `flushPanics`), and report the body's counter. `now`
      is the clock at construction. */
  method UploadWorker(size: nat, testLength: nat, now: nat, readTimes: seq<Duration>, flushPanics: bool)
    returns (outcome: WorkerOutcome)
    requires forall k :: 0 <= k < |readTimes| ==> readTimes[k].Valid()
    ensures outcome == ThreadOutcome(size, testLength, MillisOf(readTimes), flushPanics)
  {
    ghost var ms := MillisOf(readTimes);
    var buffered := new UploadSource(size, testLength, now);
    var buf := new bv8[ChunkSize];
    var i := 0;
    while i < |readTimes|
      invariant 0 <= i <= |readTimes|
      invariant buffered.totalDataSize == size && buffered.timeoutInSec == testLength
      invariant StreamOutcome(0, size, testLength, ms) == StreamOutcome(buffered.currentSize, size, testLength, ms[i..])
    {
      if buffered.currentSize > buffered.totalDataSize {
        return Panicked;
      }
      var n := buffered.Read(buf, readTimes[i]);
      if n == 0 {
        break;
      }
      i := i + 1;
    }
    if flushPanics {
      return Panicked;
    }
    return Finished(buffered.currentSize);
  }

  /** A body whose size is a whole number of chunks never panics and never
      reports more than its size, in whole chunks. */
  lemma {:induction false} AlignedUploadFinishes(current: nat, total: nat, timeoutSecs: nat, ms: seq<nat>)
    requires current <= total
    requires total % ChunkSize == 0 && current % ChunkSize == 0
    ensures StreamOutcome(current, total, timeoutSecs, ms).Finished?
    ensures StreamOutcome(current, total, timeoutSecs, ms).bytes <= total
    ensures StreamOutcome(current, total, timeoutSecs, ms).bytes % ChunkSize == 0
    decreases |ms|
  {
    if ms != [] && Emitted(current, total, timeoutSecs, ms[0]) != 0 {
      AlignedUploadFinishes(current + ChunkSize, total, timeoutSecs, ms[1..]);
    }
  }

  /** Reads that all come within the time budget, one more than the chunks
      left, send the whole of an aligned body. */
  lemma {:induction false} AlignedWithinBudgetSendsAll(current: nat, total: nat, timeoutSecs: nat, ms: seq<nat>)
    requires current <= total
    requires total % ChunkSize == 0 && current % ChunkSize == 0
    requires |ms| > (total - current) / ChunkSize
    requires forall k :: 0 <= k < |ms| ==> ms[k] <= timeoutSecs * 1000
    ensures StreamOutcome(current, total, timeoutSecs, ms) == Finished(total)
    decreases |ms|
  {
    if current < total {
      AlignedWithinBudgetSendsAll(current + ChunkSize, total, timeoutSecs, ms[1..]);
    }
  }

  /** A first read past the time budget ends the upload with nothing sent. */
  lemma LateFirstReadSendsNothing(total: nat, timeoutSecs: nat, ms: seq<nat>)
    requires ms != [] && ms[0] > timeoutSecs * 1000
    ensures StreamOutcome(0, total, timeoutSecs, ms) == Finished(0)
  {
  }

  /** A body whose size is not a whole number of chunks overshoots, and the
      read after that panics, so that upload counts as nothing: 10000 bytes
      read three times within the budget. */
  lemma UnalignedUploadPanics()
    ensures StreamOutcome(0, 10000, 10, [0, 0, 0]) == Panicked
    ensures Contribution(StreamOutcome(0, 10000, 10, [0, 0, 0])) == 0
  {
    assert [0, 0, 0][1..] == [0, 0];
    assert [0, 0][1..] == [0];
  }

  /** A panic in the progress dot loses the whole of that thread's upload,
      however much its body had sent. */
  lemma FlushPanicCountsNothing(size: nat, testLength: nat, ms: seq<nat>)
    ensures Contribution(ThreadOutcome(size, testLength, ms, true)) == 0
    ensures ThreadOutcome(size, testLength, ms, false) == StreamOutcome(0, size, testLength, ms)
  {
  }

  function UploadOutcomes(picked: seq<nat>, testLength: nat, readTimes: seq<seq<Duration>>,
                          flushPanics: seq<bool>): (os: seq<WorkerOutcome>)
    requires |readTimes| == |picked| == |flushPanics|
    requires forall w :: 0 <= w < |readTimes| ==> forall k :: 0 <= k < |readTimes[w]| ==> readTimes[w][k].Valid()
    ensures |os| == |picked|
    ensures forall w :: 0 <= w < |picked| ==>
              os[w] == ThreadOutcome(picked[w], testLength, MillisOf(readTimes[w]), flushPanics[w])
  {
    seq(|picked|, w requires 0 <= w < |picked| =>
      ThreadOutcome(picked[w], testLength, MillisOf(readTimes[w]), flushPanics[w]))
  }

  /** `perform_upload_test` without the HTTP layer: plan the sizes, run one
      worker per planned size (worker `w` reads at the times `readTimes[w]`,
      from clock reading `now`, and its progress dot panics when
      `flushPanics[w]`), add up what they sent, and convert the total
      elapsed time to milliseconds. */
  method PerformUploadTest(conf: UploadConfig, sizes: seq<nat>, now: nat,
                           readTimes: seq<seq<Duration>>, flushPanics: seq<bool>, elapsed: Duration)
    returns (totalUploadBytes: nat, elapsedAsMillis: nat)
    requires conf.ratio >= 1
    requires elapsed.Valid()
    requires |readTimes| == |flushPanics| == PlanLength(|Remaining(sizes, conf.ratio)|, conf.maxchunkcount)
    requires forall w :: 0 <= w < |readTimes| ==> forall k :: 0 <= k < |readTimes[w]| ==> readTimes[w][k].Valid()
    ensures totalUploadBytes == Sum(Contributions(UploadOutcomes(
              PlannedSizes(Remaining(sizes, conf.ratio), conf.maxchunkcount), conf.testlength, readTimes, flushPanics)))
    ensures elapsedAsMillis == AsMillis(elapsed)
  {
    var pickedSizes := UploadPlan(sizes, conf.ratio, conf.maxchunkcount);
    ghost var expected := UploadOutcomes(pickedSizes, conf.testlength, readTimes, flushPanics);
    var outcomes: seq<WorkerOutcome> := [];
    for w := 0 to |pickedSizes|
      invariant |outcomes| == w
      invariant forall v :: 0 <= v < w ==> outcomes[v] == expected[v]
    {
      var o := UploadWorker(pickedSizes[w], conf.testlength, now, readTimes[w], flushPanics[w]);
      outcomes := outcomes + [o];
    }
    assert outcomes == expected;
    totalUploadBytes := JoinAll(outcomes);
    // The millisecond conversion is written inline as in the source; it is `AsMillis(elapsed)`.
    elapsedAsMillis := elapsed.secs * 1_000 + elapsed.subsecNanos / NanosPerMilli;
  }
}
