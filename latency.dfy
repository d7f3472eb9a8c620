/** Choosing the server with the lowest HTTP "ping" (`find_best_server_by_ping`).
    The requests themselves are not modelled: for every server the caller
    supplies what each of its three attempts observed. */
module LatencyProbe {
  import opened Base
  import opened Time
  import opened Config
  import opened OrderedMap

  /** Requests per server. */
  const Attempts: nat := 3
  /** What an answer with a status other than 200 OK counts as, in ms. */
  const BadStatusPenalty: nat := 360_000
  /** What a failed request counts as, in ms. */
  const TransportErrorPenalty: nat := 3_600_000

  /** What one request observed: an answer, with whether its status was
      200 OK and the time from sending to the answer, or a transport error. */
  datatype PingOutcome = Answered(statusOk: bool, elapsed: Duration) | TransportError

  ghost predicate ValidOutcome(o: PingOutcome) {
    o.Answered? ==> o.elapsed.Valid()
  }

  /** The outcomes of one server's attempts, one per request. */
  ghost predicate ValidTrial(t: seq<PingOutcome>) {
    |t| == Attempts && forall k :: 0 <= k < |t| ==> ValidOutcome(t[k])
  }

  /** What one attempt adds to a server's total, in ms. */
  function AttemptCost(o: PingOutcome): (ms: nat)
    requires ValidOutcome(o)
    ensures o.TransportError? ==> ms == TransportErrorPenalty
    ensures o.Answered? && !o.statusOk ==> ms == BadStatusPenalty
    ensures o.Answered? && o.statusOk ==> ms == AsMillis(o.elapsed)
  {
    match o
    case Answered(ok, d) => if ok then AsMillis(d) else BadStatusPenalty
    case TransportError => TransportErrorPenalty
  }

  function Costs(t: seq<PingOutcome>): (cs: seq<nat>)
    requires forall k :: 0 <= k < |t| ==> ValidOutcome(t[k])
    ensures |cs| == |t|
    ensures forall k :: 0 <= k < |t| ==> cs[k] == AttemptCost(t[k])
  {
    seq(|t|, k requires 0 <= k < |t| => AttemptCost(t[k]))
  }

  /** A server's latency: the integer mean of its attempts' costs. */
  function Score(t: seq<PingOutcome>): nat
    requires ValidTrial(t)
  {
    Sum(Costs(t)) / Attempts
  }

  /** The (score, server) pairs inserted into the score map, in order. */
  function ScoreEntries(servers: seq<TestServer>, trials: seq<seq<PingOutcome>>): (e: seq<(nat, TestServer)>)
    requires |trials| == |servers|
    requires forall i :: 0 <= i < |trials| ==> ValidTrial(trials[i])
    ensures |e| == |servers|
    ensures forall i :: 0 <= i < |servers| ==> e[i] == (Score(trials[i]), servers[i])
  {
    seq(|servers|, i requires 0 <= i < |servers| => (Score(trials[i]), servers[i]))
  }

  /** `find_best_server_by_ping`: for each server add up the costs of its
      three attempts, file the server under the integer mean (a later server
      replaces an earlier one with the same mean), and return the first entry
      of the map: the lowest mean and the last server that has it. An empty
      server list makes the source panic, so it is excluded. */
  method FindBestServerByPing(testServers: seq<TestServer>, trials: seq<seq<PingOutcome>>)
    returns (best: TestServer, latency: nat)
    requires |testServers| > 0
    requires |trials| == |testServers|
    requires forall i :: 0 <= i < |trials| ==> ValidTrial(trials[i])
    ensures forall j :: 0 <= j < |testServers| ==> latency <= Score(trials[j])
    ensures exists i :: 0 <= i < |testServers| && testServers[i] == best && Score(trials[i]) == latency
                        && forall j :: i < j < |testServers| ==> Score(trials[j]) != latency
  {
    ghost var entries := ScoreEntries(testServers, trials);
    var serverResponses: Entries<TestServer> := [];
    for i := 0 to |testServers|
      invariant serverResponses == InsertAll(entries[..i])
    {
      var total := 0;
      for k := 0 to Attempts
        invariant total == Sum(Costs(trials[i])[..k])
      {
        // The cost of one attempt, written inline as the source does;
        // the invariant ties it to `Costs`.
        var o := trials[i][k];
        match o {
          case Answered(ok, d) =>
            if ok {
              total := total + AsMillis(d);
            } else {
              total := total + BadStatusPenalty;
            }
          case TransportError =>
            total := total + TransportErrorPenalty;
        }
        assert Costs(trials[i])[..k + 1][..k] == Costs(trials[i])[..k];
      }
      assert Costs(trials[i])[..Attempts] == Costs(trials[i]);
      var latencyAvg := total / Attempts;
      assert entries[..i + 1][..i] == entries[..i];
      serverResponses := Insert(serverResponses, latencyAvg, testServers[i]);
    }
    assert entries[..|testServers|] == entries;

    FirstIsLeast(entries, 0);
    latency, best := serverResponses[0].0, serverResponses[0].1;
    forall j | 0 <= j < |testServers| ensures latency <= Score(trials[j]) {
      FirstIsLeast(entries, j);
    }
    var idx := EntryOrigin(entries, 0);
  }

  lemma SumOfThree(cs: seq<nat>)
    requires |cs| == 3
    ensures Sum(cs) == cs[0] + cs[1] + cs[2]
  {
    assert cs[..2][..1] == cs[..1];
    assert cs[..1][..0] == [];
    assert Sum(cs[..1]) == cs[0];
    assert Sum(cs[..2]) == cs[0] + cs[1];
  }

  /** The score lies between the cheapest and the dearest attempt. */
  lemma ScoreBetweenCosts(t: seq<PingOutcome>, lo: nat, hi: nat)
    requires ValidTrial(t)
    requires forall k :: 0 <= k < |t| ==> lo <= AttemptCost(t[k]) <= hi
    ensures lo <= Score(t) <= hi
  {
    SumOfThree(Costs(t));
  }

  /** One failed request puts a server at a third of the transport penalty
      or more, so any server whose three answers all came back OK within
      that time is preferred to it. */
  lemma TransportErrorLoses(good: seq<PingOutcome>, bad: seq<PingOutcome>)
    requires ValidTrial(good) && ValidTrial(bad)
    requires forall k :: 0 <= k < |good| ==> good[k].Answered? && good[k].statusOk
                                              && good[k].elapsed.secs < TransportErrorPenalty / 3000
    requires exists k :: 0 <= k < |bad| && bad[k].TransportError?
    ensures Score(bad) >= TransportErrorPenalty / Attempts
    ensures Score(good) < Score(bad)
  {
    SumOfThree(Costs(good));
    SumOfThree(Costs(bad));
    forall k | 0 <= k < |good| ensures AttemptCost(good[k]) < TransportErrorPenalty / 3 {
      SecsAtLeastIffMillisAtLeast(good[k].elapsed, TransportErrorPenalty / 3000);
    }
  }

  /** Answers in 10, 20 and 30 ms score 20; three failed requests score the
      full transport penalty; three non-OK answers score the status penalty. */
  lemma ScoreExamples()
    ensures Score([Answered(true, Duration(0, 10_000_000)), Answered(true, Duration(0, 20_000_000)),
                   Answered(true, Duration(0, 30_000_000))]) == 20
    ensures Score([TransportError, TransportError, TransportError]) == TransportErrorPenalty
    ensures Score([Answered(false, Duration(0, 5)), Answered(false, Duration(1, 0)),
                   Answered(false, Duration(2, 0))]) == BadStatusPenalty
  {
    var t1 := [Answered(true, Duration(0, 10_000_000)), Answered(true, Duration(0, 20_000_000)),
               Answered(true, Duration(0, 30_000_000))];
    SumOfThree(Costs(t1));
    var t2 := [TransportError, TransportError, TransportError];
    SumOfThree(Costs(t2));
    var t3 := [Answered(false, Duration(0, 5)), Answered(false, Duration(1, 0)),
               Answered(false, Duration(2, 0))];
    SumOfThree(Costs(t3));
  }

  /** Of two servers with the same score, whatever their trials, the later
      one is chosen. */
  lemma EqualScoresKeepTheLater(a: TestServer, b: TestServer, ta: seq<PingOutcome>, tb: seq<PingOutcome>)
    requires ValidTrial(ta) && ValidTrial(tb) && Score(ta) == Score(tb)
    ensures InsertAll(ScoreEntries([a, b], [ta, tb])) == [(Score(tb), b)]
  {
    var e := ScoreEntries([a, b], [ta, tb]);
    assert e[..1][..0] == e[..0];
    assert e == [(Score(ta), a), (Score(ta), b)];
    assert e[..1] == [(Score(ta), a)];
    assert InsertAll(e[..1]) == [(Score(ta), a)];
    assert e[..|e| - 1] == e[..1];
  }
}
