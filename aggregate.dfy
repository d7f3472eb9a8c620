/** Joining the measurement threads: each worker hands back the bytes it
    moved, a worker that panicked counts as zero (`unwrap_or(0)`), and the
    results are added up in the order the workers were spawned. */
module Aggregate {
  import opened Base

  /** What `JoinHandle::join` gives back for one worker. */
  datatype WorkerOutcome = Finished(bytes: nat) | Panicked

  /** What one worker adds to the total. */
  function Contribution(o: WorkerOutcome): (n: nat)
    ensures o.Panicked? ==> n == 0
    ensures o.Finished? ==> n == o.bytes
  {
    match o
    case Finished(b) => b
    case Panicked => 0
  }

  function Contributions(outcomes: seq<WorkerOutcome>): (ns: seq<nat>)
    ensures |ns| == |outcomes|
    ensures forall i :: 0 <= i < |outcomes| ==> ns[i] == Contribution(outcomes[i])
  {
    seq(|outcomes|, i requires 0 <= i < |outcomes| => Contribution(outcomes[i]))
  }

  /** The join loop of both measurements. */
  method JoinAll(outcomes: seq<WorkerOutcome>) returns (total: nat)
    ensures total == Sum(Contributions(outcomes))
  {
    total := 0;
    for i := 0 to |outcomes|
      invariant total == Sum(Contributions(outcomes)[..i])
    {
      total := total + Contribution(outcomes[i]);
      assert Contributions(outcomes)[..i + 1][..i] == Contributions(outcomes)[..i];
    }
    assert Contributions(outcomes)[..|outcomes|] == Contributions(outcomes);
  }

  lemma {:induction false} SumConcat(xs: seq<nat>, ys: seq<nat>)
    ensures Sum(xs + ys) == Sum(xs) + Sum(ys)
  {
    if ys != [] {
      assert (xs + ys)[..|xs + ys| - 1] == xs + ys[..|ys| - 1];
      SumConcat(xs, ys[..|ys| - 1]);
    } else {
      assert xs + ys == xs;
    }
  }

  /** Taking one element out of a sequence takes its value out of the sum. */
  lemma {:induction false} SumRemove(xs: seq<nat>, i: nat)
    requires i < |xs|
    ensures Sum(xs) == Sum(xs[..i] + xs[i + 1..]) + xs[i]
  {
    assert xs == xs[..i] + ([xs[i]] + xs[i + 1..]);
    SumConcat(xs[..i], [xs[i]] + xs[i + 1..]);
    SumConcat([xs[i]], xs[i + 1..]);
    SumConcat(xs[..i], xs[i + 1..]);
    assert [xs[i]][..0] == [];
  }

  /** The total does not depend on the order in which the workers are
      joined. */
  lemma {:induction false} TotalIsOrderIndependent(outcomes: seq<WorkerOutcome>, reordered: seq<WorkerOutcome>)
    requires multiset(outcomes) == multiset(reordered)
    ensures Sum(Contributions(outcomes)) == Sum(Contributions(reordered))
    decreases |outcomes|
  {
    if outcomes == [] {
      assert |multiset(reordered)| == 0;
    } else {
      var last := outcomes[|outcomes| - 1];
      var init := outcomes[..|outcomes| - 1];
      assert outcomes == init + [last];
      assert last in multiset(reordered);
      var i :| 0 <= i < |reordered| && reordered[i] == last;
      var rest := reordered[..i] + reordered[i + 1..];
      RemoveMatching(outcomes, reordered, i);
      TotalIsOrderIndependent(init, rest);
      SumRemove(Contributions(reordered), i);
      ContributionsWithout(reordered, i);
      ContributionsOfInit(outcomes);
    }
  }

  lemma ContributionsWithout(os: seq<WorkerOutcome>, i: nat)
    requires i < |os|
    ensures Contributions(os[..i] + os[i + 1..]) == Contributions(os)[..i] + Contributions(os)[i + 1..]
  {
  }

  lemma ContributionsOfInit(os: seq<WorkerOutcome>)
    requires os != []
    ensures Sum(Contributions(os)) == Sum(Contributions(os[..|os| - 1])) + Contribution(os[|os| - 1])
  {
    assert Contributions(os)[..|os| - 1] == Contributions(os[..|os| - 1]);
  }

  /** Removing the last element of one sequence and an equal element of
      another keeps their multisets equal. */
  lemma RemoveMatching<T>(xs: seq<T>, ys: seq<T>, i: nat)
    requires multiset(xs) == multiset(ys)
    requires xs != [] && i < |ys| && ys[i] == xs[|xs| - 1]
    ensures multiset(xs[..|xs| - 1]) == multiset(ys[..i] + ys[i + 1..])
  {
    var last := xs[|xs| - 1];
    assert xs == xs[..|xs| - 1] + [last];
    assert ys == ys[..i] + [last] + ys[i + 1..];
    assert multiset(ys) == multiset(ys[..i] + ys[i + 1..]) + multiset{last};
    assert multiset(xs[..|xs| - 1]) == multiset(xs) - multiset{last};
  }

  /** Every finished worker's bytes are part of the total, and a panicked
      worker changes nothing: the total is what it would be had that worker
      moved no bytes. */
  lemma PanickedCountsAsNothing(outcomes: seq<WorkerOutcome>, i: nat)
    requires i < |outcomes|
    ensures outcomes[i].Finished? ==> Sum(Contributions(outcomes)) >= outcomes[i].bytes
    ensures outcomes[i].Panicked? ==>
              Sum(Contributions(outcomes)) == Sum(Contributions(outcomes[i := Finished(0)]))
  {
    var ns := Contributions(outcomes);
    SumRemove(ns, i);
    SumRemove(Contributions(outcomes[i := Finished(0)]), i);
    assert Contributions(outcomes[i := Finished(0)]) == ns[i := 0];
    assert ns[i := 0][..i] + ns[i := 0][i + 1..] == ns[..i] + ns[i + 1..];
  }
}
