/**
 * The overlap search of the command (uvChecker/src/findUvOverlaps2.cpp:124-127
 * and 243-303): no shells is an error; a single shell is swept on its own;
 * with several shells, the edge sets chosen by the pairing are swept one
 * after another.
 */
module Command {
  import opened UvTypes
  import opened Pairing
  import opened Sweep

  /** The edge sets the command sweeps: the only shell's, or those the pairing chooses. */
  function SetsToSweep(shells: seq<Shell>): (r: seq<set<UvEdge>>)
    requires |shells| > 0
    ensures |shells| == 1 ==> r == [shells[0].edges]
    ensures forall k :: 0 <= k < |r| ==> r[k] <= AllEdges(shells)
  {
    if |shells| == 1 then
      ShellEdgesInAll(shells, 0);
      [shells[0].edges]
    else ShellsToCheck(shells)
  }

  /** `f` applied to every element of `xs`, in order. */
  ghost function Mapped<A, B>(f: A -> B, xs: seq<A>): (r: seq<B>)
    ensures |r| == |xs|
    decreases |xs|
  {
    if xs == [] then []
    else
      var n := |xs| - 1;
      Mapped(f, xs[..n]) + [f(xs[n])]
  }

  /** The k-th element of the mapped sequence is `f` of the k-th element. */
  lemma {:induction false} MappedAt<A, B>(f: A -> B, xs: seq<A>, k: nat)
    requires k < |xs|
    ensures Mapped(f, xs)[k] == f(xs[k])
    decreases |xs|
  {
    var n := |xs| - 1;
    if k < n {
      MappedAt(f, xs[..n], k);
      assert xs[..n][k] == xs[k];
    }
  }

  /** Mapping one more element appends its image. */
  lemma {:induction false} MappedAppend<A, B>(f: A -> B, xs: seq<A>, x: A)
    ensures Mapped(f, xs + [x]) == Mapped(f, xs) + [f(x)]
  {
    assert (xs + [x])[..|xs|] == xs;
  }

  /** Everything the given sweeps report. */
  ghost function Reported(outcomes: seq<(CheckResult, set<int>)>): set<int>
    decreases |outcomes|
  {
    if outcomes == [] then {}
    else
      var n := |outcomes| - 1;
      Reported(outcomes[..n]) + outcomes[n].1
  }

  /** One more sweep adds what it reports. */
  lemma {:induction false} ReportedAppend(outcomes: seq<(CheckResult, set<int>)>, x: (CheckResult, set<int>))
    ensures Reported(outcomes + [x]) == Reported(outcomes) + x.1
  {
    assert (outcomes + [x])[..|outcomes|] == outcomes;
  }

  /** How a sweep ends. */
  function Ended(outcome: (CheckResult, set<int>)): CheckResult {
    outcome.0
  }

  /** How the sweep of a set seeded in the edge order given ends, and what it reports. */
  ghost function Outcome(o: Oracles, fuel: nat): seq<UvEdge> -> (CheckResult, set<int>) {
    order => Run(o, Initial(o, order), [], fuel)
  }

  /**
   * What the sweeps add to the result when the k-th set is seeded in the
   * edge order `orders[k]`.
   */
  ghost function SweepsFound(o: Oracles, orders: seq<seq<UvEdge>>, fuel: nat): set<int> {
    Reported(Mapped(Outcome(o, fuel), orders))
  }

  /** How each sweep ends when the k-th set is seeded in the edge order `orders[k]`. */
  ghost function SweepResults(o: Oracles, orders: seq<seq<UvEdge>>, fuel: nat): seq<CheckResult> {
    Mapped(Ended, Mapped(Outcome(o, fuel), orders))
  }

  /** The k-th result is how the sweep of the k-th order ends. */
  lemma {:induction false} SweepResultsAt(o: Oracles, orders: seq<seq<UvEdge>>, fuel: nat, k: nat)
    requires k < |orders|
    ensures SweepResults(o, orders, fuel)[k] == Run(o, Initial(o, orders[k]), [], fuel).0
  {
    MappedAt(Outcome(o, fuel), orders, k);
    MappedAt(Ended, Mapped(Outcome(o, fuel), orders), k);
  }

  /** The first |orders| sets are each seeded in the matching order. */
  ghost predicate EnumeratesEach(orders: seq<seq<UvEdge>>, sets: seq<set<UvEdge>>)
    requires |orders| <= |sets|
    decreases |orders|
  {
    orders == [] ||
      var n := |orders| - 1;
      EnumeratesEach(orders[..n], sets) && Enumerates(orders[n], sets[n])
  }

  /** The k-th order enumerates the k-th set. */
  lemma {:induction false} EnumeratesEachAt(orders: seq<seq<UvEdge>>, sets: seq<set<UvEdge>>, k: nat)
    requires |orders| <= |sets| && k < |orders| && EnumeratesEach(orders, sets)
    ensures Enumerates(orders[k], sets[k])
    decreases |orders|
  {
    var n := |orders| - 1;
    if k < n {
      EnumeratesEachAt(orders[..n], sets, k);
    }
  }

  /**
   * Lines 300-305: sweep the chosen sets one after another. The k-th sweep
   * is of `sets[k]`, seeded in the edge order `orders[k]`; the result gains
   * exactly what the sweeps report, and only UV indices of pairs of edges
   * of `within` that the intersection test finds intersecting.
   */
  method SweepSets(finder: OverlapFinder, sets: seq<set<UvEdge>>, ghost within: set<UvEdge>, fuel: nat)
    returns (results: seq<CheckResult>, ghost orders: seq<seq<UvEdge>>)
    requires forall k :: 0 <= k < |sets| ==> sets[k] <= within
    modifies finder
    ensures |results| == |orders| == |sets|
    ensures EnumeratesEach(orders, sets)
    ensures results == SweepResults(finder.oracles, orders, fuel)
    ensures Failure !in results
    ensures finder.resultSet == old(finder.resultSet) + SweepsFound(finder.oracles, orders, fuel)
    ensures old(finder.resultSet) <= finder.resultSet <= old(finder.resultSet) + HitEndpoints(finder.oracles, within)
  {
    results := [];
    orders := [];
    ghost var outcomes: seq<(CheckResult, set<int>)> := [];
    ghost var outcome := Outcome(finder.oracles, fuel);
    var s := 0;
    while s < |sets|
      invariant s <= |sets| && |results| == s && |orders| == s
      invariant EnumeratesEach(orders, sets)
      invariant outcomes == Mapped(outcome, orders)
      invariant results == Mapped(Ended, outcomes)
      invariant Failure !in results
      invariant finder.resultSet == old(finder.resultSet) + Reported(outcomes)
      invariant old(finder.resultSet) <= finder.resultSet <= old(finder.resultSet) + HitEndpoints(finder.oracles, within)
    {
      var status;
      ghost var order;
      status, order := finder.Check(sets[s], fuel);
      HitEndpointsMonotone(finder.oracles, sets[s], within);
      ghost var swept := outcome(order);
      MappedAppend(outcome, orders, order);
      MappedAppend(Ended, outcomes, swept);
      ReportedAppend(outcomes, swept);
      assert (orders + [order])[..s] == orders;
      results := results + [status];
      orders := orders + [order];
      outcomes := outcomes + [swept];
      s := s + 1;
    }
  }

  /**
   * Lines 124-127 and 243-305: fail when there are no shells; otherwise
   * sweep, one after another, every set the command chooses. The k-th sweep
   * is of the k-th chosen set, seeded in the edge order `orders[k]`; the
   * result gains exactly what the sweeps report, and only UV indices of
   * pairs of shell edges that the intersection test finds intersecting.
   */
  method FindOverlaps(finder: OverlapFinder, shells: seq<Shell>, fuel: nat)
    returns (ok: bool, results: seq<CheckResult>, ghost orders: seq<seq<UvEdge>>)
    modifies finder
    ensures ok <==> |shells| > 0
    ensures !ok ==> results == [] && orders == []
    ensures ok ==> |results| == |orders| == |SetsToSweep(shells)|
    ensures ok ==> forall k :: 0 <= k < |orders| ==>
      && Enumerates(orders[k], SetsToSweep(shells)[k])
      && results[k] == Run(finder.oracles, Initial(finder.oracles, orders[k]), [], fuel).0
    ensures finder.resultSet == old(finder.resultSet) + SweepsFound(finder.oracles, orders, fuel)
    ensures forall k :: 0 <= k < |results| ==> results[k] != Failure
    ensures old(finder.resultSet) <= finder.resultSet <= old(finder.resultSet) + HitEndpoints(finder.oracles, AllEdges(shells))
  {
    if |shells| == 0 {
      return false, [], [];
    }
    var shellArray: seq<set<UvEdge>>;
    if |shells| == 1 {
      shellArray := [shells[0].edges];
    } else {
      shellArray := PairShells(shells);
    }
    assert shellArray == SetsToSweep(shells);
    results, orders := SweepSets(finder, shellArray, AllEdges(shells), fuel);
    ok := true;
    forall k | 0 <= k < |orders|
      ensures Enumerates(orders[k], SetsToSweep(shells)[k])
      ensures results[k] == Run(finder.oracles, Initial(finder.oracles, orders[k]), [], fuel).0
    {
      EnumeratesEachAt(orders, shellArray, k);
      SweepResultsAt(finder.oracles, orders, fuel, k);
    }
  }
}
