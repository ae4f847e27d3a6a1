/**
 * The plane sweep that looks for crossing UV edges
 * (uvChecker/src/findUvOverlaps2.cpp:349-536).
 *
 * Begin and end events of every edge are queued and sorted; the sweep
 * pops them one by one. A begin event inserts its edge into the status
 * queue, re-sorts it along the sweep line and tests the edge against its
 * neighbours; an end event tests the neighbours of the edge and removes
 * it; an intersect event tests the outer neighbours of the two crossing
 * edges. Every intersecting pair adds its four UV indices to `resultSet`
 * and, unless the two edges are parallel, queues an intersect event.
 *
 * The geometry is not part of this model: the intersection test
 * (`UvEdge::isIntersected`), the order of the status queue along the sweep
 * line (`setCrossingPointX` with `UvEdgeComparator`) and the order of events
 * (`Event::operator<`) are the parameters collected in `Oracles`.
 */
module Sweep {
  import opened UvTypes
  import opened Sorting

  /** The answer of the intersection test: whether the edges meet, whether they are parallel, and where. */
  datatype Hit = Hit(intersected: bool, isParallel: bool, u: real, v: real)

  /**
   * A sweep event: its tag, its position, its edge, the other edge of a
   * crossing and its sequence number (intersect events get none).
   */
  datatype Event = Event(status: string, u: real, v: real, edge: UvEdge, otherEdge: Option<UvEdge>, index: Option<nat>)

  datatype Oracles = Oracles(
    intersect: (UvEdge, UvEdge) -> Hit,
    statusLess: (real, UvEdge, UvEdge) -> bool,
    eventLess: (Event, Event) -> bool)

  datatype CheckResult = Success | Failure | OutOfFuel

  function BeginEvent(e: UvEdge, index: nat): Event {
    Event("begin", e.begin.u, e.begin.v, e, None, Some(index))
  }

  function EndEvent(e: UvEdge, index: nat): Event {
    Event("end", e.end.u, e.end.v, e, None, Some(index))
  }

  function CrossEvent(a: UvEdge, b: UvEdge, h: Hit): Event {
    Event("intersect", h.u, h.v, a, Some(b), None)
  }

  predicate KnownStatus(status: string) {
    status == "begin" || status == "end" || status == "intersect"
  }

  /** The order of the status queue once every edge's crossing with the sweep line at `v` is set. */
  function StatusOrder(o: Oracles, v: real): (UvEdge, UvEdge) -> bool {
    (a: UvEdge, b: UvEdge) => o.statusLess(v, a, b)
  }

  /** The UV indices an intersecting pair adds to the result. */
  function HitIds(a: UvEdge, b: UvEdge): set<int> {
    a.Endpoints() + b.Endpoints()
  }

  /** Everything the tests of `pairs` add to the result. */
  function Hits(o: Oracles, pairs: seq<(UvEdge, UvEdge)>): (r: set<int>)
    ensures forall k :: 0 <= k < |pairs| && o.intersect(pairs[k].0, pairs[k].1).intersected ==>
      HitIds(pairs[k].0, pairs[k].1) <= r
  {
    if pairs == [] then {}
    else
      (if o.intersect(pairs[0].0, pairs[0].1).intersected then HitIds(pairs[0].0, pairs[0].1) else {})
      + Hits(o, pairs[1..])
  }

  /** The intersect events the tests of `pairs` queue. */
  function CrossEvents(o: Oracles, pairs: seq<(UvEdge, UvEdge)>): (r: seq<Event>)
    ensures |r| <= |pairs|
    ensures forall k :: 0 <= k < |r| ==> r[k].status == "intersect" && r[k].otherEdge.Some?
  {
    if pairs == [] then []
    else
      var h := o.intersect(pairs[0].0, pairs[0].1);
      (if h.intersected && !h.isParallel then [CrossEvent(pairs[0].0, pairs[0].1, h)] else [])
      + CrossEvents(o, pairs[1..])
  }

  /**
   * The event queue after testing the pair `p`: an intersect event is added
   * and the queue re-sorted when the edges meet and are not parallel.
   */
  function Requeued(o: Oracles, eventQueue: seq<Event>, p: (UvEdge, UvEdge)): (r: seq<Event>)
    ensures |r| == |eventQueue| + |CrossEvents(o, [p])|
  {
    var h := o.intersect(p.0, p.1);
    if h.intersected && !h.isParallel then SortBy(eventQueue + [CrossEvent(p.0, p.1, h)], o.eventLess)
    else eventQueue
  }

  /** The event queue after testing `pairs` in order. */
  function AfterTests(o: Oracles, eventQueue: seq<Event>, pairs: seq<(UvEdge, UvEdge)>): (r: seq<Event>)
    ensures |r| == |eventQueue| + |CrossEvents(o, pairs)|
    decreases |pairs|
  {
    if pairs == [] then eventQueue
    else AfterTests(o, Requeued(o, eventQueue, pairs[0]), pairs[1..])
  }

  lemma {:induction false} AfterTestsQuiet(o: Oracles, eventQueue: seq<Event>, pairs: seq<(UvEdge, UvEdge)>)
    requires CrossEvents(o, pairs) == []
    ensures AfterTests(o, eventQueue, pairs) == eventQueue
    decreases |pairs|
  {
    if pairs != [] {
      AfterTestsQuiet(o, eventQueue, pairs[1..]);
    }
  }

  /**
   * Testing pairs adds exactly their intersect events to the event queue;
   * once any is added, the queue is left sorted.
   */
  lemma {:induction false} AfterTestsEvents(o: Oracles, eventQueue: seq<Event>, pairs: seq<(UvEdge, UvEdge)>)
    ensures multiset(AfterTests(o, eventQueue, pairs)) == multiset(eventQueue) + multiset(CrossEvents(o, pairs))
    ensures StrictWeakOrder(o.eventLess) && CrossEvents(o, pairs) != [] ==>
      SortedBy(AfterTests(o, eventQueue, pairs), o.eventLess)
    decreases |pairs|
  {
    if pairs != [] {
      var next := Requeued(o, eventQueue, pairs[0]);
      AfterTestsEvents(o, next, pairs[1..]);
      var h := o.intersect(pairs[0].0, pairs[0].1);
      if h.intersected && !h.isParallel {
        SortByPermutes(eventQueue + [CrossEvent(pairs[0].0, pairs[0].1, h)], o.eventLess);
      }
      if StrictWeakOrder(o.eventLess) && CrossEvents(o, pairs[1..]) == [] && h.intersected && !h.isParallel {
        AfterTestsQuiet(o, next, pairs[1..]);
        SortBySorted(eventQueue + [CrossEvent(pairs[0].0, pairs[0].1, h)], o.eventLess);
      }
    }
  }

  /** Testing two pairs one after the other adds what testing each adds. */
  lemma {:induction false} TwoTests(o: Oracles, eventQueue: seq<Event>, p: (UvEdge, UvEdge), q: (UvEdge, UvEdge))
    ensures Hits(o, [p, q]) == Hits(o, [p]) + Hits(o, [q])
    ensures AfterTests(o, eventQueue, [p, q]) == Requeued(o, Requeued(o, eventQueue, p), q)
  {
    assert [p, q][1..] == [q];
    var once := Requeued(o, eventQueue, p);
    assert AfterTests(o, eventQueue, [p, q]) == AfterTests(o, once, [q]);
    assert AfterTests(o, once, [q]) == AfterTests(o, Requeued(o, once, q), []);
  }

  /** Both edges of every pair are among `edges`. */
  predicate PairsWithin(pairs: seq<(UvEdge, UvEdge)>, edges: set<UvEdge>) {
    forall k :: 0 <= k < |pairs| ==> pairs[k].0 in edges && pairs[k].1 in edges
  }

  /** The UV indices of the endpoints of `edges`. */
  function EndpointsOf(edges: set<UvEdge>): set<int> {
    (set e | e in edges :: e.begin.index) + (set e | e in edges :: e.end.index)
  }

  /**
   * The UV indices a sweep of `edges` may report: the endpoints of the pairs
   * of those edges that the intersection test finds intersecting.
   */
  ghost function HitEndpoints(o: Oracles, edges: set<UvEdge>): set<int> {
    set a, b, x | a in edges && b in edges && o.intersect(a, b).intersected && x in HitIds(a, b) :: x
  }

  /** Only endpoints of the swept edges can be reported. */
  lemma {:induction false} HitEndpointsWithin(o: Oracles, edges: set<UvEdge>)
    ensures HitEndpoints(o, edges) <= EndpointsOf(edges)
  {
    forall x | x in HitEndpoints(o, edges) ensures x in EndpointsOf(edges) {
      var a, b :| a in edges && b in edges && o.intersect(a, b).intersected && x in HitIds(a, b);
    }
  }

  /** Sweeping more edges can report more, never less. */
  lemma {:induction false} HitEndpointsMonotone(o: Oracles, small: set<UvEdge>, large: set<UvEdge>)
    requires small <= large
    ensures HitEndpoints(o, small) <= HitEndpoints(o, large)
  {
    forall x | x in HitEndpoints(o, small) ensures x in HitEndpoints(o, large) {
      var a, b :| a in small && b in small && o.intersect(a, b).intersected && x in HitIds(a, b);
    }
  }

  /** Every queued event has a tag the sweep knows, and its edges are among `edges`. */
  predicate EventsWithin(events: seq<Event>, edges: set<UvEdge>) {
    forall k :: 0 <= k < |events| ==>
      KnownStatus(events[k].status) && events[k].edge in edges &&
      (events[k].otherEdge.Some? ==> events[k].otherEdge.value in edges)
  }

  /** Popping the first event of a queue of known events leaves known events. */
  lemma {:induction false} EventsWithinPop(events: seq<Event>, edges: set<UvEdge>)
    requires events != [] && EventsWithin(events, edges)
    ensures events[0].edge in edges && (events[0].otherEdge.Some? ==> events[0].otherEdge.value in edges)
    ensures EventsWithin(events[1..], edges)
  {
    forall k | 0 <= k < |events| - 1 ensures events[1..][k] == events[k + 1] {
    }
  }

  /**
   * Testing pairs of known edges reports only the endpoints of the pairs
   * the intersection test finds intersecting.
   */
  lemma {:induction false} HitsWithin(o: Oracles, pairs: seq<(UvEdge, UvEdge)>, edges: set<UvEdge>)
    requires PairsWithin(pairs, edges)
    ensures Hits(o, pairs) <= HitEndpoints(o, edges)
  {
    if pairs != [] {
      HitsWithin(o, pairs[1..], edges);
      var (a, b) := pairs[0];
      if o.intersect(a, b).intersected {
        forall x | x in HitIds(a, b) ensures x in HitEndpoints(o, edges) {
        }
      }
    }
  }

  /** Testing pairs of known edges queues only intersect events between known edges. */
  lemma {:induction false} CrossEventsWithin(o: Oracles, pairs: seq<(UvEdge, UvEdge)>, edges: set<UvEdge>)
    requires PairsWithin(pairs, edges)
    ensures EventsWithin(CrossEvents(o, pairs), edges)
  {
    if pairs != [] {
      CrossEventsWithin(o, pairs[1..], edges);
    }
  }

  /** A queue that gains events within `edges` stays within `edges`, whatever its order. */
  lemma {:induction false} EventsWithinMultiset(q: seq<Event>, q': seq<Event>, extra: seq<Event>, edges: set<UvEdge>)
    requires EventsWithin(q, edges) && EventsWithin(extra, edges)
    requires multiset(q') == multiset(q) + multiset(extra)
    ensures EventsWithin(q', edges)
  {
    forall k | 0 <= k < |q'|
      ensures KnownStatus(q'[k].status) && q'[k].edge in edges &&
        (q'[k].otherEdge.Some? ==> q'[k].otherEdge.value in edges)
    {
      assert q'[k] in multiset(q');
      if q'[k] in multiset(q) {
        var j :| 0 <= j < |q| && q[j] == q'[k];
      } else {
        assert q'[k] in multiset(extra);
        var j :| 0 <= j < |extra| && extra[j] == q'[k];
      }
    }
  }

  // ---------------------------------------------------------------------
  // std::find on the status queue
  // ---------------------------------------------------------------------

  /** The position of the first occurrence of `x` in `s`, if any. */
  function Find(s: seq<UvEdge>, x: UvEdge): (r: Option<nat>)
    ensures r.None? <==> x !in s
    ensures r.Some? ==> r.value < |s| && s[r.value] == x && forall j :: 0 <= j < r.value ==> s[j] != x
  {
    if s == [] then None
    else if s[0] == x then Some(0)
    else
      match Find(s[1..], x)
      case None => None
      case Some(i) =>
        assert forall j :: 1 <= j <= i ==> s[j] == s[1..][j - 1];
        Some(i + 1)
  }

  // ---------------------------------------------------------------------
  // Which neighbours each handler tests
  // ---------------------------------------------------------------------

  /** Lines 418-433: the positions doBegin tests the new edge at position i against. */
  function BeginNeighbours(size: nat, i: nat): (r: seq<nat>)
    requires 2 <= size && i < size
    ensures 1 <= |r| <= 2
    ensures forall k :: 0 <= k < |r| ==> r[k] < size && r[k] != i
  {
    if i == 0 then [i + 1]
    else if i == size - 1 then [i - 1]
    else [i + 1, i - 1]
  }

  /**
   * The new edge is tested against exactly its immediate neighbours in the
   * sorted status queue: the position before it and the position after it,
   * where they exist, each once.
   */
  lemma {:induction false} BeginNeighboursExact(size: nat, i: nat)
    requires 2 <= size && i < size
    ensures forall j: nat :: j in BeginNeighbours(size, i) <==> j < size && (j == i + 1 || j + 1 == i)
    ensures |BeginNeighbours(size, i)| == (if i == 0 || i == size - 1 then 1 else 2)
  {
  }

  function BeginPairs(sq: seq<UvEdge>, i: nat): (pairs: seq<(UvEdge, UvEdge)>)
    requires 2 <= |sq| && i < |sq|
    ensures |pairs| == |BeginNeighbours(|sq|, i)|
    ensures forall k :: 0 <= k < |pairs| ==> pairs[k] == (sq[i], sq[BeginNeighbours(|sq|, i)[k]])
  {
    var nb := BeginNeighbours(|sq|, i);
    seq(|nb|, k requires 0 <= k < |nb| => (sq[i], sq[nb[k]]))
  }

  /** The pairs doBegin tests, branch by branch. */
  lemma {:induction false} BeginPairsCases(sq: seq<UvEdge>, i: nat)
    requires 2 <= |sq| && i < |sq|
    ensures i == 0 ==> BeginPairs(sq, i) == [(sq[i], sq[i + 1])]
    ensures 0 < i == |sq| - 1 ==> BeginPairs(sq, i) == [(sq[i], sq[i - 1])]
    ensures 0 < i < |sq| - 1 ==> BeginPairs(sq, i) == [(sq[i], sq[i + 1]), (sq[i], sq[i - 1])]
  {
  }

  /**
   * Lines 449-470: the pair doEnd tests before it removes the edge at
   * position i: its two neighbours, when it has both and the queue holds
   * more than two edges.
   */
  function EndPairs(sq: seq<UvEdge>, i: nat): (pairs: seq<(UvEdge, UvEdge)>)
    requires i < |sq|
    ensures pairs != [] <==> 0 < i < |sq| - 1
    ensures pairs != [] ==> pairs == [(sq[i - 1], sq[i + 1])]
  {
    if |sq| <= 2 then []
    else if i == 0 then []
    else if i == |sq| - 1 then []
    else [(sq[i - 1], sq[i + 1])]
  }

  /**
   * Lines 500-519 as written: the positions doCross tests, given the
   * positions small <= big of the two crossing edges.
   */
  function CrossIndexPairsAsWritten(size: nat, small: nat, big: nat): (r: seq<(int, int)>)
    ensures 1 <= |r| <= 2
    ensures forall k :: 0 <= k < |r| ==> r[k].1 - r[k].0 == big - small + 1
  {
    if small == 0 then [(small, big + 1)]
    else if big == size - 1 then [(small - 1, big)]
    else [(small - 1, big), (small, big + 1)]
  }

  predicate IndicesBelow(ps: seq<(int, int)>, size: nat) {
    forall k :: 0 <= k < |ps| ==> 0 <= ps[k].0 < size && 0 <= ps[k].1 < size
  }

  /**
   * As written, doCross stays inside the status queue except when the two
   * crossing edges are its first and its last entry: then it reads the
   * position one past the end.
   */
  lemma {:induction false} CrossAsWrittenInBounds(size: nat, small: nat, big: nat)
    requires 2 < size && small <= big < size
    ensures IndicesBelow(CrossIndexPairsAsWritten(size, small, big), size) <==> !(small == 0 && big == size - 1)
  {
    if small == 0 && big == size - 1 {
      assert CrossIndexPairsAsWritten(size, small, big)[0].1 == size;
    }
  }

  /** Three edges, the crossing pair first and last: position 3 of a queue of three is read. */
  lemma {:induction false} CrossAsWrittenReadsPastEnd()
    ensures CrossIndexPairsAsWritten(3, 0, 2) == [(0, 3)]
    ensures !IndicesBelow(CrossIndexPairsAsWritten(3, 0, 2), 3)
  {
    assert CrossIndexPairsAsWritten(3, 0, 2)[0].1 == 3;
  }

  /**
   * The corrected choice: when the crossing edges are the first and the last
   * entry there is no outer neighbour on either side, so nothing is tested.
   */
  function CrossIndexPairs(size: nat, small: nat, big: nat): (ps: seq<(int, int)>)
    requires 2 < size && small <= big < size
    ensures IndicesBelow(ps, size)
  {
    if small == 0 && big == size - 1 then []
    else
      CrossAsWrittenInBounds(size, small, big);
      CrossIndexPairsAsWritten(size, small, big)
  }

  /** Wherever the code as written stays in bounds, the corrected choice tests the same positions. */
  lemma {:induction false} CrossIndexPairsAgree(size: nat, small: nat, big: nat)
    requires 2 < size && small <= big < size
    requires IndicesBelow(CrossIndexPairsAsWritten(size, small, big), size)
    ensures CrossIndexPairs(size, small, big) == CrossIndexPairsAsWritten(size, small, big)
  {
    CrossAsWrittenInBounds(size, small, big);
  }

  /** The entries of the status queue at the positions of every index pair. */
  function EdgesAt(sq: seq<UvEdge>, ps: seq<(int, int)>): (pairs: seq<(UvEdge, UvEdge)>)
    requires IndicesBelow(ps, |sq|)
    ensures |pairs| == |ps|
  {
    seq(|ps|, k requires 0 <= k < |ps| => (sq[ps[k].0], sq[ps[k].1]))
  }

  /** Lines 479-519: the pairs doCross tests for the crossing of `ev.edge` and `ev.otherEdge`. */
  function CrossPairs(sq: seq<UvEdge>, ev: Event): (pairs: seq<(UvEdge, UvEdge)>)
    ensures |pairs| <= 2
    ensures |sq| <= 2 || ev.otherEdge.None? || ev.edge !in sq || ev.otherEdge.value !in sq ==> pairs == []
  {
    if |sq| <= 2 || ev.otherEdge.None? then []
    else
      match (Find(sq, ev.edge), Find(sq, ev.otherEdge.value))
      case (Some(thisIndex), Some(otherIndex)) =>
        var small := if thisIndex > otherIndex then otherIndex else thisIndex;
        var big := if thisIndex > otherIndex then thisIndex else otherIndex;
        EdgesAt(sq, CrossIndexPairs(|sq|, small, big))
      case _ => []
  }

  /** The pairs doCross tests, branch by branch. */
  lemma {:induction false} CrossPairsCases(sq: seq<UvEdge>, small: nat, big: nat)
    requires 2 < |sq| && small <= big < |sq|
    ensures small == 0 && big == |sq| - 1 ==> EdgesAt(sq, CrossIndexPairs(|sq|, small, big)) == []
    ensures small == 0 && big < |sq| - 1 ==> EdgesAt(sq, CrossIndexPairs(|sq|, small, big)) == [(sq[small], sq[big + 1])]
    ensures 0 < small && big == |sq| - 1 ==> EdgesAt(sq, CrossIndexPairs(|sq|, small, big)) == [(sq[small - 1], sq[big])]
    ensures 0 < small && big < |sq| - 1 ==>
      EdgesAt(sq, CrossIndexPairs(|sq|, small, big)) == [(sq[small - 1], sq[big]), (sq[small], sq[big + 1])]
  {
  }

  /** The edges doCross tests are edges of the status queue, and at most two pairs. */
  lemma {:induction false} CrossPairsWithin(sq: seq<UvEdge>, ev: Event, edges: set<UvEdge>)
    requires forall k :: 0 <= k < |sq| ==> sq[k] in edges
    ensures PairsWithin(CrossPairs(sq, ev), edges)
    ensures |CrossPairs(sq, ev)| <= 2
  {
  }

  predicate EdgesWithin(sq: seq<UvEdge>, edges: set<UvEdge>) {
    forall k :: 0 <= k < |sq| ==> sq[k] in edges
  }

  /** doBegin tests entries of its status queue. */
  lemma {:induction false} BeginPairsWithin(sq: seq<UvEdge>, i: nat, edges: set<UvEdge>)
    requires 2 <= |sq| && i < |sq| && EdgesWithin(sq, edges)
    ensures PairsWithin(BeginPairs(sq, i), edges)
  {
    BeginPairsCases(sq, i);
  }

  /** Removing an edge keeps the status queue within `edges`, and its neighbours are known edges. */
  lemma {:induction false} EndPairsWithin(sq: seq<UvEdge>, i: nat, edges: set<UvEdge>)
    requires i < |sq| && EdgesWithin(sq, edges)
    ensures EdgesWithin(sq[..i] + sq[i + 1..], edges)
    ensures PairsWithin(EndPairs(sq, i), edges)
  {
    var rest := sq[..i] + sq[i + 1..];
    forall k | 0 <= k < |rest| ensures rest[k] in edges {
      if k < i {
        assert rest[k] == sq[k];
      } else {
        assert rest[k] == sq[k + 1];
      }
    }
  }

  /**
   * Testing pairs of known edges reports only the endpoints of intersecting
   * pairs of them and queues only intersect events between known edges.
   */
  lemma {:induction false} TestsWithin(o: Oracles, eventQueue: seq<Event>, pairs: seq<(UvEdge, UvEdge)>, edges: set<UvEdge>)
    requires PairsWithin(pairs, edges) && EventsWithin(eventQueue, edges)
    ensures Hits(o, pairs) <= HitEndpoints(o, edges)
    ensures EventsWithin(AfterTests(o, eventQueue, pairs), edges)
  {
    HitsWithin(o, pairs, edges);
    CrossEventsWithin(o, pairs, edges);
    AfterTestsEvents(o, eventQueue, pairs);
    EventsWithinMultiset(eventQueue, AfterTests(o, eventQueue, pairs), CrossEvents(o, pairs), edges);
  }

  /** A status queue that gains a known edge, in any order, holds only known edges. */
  lemma {:induction false} EdgesWithinMultiset(sq: seq<UvEdge>, sq': seq<UvEdge>, e: UvEdge, edges: set<UvEdge>)
    requires EdgesWithin(sq, edges) && e in edges
    requires multiset(sq') == multiset(sq) + multiset{e}
    ensures EdgesWithin(sq', edges)
  {
    forall k | 0 <= k < |sq'| ensures sq'[k] in edges {
      assert sq'[k] in multiset(sq');
      if sq'[k] != e {
        assert sq'[k] in multiset(sq);
        var j :| 0 <= j < |sq| && sq[j] == sq'[k];
      }
    }
  }

  // ---------------------------------------------------------------------
  // Seeding the event queue
  // ---------------------------------------------------------------------

  /**
   * Lines 353-362: the begin and the end event of every edge of `order`,
   * numbered 0, 1, 2, ... in that order.
   */
  function Seeded(order: seq<UvEdge>): seq<Event>
    decreases |order|
  {
    if order == [] then []
    else
      var n := |order| - 1;
      Seeded(order[..n]) + [BeginEvent(order[n], 2 * n), EndEvent(order[n], 2 * n + 1)]
  }

  /** Each edge gives a begin event numbered 2k, then an end event numbered 2k+1. */
  lemma {:induction false} SeededEvents(order: seq<UvEdge>)
    ensures |Seeded(order)| == 2 * |order|
    ensures forall k :: 0 <= k < |order| ==>
      Seeded(order)[2 * k] == BeginEvent(order[k], 2 * k) && Seeded(order)[2 * k + 1] == EndEvent(order[k], 2 * k + 1)
    decreases |order|
  {
    if order != [] {
      var n := |order| - 1;
      SeededEvents(order[..n]);
      forall k | 0 <= k < n
        ensures Seeded(order)[2 * k] == BeginEvent(order[k], 2 * k)
        ensures Seeded(order)[2 * k + 1] == EndEvent(order[k], 2 * k + 1)
      {
        assert order[..n][k] == order[k];
      }
    }
  }

  /** `order` visits every edge of `edges` exactly once, as iterating the `std::set` does. */
  ghost predicate Enumerates(order: seq<UvEdge>, edges: set<UvEdge>)
    decreases |order|
  {
    if order == [] then edges == {}
    else
      var n := |order| - 1;
      order[n] in edges && Enumerates(order[..n], edges - {order[n]})
  }

  /** An order enumerates a set exactly when it holds each of its edges once. */
  lemma {:induction false} EnumeratesCounts(order: seq<UvEdge>, edges: set<UvEdge>)
    ensures Enumerates(order, edges) <==> multiset(order) == multiset(edges)
    decreases |order|
  {
    if order != [] {
      var n := |order| - 1;
      var last := order[n];
      EnumeratesCounts(order[..n], edges - {last});
      assert order == order[..n] + [last];
      assert multiset(order) == multiset(order[..n]) + multiset{last};
      if last in edges {
        assert edges == (edges - {last}) + {last};
        assert multiset(edges) == multiset(edges - {last}) + multiset{last};
        if multiset(order) == multiset(edges) {
          assert multiset(order[..n]) == multiset(order) - multiset{last} == multiset(edges - {last});
        }
      } else {
        assert last in multiset(order);
      }
    } else {
      if edges != {} {
        var e :| e in edges;
        assert e in multiset(edges);
      }
    }
  }

  /** An enumeration holds exactly the edges of the set, as many as there are. */
  lemma {:induction false} EnumeratesMembers(order: seq<UvEdge>, edges: set<UvEdge>)
    requires Enumerates(order, edges)
    ensures forall e :: e in order <==> e in edges
    ensures |order| == |edges|
  {
    EnumeratesCounts(order, edges);
    assert |multiset(order)| == |multiset(edges)|;
    forall e ensures e in order <==> e in edges {
      assert e in order <==> e in multiset(order);
    }
  }

  /** Seeding one more edge appends its begin and its end event. */
  lemma {:induction false} SeededAppend(order: seq<UvEdge>, edge: UvEdge)
    ensures Seeded(order + [edge]) == Seeded(order) + [BeginEvent(edge, 2 * |order|), EndEvent(edge, 2 * |order| + 1)]
  {
    assert (order + [edge])[..|order|] == order;
  }

  /** Visiting one more unvisited edge extends the enumeration of the visited ones. */
  lemma {:induction false} TakeEdge(order: seq<UvEdge>, rest: set<UvEdge>, edges: set<UvEdge>, edge: UvEdge)
    requires edge in rest && rest <= edges && Enumerates(order, edges - rest)
    ensures Enumerates(order + [edge], edges - (rest - {edge}))
  {
    assert (order + [edge])[..|order|] == order;
    assert (edges - (rest - {edge})) - {edge} == edges - rest;
  }

  /**
   * Lines 353-362: seed the event queue, visiting the edges in some order.
   * `order` is that order (the order of the `std::set`, which this model
   * does not fix).
   */
  method SeedEvents(edges: set<UvEdge>) returns (eventQueue: seq<Event>, ghost order: seq<UvEdge>)
    ensures Enumerates(order, edges)
    ensures eventQueue == Seeded(order)
  {
    eventQueue := [];
    order := [];
    var rest := edges;
    var eventIndex := 0;
    while rest != {}
      invariant rest <= edges && Enumerates(order, edges - rest)
      invariant eventIndex == 2 * |order|
      invariant eventQueue == Seeded(order)
    {
      var edge :| edge in rest;
      TakeEdge(order, rest, edges, edge);
      SeededAppend(order, edge);
      eventQueue := eventQueue + [BeginEvent(edge, eventIndex)];
      eventIndex := eventIndex + 1;
      eventQueue := eventQueue + [EndEvent(edge, eventIndex)];
      eventIndex := eventIndex + 1;
      order := order + [edge];
      rest := rest - {edge};
    }
    assert edges - rest == edges;
  }

  /** Line 363: the seeded event queue, sorted by the event order. */
  function Initial(o: Oracles, order: seq<UvEdge>): seq<Event> {
    SortBy(Seeded(order), o.eventLess)
  }

  /** The seeded events are begin and end events of the swept edges. */
  lemma {:induction false} SeededWithin(order: seq<UvEdge>, edges: set<UvEdge>)
    requires forall e :: e in order ==> e in edges
    ensures EventsWithin(Seeded(order), edges)
  {
    SeededEvents(order);
    var seeded := Seeded(order);
    forall m | 0 <= m < |seeded|
      ensures KnownStatus(seeded[m].status) && seeded[m].edge in edges && seeded[m].otherEdge.None?
    {
      var k := m / 2;
      assert order[k] in order;
      if m % 2 == 0 {
        assert seeded[m] == BeginEvent(order[k], 2 * k);
      } else {
        assert seeded[m] == EndEvent(order[k], 2 * k + 1);
      }
    }
  }

  /** The initial events are begin and end events of the swept edges. */
  lemma {:induction false} InitialWithin(o: Oracles, order: seq<UvEdge>, edges: set<UvEdge>)
    requires forall e :: e in order ==> e in edges
    ensures EventsWithin(Initial(o, order), edges)
  {
    SeededWithin(order, edges);
    SortByPermutes(Seeded(order), o.eventLess);
    EventsWithinMultiset(Seeded(order), Initial(o, order), [], edges);
  }

  // ---------------------------------------------------------------------
  // The sweep loop as a function of its state
  // ---------------------------------------------------------------------

  /**
   * Lines 391-436: the status queue after doBegin and the pairs it tests.
   * An edge that lands in an empty queue tests nothing; otherwise the queue
   * is sorted along the sweep line at the event and the edge meets its
   * immediate neighbours.
   */
  function BeginStep(o: Oracles, ev: Event, sq: seq<UvEdge>): (r: (seq<UvEdge>, seq<(UvEdge, UvEdge)>))
    ensures r.1 == [] <==> sq == []
  {
    if sq == [] then ([ev.edge], [])
    else
      var sorted := SortBy(sq + [ev.edge], StatusOrder(o, ev.v));
      SortByPermutes(sq + [ev.edge], StatusOrder(o, ev.v));
      assert ev.edge in multiset(sorted);
      var i := Find(sorted, ev.edge).value;
      (sorted, BeginPairs(sorted, i))
  }

  /** doBegin adds the event's edge to the status queue and keeps every edge already there. */
  lemma {:induction false} BeginStepKeeps(o: Oracles, ev: Event, sq: seq<UvEdge>)
    ensures multiset(BeginStep(o, ev, sq).0) == multiset(sq) + multiset{ev.edge}
  {
    if sq != [] {
      SortByPermutes(sq + [ev.edge], StatusOrder(o, ev.v));
    }
  }

  /**
   * Lines 438-475: the status queue after doEnd and the pair it tests. An
   * absent edge changes nothing; otherwise its first occurrence is removed,
   * and the two entries it separated are tested when it lay strictly inside
   * a queue of more than two edges.
   */
  function EndStep(sq: seq<UvEdge>, e: UvEdge): (r: (seq<UvEdge>, seq<(UvEdge, UvEdge)>))
    ensures e !in sq ==> r == (sq, [])
    ensures |r.1| <= 1
  {
    match Find(sq, e)
    case None => (sq, [])
    case Some(i) => (sq[..i] + sq[i + 1..], EndPairs(sq, i))
  }

  /** doEnd removes one occurrence of a present edge and keeps every other edge. */
  lemma {:induction false} EndStepKeeps(sq: seq<UvEdge>, e: UvEdge)
    ensures e in sq ==> multiset(EndStep(sq, e).0) + multiset{e} == multiset(sq)
  {
    if e in sq {
      var i := Find(sq, e).value;
      assert sq == sq[..i] + [e] + sq[i + 1..];
    }
  }

  /**
   * Lines 375-385: the new status queue and the pairs tested when one event
   * is handled; `known` is false for a tag the sweep does not know.
   */
  function Handle(o: Oracles, ev: Event, sq: seq<UvEdge>): (bool, seq<UvEdge>, seq<(UvEdge, UvEdge)>) {
    if ev.status == "begin" then (true, BeginStep(o, ev, sq).0, BeginStep(o, ev, sq).1)
    else if ev.status == "end" then (true, EndStep(sq, ev.edge).0, EndStep(sq, ev.edge).1)
    else if ev.status == "intersect" then (true, sq, CrossPairs(sq, ev))
    else (false, sq, [])
  }

  /** What handling one event gives: whether its tag is known, the new status queue and the tested pairs. */
  type Handler = (Event, seq<UvEdge>) -> (bool, seq<UvEdge>, seq<(UvEdge, UvEdge)>)

  /** The sweep's own handler, `Handle` with the oracles `o`. */
  function HandlerOf(o: Oracles): Handler {
    (ev, sq) => Handle(o, ev, sq)
  }

  /**
   * Lines 363-388: how the sweep loop ends from the event queue `q` and the
   * status queue `sq` when it may handle at most `fuel` events, each with
   * `handle`, and the UV indices it adds to the result on the way.
   */
  function RunWith(o: Oracles, handle: Handler, q: seq<Event>, sq: seq<UvEdge>, fuel: nat): (CheckResult, set<int>)
    decreases fuel
  {
    if q == [] then (Success, {})
    else if fuel == 0 then (OutOfFuel, {})
    else
      var (known, sq', pairs) := handle(q[0], sq);
      if !known then (Failure, {})
      else
        var rest := RunWith(o, handle, AfterTests(o, q[1..], pairs), sq', fuel - 1);
        (rest.0, Hits(o, pairs) + rest.1)
  }

  /** The sweep loop of the command, handling every event with `Handle`. */
  function Run(o: Oracles, q: seq<Event>, sq: seq<UvEdge>, fuel: nat): (CheckResult, set<int>) {
    RunWith(o, HandlerOf(o), q, sq, fuel)
  }

  /** Testing no pair adds nothing and queues nothing. */
  lemma {:induction false} NoTests(o: Oracles, q: seq<Event>)
    ensures Hits(o, []) == {} && AfterTests(o, q, []) == q
  {
  }

  /**
   * One step of the sweep loop: the first event is handled, giving `known`,
   * the new status queue `sq'` and the tested `pairs`, then the loop goes on
   * with what is left.
   */
  lemma {:induction false} RunStep(o: Oracles, handle: Handler, q: seq<Event>, sq: seq<UvEdge>, fuel: nat, fuel': nat,
                known: bool, sq': seq<UvEdge>, pairs: seq<(UvEdge, UvEdge)>)
    requires q != [] && fuel == fuel' + 1
    requires handle(q[0], sq) == (known, sq', pairs)
    ensures RunWith(o, handle, q, sq, fuel) ==
      if known then (RunWith(o, handle, AfterTests(o, q[1..], pairs), sq', fuel').0,
                     Hits(o, pairs) + RunWith(o, handle, AfterTests(o, q[1..], pairs), sq', fuel').1)
      else (Failure, {})
  {
    assert fuel - 1 == fuel';
    if known {
      var rest := RunWith(o, handle, AfterTests(o, q[1..], pairs), sq', fuel');
      assert RunWith(o, handle, q, sq, fuel) == (rest.0, Hits(o, pairs) + rest.1);
    }
  }

  /** Handling an event of known edges keeps the status queue within them and tests only pairs of them. */
  lemma {:induction false} HandleWithin(o: Oracles, ev: Event, sq: seq<UvEdge>, edges: set<UvEdge>)
    requires ev.edge in edges && (ev.otherEdge.Some? ==> ev.otherEdge.value in edges)
    requires EdgesWithin(sq, edges)
    ensures EdgesWithin(Handle(o, ev, sq).1, edges) && PairsWithin(Handle(o, ev, sq).2, edges)
  {
    if ev.status == "begin" {
      if sq != [] {
        var sorted := SortBy(sq + [ev.edge], StatusOrder(o, ev.v));
        SortByPermutes(sq + [ev.edge], StatusOrder(o, ev.v));
        EdgesWithinMultiset(sq, sorted, ev.edge, edges);
        assert ev.edge in multiset(sorted);
        BeginPairsWithin(sorted, Find(sorted, ev.edge).value, edges);
      }
    } else if ev.status == "end" {
      if ev.edge in sq {
        EndPairsWithin(sq, Find(sq, ev.edge).value, edges);
      }
    } else if ev.status == "intersect" {
      CrossPairsWithin(sq, ev, edges);
    }
  }

  /**
   * One handled event of a known tag moves the sweep to the rest of the run:
   * the outcome is unchanged, and what the step adds to the result is no
   * longer left to report.
   */
  lemma {:induction false} Advance(o: Oracles, handle: Handler, q: seq<Event>, sq: seq<UvEdge>, fuel: nat, fuel': nat, sq': seq<UvEdge>,
                pairs: seq<(UvEdge, UvEdge)>, found: set<int>, found': set<int>, total: (CheckResult, set<int>))
    requires q != [] && fuel == fuel' + 1 && handle(q[0], sq) == (true, sq', pairs)
    requires RunWith(o, handle, q, sq, fuel).0 == total.0 && found + RunWith(o, handle, q, sq, fuel).1 == total.1
    requires found' == found + Hits(o, pairs)
    ensures RunWith(o, handle, AfterTests(o, q[1..], pairs), sq', fuel').0 == total.0
    ensures found' + RunWith(o, handle, AfterTests(o, q[1..], pairs), sq', fuel').1 == total.1
  {
    RunStep(o, handle, q, sq, fuel, fuel', true, sq', pairs);
  }

  /**
   * Handling the next event of a sweep over known edges: its tag is known,
   * and what is left stays within the edges, while the tests report only
   * endpoints of intersecting pairs of them.
   */
  lemma {:induction false} WithinStep(o: Oracles, q: seq<Event>, sq: seq<UvEdge>, edges: set<UvEdge>)
    returns (sq': seq<UvEdge>, pairs: seq<(UvEdge, UvEdge)>)
    requires q != [] && EventsWithin(q, edges) && EdgesWithin(sq, edges)
    ensures Handle(o, q[0], sq) == (true, sq', pairs)
    ensures EdgesWithin(sq', edges) && EventsWithin(AfterTests(o, q[1..], pairs), edges)
    ensures Hits(o, pairs) <= HitEndpoints(o, edges)
  {
    EventsWithinPop(q, edges);
    assert KnownStatus(q[0].status);
    HandleWithin(o, q[0], sq, edges);
    sq', pairs := Handle(o, q[0], sq).1, Handle(o, q[0], sq).2;
    TestsWithin(o, q[1..], pairs, edges);
  }

  /** A step that tests no pair adds nothing to what the rest of the sweep reports. */
  lemma {:induction false} QuietStep(o: Oracles, handle: Handler, q: seq<Event>, sq: seq<UvEdge>, fuel: nat, fuel': nat, sq': seq<UvEdge>)
    requires q != [] && fuel == fuel' + 1
    requires handle(q[0], sq) == (true, sq', [])
    ensures RunWith(o, handle, q, sq, fuel).1 == RunWith(o, handle, q[1..], sq', fuel').1
  {
    NoTests(o, q[1..]);
    RunStep(o, handle, q, sq, fuel, fuel', true, sq', []);
  }

  /** A sequence of two elements holding x and y is [x, y] or [y, x]. */
  lemma {:induction false} TwoElements<T>(q: seq<T>, x: T, y: T)
    requires |q| == 2 && multiset(q) == multiset{x, y}
    ensures q == [x, y] || q == [y, x]
  {
    assert q == [q[0]] + [q[1]];
    assert multiset(q) == multiset{q[0]} + multiset{q[1]};
    assert q[0] in multiset(q);
  }

  /** The sorted events of a lone edge are its begin and end event, in one order or the other. */
  lemma {:induction false} LoneQueue(o: Oracles, e: UvEdge)
    ensures Initial(o, [e]) == [BeginEvent(e, 0), EndEvent(e, 1)] || Initial(o, [e]) == [EndEvent(e, 1), BeginEvent(e, 0)]
  {
    assert [e][..0] == [];
    assert Seeded([e]) == [BeginEvent(e, 0), EndEvent(e, 1)];
    SortByPermutes(Seeded([e]), o.eventLess);
    TwoElements(Initial(o, [e]), BeginEvent(e, 0), EndEvent(e, 1));
  }

  /**
   * The sweep of a lone edge tests no pair: its begin event finds the status
   * queue empty, and its end event leaves a queue of at most one edge.
   */
  lemma {:induction false} LoneRun(o: Oracles, e: UvEdge, q: seq<Event>, fuel: nat)
    requires q == [BeginEvent(e, 0), EndEvent(e, 1)] || q == [EndEvent(e, 1), BeginEvent(e, 0)]
    ensures Run(o, q, [], fuel).1 == {}
  {
    var b, d := BeginEvent(e, 0), EndEvent(e, 1);
    if fuel > 0 {
      var h := HandlerOf(o);
      assert EndStep([e], e).0 == [e][..0] + [e][1..] == [];
      if q[0] == b {
        QuietStep(o, h, q, [], fuel, fuel - 1, [e]);
        if fuel > 1 {
          QuietStep(o, h, q[1..], [e], fuel - 1, fuel - 2, []);
          assert q[1..][1..] == [];
        }
      } else {
        QuietStep(o, h, q, [], fuel, fuel - 1, []);
        if fuel > 1 {
          QuietStep(o, h, q[1..], [], fuel - 1, fuel - 2, [e]);
          assert q[1..][1..] == [];
        }
      }
    }
  }

  /** A set of at most one edge reports nothing: there is no pair of edges to test. */
  lemma {:induction false} SingleEdgeReportsNothing(o: Oracles, edges: set<UvEdge>, order: seq<UvEdge>, fuel: nat)
    requires |edges| <= 1 && Enumerates(order, edges)
    ensures Run(o, Initial(o, order), [], fuel).1 == {}
  {
    EnumeratesMembers(order, edges);
    if |order| == 1 {
      var e := order[0];
      assert order == [e];
      LoneQueue(o, e);
      LoneRun(o, e, Initial(o, order), fuel);
    } else {
      assert Initial(o, order) == [];
    }
  }

  // ---------------------------------------------------------------------
  // The sweep
  // ---------------------------------------------------------------------

  /** The command object's sweep state: the UV indices found on intersecting edges. */
  class OverlapFinder {
    var resultSet: set<int>
    const oracles: Oracles

    constructor (oracles: Oracles)
      ensures this.oracles == oracles && resultSet == {}
    {
      this.oracles := oracles;
      resultSet := {};
    }

    /**
     * Lines 523-536: test two edges; on a hit add their four UV indices to
     * the result and, unless they are parallel, queue an intersect event
     * and re-sort the event queue.
     */
    method CheckEdgesAndCreateEvent(edgeA: UvEdge, edgeB: UvEdge, eventQueue: seq<Event>)
      returns (eventQueue': seq<Event>)
      modifies this
      ensures resultSet == old(resultSet) + Hits(oracles, [(edgeA, edgeB)])
      ensures eventQueue' == AfterTests(oracles, eventQueue, [(edgeA, edgeB)])
    {
      var h := oracles.intersect(edgeA, edgeB);
      eventQueue' := eventQueue;
      if h.intersected {
        resultSet := resultSet + {edgeA.begin.index, edgeA.end.index, edgeB.begin.index, edgeB.end.index};
        if !h.isParallel {
          eventQueue' := eventQueue' + [CrossEvent(edgeA, edgeB, h)];
          eventQueue' := SortBy(eventQueue', oracles.eventLess);
        }
      }
    }

    /**
     * Lines 418-433: test the edge at position `index` of the sorted status
     * queue against the entry after it, the entry before it, or both.
     */
    method TestBeginNeighbours(statusQueue: seq<UvEdge>, index: nat, eventQueue: seq<Event>)
      returns (eventQueue': seq<Event>, ghost pairs: seq<(UvEdge, UvEdge)>)
      requires 2 <= |statusQueue| && index < |statusQueue|
      modifies this
      ensures pairs == BeginPairs(statusQueue, index)
      ensures resultSet == old(resultSet) + Hits(oracles, pairs)
      ensures eventQueue' == AfterTests(oracles, eventQueue, pairs)
    {
      BeginPairsCases(statusQueue, index);
      var numStatus := |statusQueue|;
      var currentEdge := statusQueue[index];
      if index == 0 {
        var nextEdge := statusQueue[index + 1];
        eventQueue' := CheckEdgesAndCreateEvent(currentEdge, nextEdge, eventQueue);
        pairs := [(currentEdge, nextEdge)];
      } else if index == numStatus - 1 {
        var previousEdge := statusQueue[index - 1];
        eventQueue' := CheckEdgesAndCreateEvent(currentEdge, previousEdge, eventQueue);
        pairs := [(currentEdge, previousEdge)];
      } else {
        var nextEdge := statusQueue[index + 1];
        var previousEdge := statusQueue[index - 1];
        pairs := [(currentEdge, nextEdge), (currentEdge, previousEdge)];
        TwoTests(oracles, eventQueue, (currentEdge, nextEdge), (currentEdge, previousEdge));
        eventQueue' := CheckEdgesAndCreateEvent(currentEdge, nextEdge, eventQueue);
        eventQueue' := CheckEdgesAndCreateEvent(currentEdge, previousEdge, eventQueue');
      }
    }

    /**
     * Lines 391-436: push the edge, and if it is not alone, sort the status
     * queue along the sweep line at the event and test the edge against its
     * neighbours. Answers whether any test was made.
     */
    method DoBegin(currentEvent: Event, eventQueue: seq<Event>, statusQueue: seq<UvEdge>)
      returns (tested: bool, eventQueue': seq<Event>, statusQueue': seq<UvEdge>, ghost pairs: seq<(UvEdge, UvEdge)>)
      modifies this
      ensures |statusQueue'| == |statusQueue| + 1
      ensures multiset(statusQueue') == multiset(statusQueue) + multiset{currentEvent.edge}
      ensures tested <==> statusQueue != []
      ensures !tested ==> statusQueue' == [currentEvent.edge] && pairs == []
      ensures tested ==>
        && statusQueue' == SortBy(statusQueue + [currentEvent.edge], StatusOrder(oracles, currentEvent.v))
        && Find(statusQueue', currentEvent.edge).Some?
        && pairs == BeginPairs(statusQueue', Find(statusQueue', currentEvent.edge).value)
      ensures resultSet == old(resultSet) + Hits(oracles, pairs)
      ensures eventQueue' == AfterTests(oracles, eventQueue, pairs)
    {
      var edge := currentEvent.edge;
      statusQueue' := statusQueue + [edge];
      var numStatus := |statusQueue'|;
      if numStatus == 1 {
        return false, eventQueue, statusQueue', [];
      }
      SortByPermutes(statusQueue', StatusOrder(oracles, currentEvent.v));
      statusQueue' := SortBy(statusQueue', StatusOrder(oracles, currentEvent.v));
      assert edge in multiset(statusQueue');
      var found := Find(statusQueue', edge);
      eventQueue', pairs := TestBeginNeighbours(statusQueue', found.value, eventQueue);
      tested := true;
    }

    /**
     * Lines 438-475: find the edge; if it is there, test its two neighbours
     * when it lies strictly inside a queue of more than two edges, then
     * remove its first occurrence. Answers whether the edge was found.
     */
    method DoEnd(currentEvent: Event, eventQueue: seq<Event>, statusQueue: seq<UvEdge>)
      returns (removed: bool, eventQueue': seq<Event>, statusQueue': seq<UvEdge>, ghost pairs: seq<(UvEdge, UvEdge)>)
      modifies this
      ensures removed <==> currentEvent.edge in statusQueue
      ensures !removed ==> statusQueue' == statusQueue && pairs == []
      ensures removed ==>
        var i := Find(statusQueue, currentEvent.edge).value;
        statusQueue' == statusQueue[..i] + statusQueue[i + 1..] && pairs == EndPairs(statusQueue, i)
      ensures resultSet == old(resultSet) + Hits(oracles, pairs)
      ensures eventQueue' == AfterTests(oracles, eventQueue, pairs)
    {
      var edge := currentEvent.edge;
      eventQueue' := eventQueue;
      statusQueue' := statusQueue;
      pairs := [];
      var found := Find(statusQueue, edge);
      if found.None? {
        return false, eventQueue', statusQueue', pairs;
      }
      var removeIndex := found.value;
      pairs := EndPairs(statusQueue, removeIndex);
      if |statusQueue| <= 2 {
      } else if removeIndex == 0 {
      } else if removeIndex == |statusQueue| - 1 {
      } else {
        var nextEdge := statusQueue[removeIndex + 1];
        var previousEdge := statusQueue[removeIndex - 1];
        eventQueue' := CheckEdgesAndCreateEvent(previousEdge, nextEdge, eventQueue');
      }
      statusQueue' := statusQueue[..removeIndex] + statusQueue[removeIndex + 1..];
      return true, eventQueue', statusQueue', pairs;
    }

    /**
     * Lines 500-519, with the read past the end removed: test the outer
     * neighbours of the crossing edges at positions small <= big.
     */
    method TestCrossNeighbours(statusQueue: seq<UvEdge>, small: nat, big: nat, eventQueue: seq<Event>)
      returns (eventQueue': seq<Event>, ghost pairs: seq<(UvEdge, UvEdge)>)
      requires 2 < |statusQueue| && small <= big < |statusQueue|
      modifies this
      ensures pairs == EdgesAt(statusQueue, CrossIndexPairs(|statusQueue|, small, big))
      ensures resultSet == old(resultSet) + Hits(oracles, pairs)
      ensures eventQueue' == AfterTests(oracles, eventQueue, pairs)
    {
      CrossPairsCases(statusQueue, small, big);
      var size := |statusQueue|;
      if small == 0 {
        if big < size - 1 {
          var firstEdge := statusQueue[small];
          var secondEdge := statusQueue[big + 1];
          eventQueue' := CheckEdgesAndCreateEvent(firstEdge, secondEdge, eventQueue);
          pairs := [(firstEdge, secondEdge)];
        } else {
          eventQueue', pairs := eventQueue, [];
        }
      } else if big == size - 1 {
        var firstEdge := statusQueue[small - 1];
        var secondEdge := statusQueue[big];
        eventQueue' := CheckEdgesAndCreateEvent(firstEdge, secondEdge, eventQueue);
        pairs := [(firstEdge, secondEdge)];
      } else {
        var firstEdge := statusQueue[small - 1];
        var secondEdge := statusQueue[small];
        var thirdEdge := statusQueue[big];
        var forthEdge := statusQueue[big + 1];
        pairs := [(firstEdge, thirdEdge), (secondEdge, forthEdge)];
        TwoTests(oracles, eventQueue, (firstEdge, thirdEdge), (secondEdge, forthEdge));
        eventQueue' := CheckEdgesAndCreateEvent(firstEdge, thirdEdge, eventQueue);
        eventQueue' := CheckEdgesAndCreateEvent(secondEdge, forthEdge, eventQueue');
      }
    }

    /**
     * Lines 477-521: with more than two edges in the status queue and both
     * crossing edges in it, test the outer neighbours of the crossing. The
     * status queue is not changed; the answer is always false.
     */
    method DoCross(currentEvent: Event, eventQueue: seq<Event>, statusQueue: seq<UvEdge>)
      returns (r: bool, eventQueue': seq<Event>, ghost pairs: seq<(UvEdge, UvEdge)>)
      modifies this
      ensures !r
      ensures pairs == CrossPairs(statusQueue, currentEvent)
      ensures resultSet == old(resultSet) + Hits(oracles, pairs)
      ensures eventQueue' == AfterTests(oracles, eventQueue, pairs)
    {
      if |statusQueue| <= 2 || currentEvent.otherEdge.None? {
        return false, eventQueue, [];
      }
      var thisFound := Find(statusQueue, currentEvent.edge);
      var otherFound := Find(statusQueue, currentEvent.otherEdge.value);
      if thisFound.None? || otherFound.None? {
        return false, eventQueue, [];
      }
      var thisIndex, otherIndex := thisFound.value, otherFound.value;
      var small, big;
      if thisIndex > otherIndex {
        small, big := otherIndex, thisIndex;
      } else {
        small, big := thisIndex, otherIndex;
      }
      eventQueue', pairs := TestCrossNeighbours(statusQueue, small, big, eventQueue);
      r := false;
    }
  

    /**
     * Lines 375-385: hand the event to the handler its tag names; answer
     * false, changing nothing, for a tag the sweep does not know.
     */
    method Dispatch(firstEvent: Event, eventQueue: seq<Event>, statusQueue: seq<UvEdge>)
      returns (known: bool, eventQueue': seq<Event>, statusQueue': seq<UvEdge>, ghost pairs: seq<(UvEdge, UvEdge)>)
      modifies this
      ensures Handle(oracles, firstEvent, statusQueue) == (known, statusQueue', pairs)
      ensures known <==> KnownStatus(firstEvent.status)
      ensures firstEvent.status == "begin" ==> (statusQueue', pairs) == BeginStep(oracles, firstEvent, statusQueue)
      ensures firstEvent.status == "end" ==> (statusQueue', pairs) == EndStep(statusQueue, firstEvent.edge)
      ensures firstEvent.status == "intersect" ==> statusQueue' == statusQueue && pairs == CrossPairs(statusQueue, firstEvent)
      ensures !known ==> statusQueue' == statusQueue && pairs == []
      ensures resultSet == old(resultSet) + Hits(oracles, pairs)
      ensures eventQueue' == AfterTests(oracles, eventQueue, pairs)
    {
      if firstEvent.status == "begin" {
        var tested;
        tested, eventQueue', statusQueue', pairs := DoBegin(firstEvent, eventQueue, statusQueue);
        known := true;
      } else if firstEvent.status == "end" {
        var removed;
        removed, eventQueue', statusQueue', pairs := DoEnd(firstEvent, eventQueue, statusQueue);
        known := true;
      } else if firstEvent.status == "intersect" {
        var crossed;
        crossed, eventQueue', pairs := DoCross(firstEvent, eventQueue, statusQueue);
        statusQueue' := statusQueue;
        known := true;
      } else {
        known, eventQueue', statusQueue', pairs := false, eventQueue, statusQueue, [];
      }
    }

    /**
     * Lines 349-389: seed and sort the event queue, then pop events until it
     * is empty, dispatching on the tag; an unknown tag ends the check with a
     * failure. `fuel` bounds the number of events handled, and `order` is
     * the order in which the edges were seeded.
     */
    method Check(edges: set<UvEdge>, fuel: nat) returns (result: CheckResult, ghost order: seq<UvEdge>)
      modifies this
      ensures Enumerates(order, edges)
      ensures result == Run(oracles, Initial(oracles, order), [], fuel).0
      ensures resultSet == old(resultSet) + Run(oracles, Initial(oracles, order), [], fuel).1
      ensures result != Failure
      ensures old(resultSet) <= resultSet <= old(resultSet) + HitEndpoints(oracles, edges)
      ensures |edges| <= 1 ==> resultSet == old(resultSet)
    {
      var eventQueue;
      eventQueue, order := SeedEvents(edges);
      eventQueue := SortBy(eventQueue, oracles.eventLess);
      EnumeratesMembers(order, edges);
      InitialWithin(oracles, order, edges);
      if |edges| <= 1 {
        SingleEdgeReportsNothing(oracles, edges, order, fuel);
      }
      ghost var outcome := Run(oracles, eventQueue, [], fuel);
      var statusQueue: seq<UvEdge> := [];
      var fuelLeft := fuel;
      while true
        invariant Run(oracles, eventQueue, statusQueue, fuelLeft).0 == outcome.0
        invariant resultSet + Run(oracles, eventQueue, statusQueue, fuelLeft).1 == old(resultSet) + outcome.1
        invariant EventsWithin(eventQueue, edges) && EdgesWithin(statusQueue, edges)
        invariant old(resultSet) <= resultSet <= old(resultSet) + HitEndpoints(oracles, edges)
        decreases fuelLeft
      {
        if eventQueue == [] {
          result := Success;
          return;
        }
        if fuelLeft == 0 {
          result := OutOfFuel;
          return;
        }
        ghost var q, sq, found, fuelBefore := eventQueue, statusQueue, resultSet, fuelLeft;
        ghost var sq', pairs' := WithinStep(oracles, q, sq, edges);
        var firstEvent := eventQueue[0];
        eventQueue := eventQueue[1..];
        var known;
        ghost var pairs;
        known, eventQueue, statusQueue, pairs := Dispatch(firstEvent, eventQueue, statusQueue);
        if !known {
          assert false;
          result := Failure;
          return;
        }
        fuelLeft := fuelLeft - 1;
        Advance(oracles, HandlerOf(oracles), q, sq, fuelBefore, fuelLeft, statusQueue, pairs, found, resultSet, (outcome.0, old(resultSet) + outcome.1));
      }
    }
  }
}
