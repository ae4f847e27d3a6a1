/**
 * Which edge sets the command sends to the sweep
 * (uvChecker/src/findUvOverlaps2.cpp:243-303).
 *
 * With several shells, every pair of shells whose bounding boxes overlap
 * contributes the union of the two shells' edge sets, in the order of
 * `makeCombinations`; afterwards every shell that took part in no
 * overlapping pair contributes its own edge set, in ascending shell index.
 * Merging is pairwise: shells are not grouped by the transitive closure of
 * the overlap relation.
 */
module Pairing {
  import opened UvTypes
  import opened Shells
  import opened Combinations

  // ---------------------------------------------------------------------
  // The specification
  // ---------------------------------------------------------------------

  predicate PairsBelow(ps: seq<seq<nat>>, n: nat) {
    forall k :: 0 <= k < |ps| ==> IsPair(ps[k], n)
  }

  predicate LexSorted(ps: seq<seq<nat>>) {
    forall a, b :: 0 <= a < b < |ps| ==> LexLess(ps[a], ps[b])
  }

  /** The boxes of the two shells of pair `p` overlap. */
  predicate Overlapping(shells: seq<Shell>, p: seq<nat>)
    requires IsPair(p, |shells|)
  {
    IsShellOverlapped(shells[p[0]], shells[p[1]])
  }

  lemma AllPairsBelow(n: nat)
    ensures PairsBelow(AllPairs(n), n)
  {
    AllPairsSorted(n);
  }

  /** The pairs of `ps` whose shells overlap, in the order of `ps`. */
  function OverlappingAmong(shells: seq<Shell>, ps: seq<seq<nat>>): (r: seq<seq<nat>>)
    requires PairsBelow(ps, |shells|)
    ensures |r| <= |ps|
    ensures PairsBelow(r, |shells|)
    decreases |ps|
  {
    if ps == [] then []
    else
      var m := |ps| - 1;
      OverlappingAmong(shells, ps[..m]) + (if Overlapping(shells, ps[m]) then [ps[m]] else [])
  }

  /**
   * The filter keeps exactly the overlapping pairs of `ps`, and keeps a
   * lexicographically sorted list sorted.
   */
  lemma {:induction false} OverlappingAmongMembers(shells: seq<Shell>, ps: seq<seq<nat>>)
    requires PairsBelow(ps, |shells|)
    ensures forall p :: p in OverlappingAmong(shells, ps) <==> p in ps && IsPair(p, |shells|) && Overlapping(shells, p)
    ensures LexSorted(ps) ==> LexSorted(OverlappingAmong(shells, ps))
    decreases |ps|
  {
    OverlappingAmongIn(shells, ps);
    if LexSorted(ps) {
      OverlappingAmongSorted(shells, ps);
    }
  }

  lemma {:induction false} OverlappingAmongIn(shells: seq<Shell>, ps: seq<seq<nat>>)
    requires PairsBelow(ps, |shells|)
    ensures forall p :: p in OverlappingAmong(shells, ps) <==> p in ps && IsPair(p, |shells|) && Overlapping(shells, p)
    decreases |ps|
  {
    if ps != [] {
      var m := |ps| - 1;
      OverlappingAmongIn(shells, ps[..m]);
      assert ps == ps[..m] + [ps[m]];
    }
  }

  lemma {:induction false} OverlappingAmongSorted(shells: seq<Shell>, ps: seq<seq<nat>>)
    requires PairsBelow(ps, |shells|) && LexSorted(ps)
    ensures LexSorted(OverlappingAmong(shells, ps))
    decreases |ps|
  {
    if ps != [] {
      var m := |ps| - 1;
      OverlappingAmongSorted(shells, ps[..m]);
      var front := OverlappingAmong(shells, ps[..m]);
      assert forall x :: x in front ==> LexLess(x, ps[m]) by {
        OverlappingAmongIn(shells, ps[..m]);
        assert forall x :: x in ps[..m] ==> LexLess(x, ps[m]);
      }
    }
  }

  /** Every overlapping pair [i, j], i < j, in lexicographic order. */
  function OverlappingPairs(shells: seq<Shell>): (r: seq<seq<nat>>)
    ensures PairsBelow(r, |shells|)
  {
    AllPairsBelow(|shells|);
    OverlappingAmong(shells, AllPairs(|shells|))
  }

  /** The shell indices that occur in some pair of `ps`. */
  function Touched(ps: seq<seq<nat>>, n: nat): set<nat>
    requires PairsBelow(ps, n)
    decreases |ps|
  {
    if ps == [] then {}
    else
      var m := |ps| - 1;
      Touched(ps[..m], n) + {ps[m][0], ps[m][1]}
  }

  /** A shell index is touched exactly when some pair names it. */
  lemma {:induction false} TouchedMembers(ps: seq<seq<nat>>, n: nat)
    requires PairsBelow(ps, n)
    ensures forall s :: s in Touched(ps, n) <==> exists k :: 0 <= k < |ps| && (ps[k][0] == s || ps[k][1] == s)
    decreases |ps|
  {
    if ps != [] {
      var m := |ps| - 1;
      TouchedMembers(ps[..m], n);
      assert forall k :: 0 <= k < m ==> ps[..m][k] == ps[k];
    }
  }

  /** Both shells of every pair of `ps` are touched. */
  lemma {:induction false} TouchedIndex(ps: seq<seq<nat>>, n: nat, k: nat)
    requires PairsBelow(ps, n) && k < |ps|
    ensures ps[k][0] in Touched(ps, n) && ps[k][1] in Touched(ps, n)
    decreases |ps|
  {
    var m := |ps| - 1;
    if k < m {
      assert ps[..m][k] == ps[k];
      TouchedIndex(ps[..m], n, k);
    }
  }

  /** The shell indices 0, ..., n - 1. */
  function Below(n: nat): set<nat>
  {
    if n == 0 then {} else Below(n - 1) + {n - 1}
  }

  lemma {:induction false} BelowMembers(n: nat)
    ensures forall x: nat :: x in Below(n) <==> x < n
  {
    if n > 0 {
      BelowMembers(n - 1);
    }
  }

  /** The shells that are still to be checked on their own after the pairs `ps`. */
  function Remaining(shells: seq<Shell>, ps: seq<seq<nat>>): set<nat>
    requires PairsBelow(ps, |shells|)
  {
    Below(|shells|) - Touched(OverlappingAmong(shells, ps), |shells|)
  }

  /** The members of `S` below `k`, in ascending order (the iteration order of `std::set`). */
  function Ascending(S: set<nat>, k: nat): (r: seq<nat>)
    ensures forall a :: 0 <= a < |r| ==> r[a] in S && r[a] < k
    ensures forall a, b :: 0 <= a < b < |r| ==> r[a] < r[b]
  {
    if k == 0 then []
    else
      var front := Ascending(S, k - 1);
      if k - 1 in S then front + [k - 1] else front
  }

  /** Every member of `S` below `k` is listed. */
  lemma {:induction false} AscendingMembers(S: set<nat>, k: nat, x: nat)
    requires x in S && x < k
    ensures x in Ascending(S, k)
  {
    if x < k - 1 {
      AscendingMembers(S, k - 1, x);
    }
  }

  /** Listing the members of `S` below `k` lists each of them once. */
  lemma {:induction false} AscendingCount(S: set<nat>, k: nat)
    ensures |Ascending(S, k)| == |S * Below(k)|
  {
    if k > 0 {
      AscendingCount(S, k - 1);
      AscendingLength(S, k);
      BelowCount(S, k);
    } else {
      assert S * Below(0) == {};
    }
  }

  lemma AscendingLength(S: set<nat>, k: nat)
    requires k > 0
    ensures |Ascending(S, k)| == |Ascending(S, k - 1)| + (if k - 1 in S then 1 else 0)
  {
  }

  lemma BelowCount(S: set<nat>, k: nat)
    requires k > 0
    ensures |S * Below(k)| == |S * Below(k - 1)| + (if k - 1 in S then 1 else 0)
  {
    var B := Below(k - 1);
    assert Below(k) == B + {k - 1};
    assert k - 1 !in B by {
      BelowMembers(k - 1);
    }
    IntersectAdd(S, B, k - 1);
  }

  lemma IntersectAdd(S: set<nat>, B: set<nat>, x: nat)
    requires x !in B
    ensures |S * (B + {x})| == |S * B| + (if x in S then 1 else 0)
  {
    if x in S {
      assert S * (B + {x}) == S * B + {x};
    } else {
      assert S * (B + {x}) == S * B;
    }
  }

  /** The union of the edge sets of the two shells of every pair. */
  function Unions(shells: seq<Shell>, ps: seq<seq<nat>>): (r: seq<set<UvEdge>>)
    requires PairsBelow(ps, |shells|)
    ensures |r| == |ps|
  {
    seq(|ps|, k requires 0 <= k < |ps| => shells[ps[k][0]].edges + shells[ps[k][1]].edges)
  }

  /** The edge sets of the shells `ids`. */
  function EdgeSetsOf(shells: seq<Shell>, ids: seq<nat>): (r: seq<set<UvEdge>>)
    requires forall k :: 0 <= k < |ids| ==> ids[k] < |shells|
    ensures |r| == |ids|
  {
    seq(|ids|, k requires 0 <= k < |ids| => shells[ids[k]].edges)
  }

  /** Every edge of every shell. */
  ghost function AllEdges(shells: seq<Shell>): set<UvEdge> {
    set s, e | 0 <= s < |shells| && e in shells[s].edges :: e
  }

  lemma ShellEdgesInAll(shells: seq<Shell>, s: nat)
    requires s < |shells|
    ensures shells[s].edges <= AllEdges(shells)
  {
    forall e | e in shells[s].edges ensures e in AllEdges(shells) {
    }
  }

  /**
   * The edge sets checked when there are several shells: one union per
   * overlapping pair, then the shells left on their own, ascending.
   */
  function ShellsToCheck(shells: seq<Shell>): (r: seq<set<UvEdge>>)
    ensures forall k :: 0 <= k < |r| ==> r[k] <= AllEdges(shells)
  {
    var n := |shells|;
    AllPairsBelow(n);
    var alone := Ascending(Remaining(shells, AllPairs(n)), n);
    assert forall s :: 0 <= s < n ==> shells[s].edges <= AllEdges(shells) by {
      forall s | 0 <= s < n ensures shells[s].edges <= AllEdges(shells) {
        ShellEdgesInAll(shells, s);
      }
    }
    Unions(shells, OverlappingPairs(shells)) + EdgeSetsOf(shells, alone)
  }

  /** Shell `s` overlaps no other shell. */
  predicate IsolatedShell(shells: seq<Shell>, s: nat) {
    s < |shells| && forall t :: 0 <= t < |shells| && t != s ==> !IsShellOverlapped(shells[s], shells[t])
  }

  // ---------------------------------------------------------------------
  // Properties of the specification
  // ---------------------------------------------------------------------

  /** The overlapping pairs are exactly the pairs i < j whose shells overlap, each once, in lexicographic order. */
  lemma OverlappingPairsExact(shells: seq<Shell>)
    ensures forall p :: p in OverlappingPairs(shells) <==> IsPair(p, |shells|) && Overlapping(shells, p)
    ensures LexSorted(OverlappingPairs(shells))
  {
    AllPairsMembers(|shells|);
    AllPairsSorted(|shells|);
    OverlappingAmongMembers(shells, AllPairs(|shells|));
  }

  /** A shell that overlaps another shell occurs in an overlapping pair. */
  lemma OverlapTouches(shells: seq<Shell>, s: nat, t: nat)
    requires s < |shells| && t < |shells| && s != t
    requires IsShellOverlapped(shells[s], shells[t])
    ensures PairsBelow(AllPairs(|shells|), |shells|)
    ensures s in Touched(OverlappingAmong(shells, AllPairs(|shells|)), |shells|)
  {
    var n := |shells|;
    AllPairsBelow(n);
    var ops := OverlappingAmong(shells, AllPairs(n));
    var p: seq<nat> := if s < t then [s, t] else [t, s];
    assert IsPair(p, n) && Overlapping(shells, p) by {
      OverlapSymmetricAndSeparated(shells[s], shells[t]);
    }
    assert p in AllPairs(n) by {
      AllPairsMembers(n);
    }
    assert p in ops by {
      OverlappingAmongIn(shells, AllPairs(n));
    }
    var k :| 0 <= k < |ops| && ops[k] == p;
    TouchedIndex(ops, n, k);
  }

  /** A shell that occurs in an overlapping pair overlaps the other shell of the pair. */
  lemma TouchedOverlaps(shells: seq<Shell>, s: nat)
    ensures PairsBelow(AllPairs(|shells|), |shells|)
    ensures s in Touched(OverlappingAmong(shells, AllPairs(|shells|)), |shells|) ==>
      s < |shells| && exists t :: 0 <= t < |shells| && t != s && IsShellOverlapped(shells[s], shells[t])
  {
    var n := |shells|;
    AllPairsBelow(n);
    var ops := OverlappingAmong(shells, AllPairs(n));
    if s in Touched(ops, n) {
      assert exists k :: 0 <= k < |ops| && (ops[k][0] == s || ops[k][1] == s) by {
        TouchedMembers(ops, n);
      }
      var k :| 0 <= k < |ops| && (ops[k][0] == s || ops[k][1] == s);
      var p := ops[k];
      assert Overlapping(shells, p) by {
        assert p in ops;
        OverlappingAmongIn(shells, AllPairs(n));
      }
      OverlapSymmetricAndSeparated(shells[p[0]], shells[p[1]]);
      var t := if p[0] == s then p[1] else p[0];
      assert IsShellOverlapped(shells[s], shells[t]);
    }
  }

  /** The shells left on their own are exactly the shells that overlap no other shell. */
  lemma {:induction false} RemainingIsolated(shells: seq<Shell>)
    ensures PairsBelow(AllPairs(|shells|), |shells|)
    ensures forall s :: s in Remaining(shells, AllPairs(|shells|)) <==> IsolatedShell(shells, s)
  {
    var n := |shells|;
    AllPairsSorted(n);
    BelowMembers(n);
    var ops := OverlappingAmong(shells, AllPairs(n));
    forall s | s in Remaining(shells, AllPairs(n)) ensures IsolatedShell(shells, s) {
      forall t | 0 <= t < n && t != s ensures !IsShellOverlapped(shells[s], shells[t]) {
        if IsShellOverlapped(shells[s], shells[t]) {
          OverlapTouches(shells, s, t);
        }
      }
    }
    forall s | IsolatedShell(shells, s) ensures s in Remaining(shells, AllPairs(n)) {
      TouchedOverlaps(shells, s);
    }
  }

  /**
   * One set is checked per overlapping pair, plus one per shell that
   * overlaps no other shell.
   */
  lemma ShellsToCheckCount(shells: seq<Shell>)
    ensures |ShellsToCheck(shells)| ==
      |OverlappingPairs(shells)| + |set s: nat | s < |shells| && IsolatedShell(shells, s)|
  {
    var n := |shells|;
    RemainingIsolated(shells);
    var rem := Remaining(shells, AllPairs(n));
    AscendingCount(rem, n);
    BelowMembers(n);
    assert rem * Below(n) == (set s: nat | s < n && IsolatedShell(shells, s));
  }

  /**
   * The first sets are the unions of the overlapping pairs, the rest the
   * edge sets of the isolated shells, in ascending shell index.
   */
  lemma ShellsToCheckContents(shells: seq<Shell>)
    ensures var ops := OverlappingPairs(shells);
      forall k :: 0 <= k < |ops| ==>
        IsPair(ops[k], |shells|) && Overlapping(shells, ops[k]) &&
        ShellsToCheck(shells)[k] == shells[ops[k][0]].edges + shells[ops[k][1]].edges
    ensures forall x :: x in ShellsToCheck(shells)[|OverlappingPairs(shells)|..] ==>
      exists s: nat :: IsolatedShell(shells, s) && x == shells[s].edges
  {
    forall k | 0 <= k < |OverlappingPairs(shells)|
      ensures IsPair(OverlappingPairs(shells)[k], |shells|) && Overlapping(shells, OverlappingPairs(shells)[k])
      ensures ShellsToCheck(shells)[k]
        == shells[OverlappingPairs(shells)[k][0]].edges + shells[OverlappingPairs(shells)[k][1]].edges
    {
      PairedSetChecked(shells, k);
    }
    forall x | x in ShellsToCheck(shells)[|OverlappingPairs(shells)|..]
      ensures exists s: nat :: IsolatedShell(shells, s) && x == shells[s].edges
    {
      var m := |OverlappingPairs(shells)|;
      var i :| 0 <= i < |ShellsToCheck(shells)[m..]| && ShellsToCheck(shells)[m..][i] == x;
      AloneSetChecked(shells, m + i);
    }
  }

  /** The k-th set of the overlapping part is the union of the k-th overlapping pair. */
  lemma PairedSetChecked(shells: seq<Shell>, k: nat)
    requires k < |OverlappingPairs(shells)|
    ensures IsPair(OverlappingPairs(shells)[k], |shells|) && Overlapping(shells, OverlappingPairs(shells)[k])
    ensures ShellsToCheck(shells)[k]
      == shells[OverlappingPairs(shells)[k][0]].edges + shells[OverlappingPairs(shells)[k][1]].edges
  {
    var n := |shells|;
    AllPairsBelow(n);
    var ops := OverlappingPairs(shells);
    var alone := Ascending(Remaining(shells, AllPairs(n)), n);
    assert ShellsToCheck(shells) == Unions(shells, ops) + EdgeSetsOf(shells, alone);
    assert ops[k] in ops;
    OverlappingPairsExact(shells);
  }

  /** Every set after the overlapping part is the edge set of an isolated shell. */
  lemma AloneSetChecked(shells: seq<Shell>, k: nat)
    requires |OverlappingPairs(shells)| <= k < |ShellsToCheck(shells)|
    ensures exists s: nat :: IsolatedShell(shells, s) && ShellsToCheck(shells)[k] == shells[s].edges
  {
    var n := |shells|;
    AllPairsBelow(n);
    var ops := OverlappingPairs(shells);
    var alone := Ascending(Remaining(shells, AllPairs(n)), n);
    assert ShellsToCheck(shells) == Unions(shells, ops) + EdgeSetsOf(shells, alone);
    var s := alone[k - |ops|];
    assert IsolatedShell(shells, s) by {
      RemainingIsolated(shells);
    }
    assert ShellsToCheck(shells)[k] == shells[s].edges;
  }

  /** Every shell's edges take part in at least one checked set. */
  lemma EveryShellChecked(shells: seq<Shell>, s: nat)
    requires s < |shells|
    ensures exists k :: 0 <= k < |ShellsToCheck(shells)| && shells[s].edges <= ShellsToCheck(shells)[k]
  {
    AllPairsBelow(|shells|);
    if s in Remaining(shells, AllPairs(|shells|)) {
      AloneShellChecked(shells, s);
    } else {
      PairedShellChecked(shells, s);
    }
  }

  /** A shell left on its own is checked by itself. */
  lemma AloneShellChecked(shells: seq<Shell>, s: nat)
    requires s < |shells|
    requires PairsBelow(AllPairs(|shells|), |shells|)
    requires s in Remaining(shells, AllPairs(|shells|))
    ensures exists k :: 0 <= k < |ShellsToCheck(shells)| && shells[s].edges == ShellsToCheck(shells)[k]
  {
    var n := |shells|;
    var ops := OverlappingPairs(shells);
    var rem := Remaining(shells, AllPairs(n));
    var alone := Ascending(rem, n);
    assert s in alone by {
      AscendingMembers(rem, n, s);
    }
    var a :| 0 <= a < |alone| && alone[a] == s;
    assert ShellsToCheck(shells)[|ops| + a] == shells[s].edges;
  }

  /** A shell struck off by an overlapping pair is checked within that pair's union. */
  lemma PairedShellChecked(shells: seq<Shell>, s: nat)
    requires s < |shells|
    requires PairsBelow(AllPairs(|shells|), |shells|)
    requires s !in Remaining(shells, AllPairs(|shells|))
    ensures exists k :: 0 <= k < |ShellsToCheck(shells)| && shells[s].edges <= ShellsToCheck(shells)[k]
  {
    var n := |shells|;
    var ops := OverlappingPairs(shells);
    assert exists k :: 0 <= k < |ops| && (ops[k][0] == s || ops[k][1] == s) by {
      BelowMembers(n);
      assert s in Touched(ops, n);
      TouchedMembers(ops, n);
    }
    var k :| 0 <= k < |ops| && (ops[k][0] == s || ops[k][1] == s);
    assert ShellsToCheck(shells)[k] == shells[ops[k][0]].edges + shells[ops[k][1]].edges;
  }

  // ---------------------------------------------------------------------
  // The loop as the command runs it
  // ---------------------------------------------------------------------

  lemma UnionsSnoc(shells: seq<Shell>, qs: seq<seq<nat>>, q: seq<nat>)
    requires PairsBelow(qs, |shells|) && IsPair(q, |shells|)
    ensures PairsBelow(qs + [q], |shells|)
    ensures Unions(shells, qs + [q]) == Unions(shells, qs) + [shells[q[0]].edges + shells[q[1]].edges]
  {
    assert PairsBelow(qs + [q], |shells|);
    assert Unions(shells, qs + [q])[..|qs|] == Unions(shells, qs);
  }

  lemma TouchedSnoc(qs: seq<seq<nat>>, q: seq<nat>, n: nat)
    requires PairsBelow(qs, n) && IsPair(q, n)
    ensures PairsBelow(qs + [q], n)
    ensures Touched(qs + [q], n) == Touched(qs, n) + {q[0], q[1]}
  {
    assert (qs + [q])[..|qs|] == qs;
  }

  /** One more combination: its union is pushed and its shells struck off exactly when they overlap. */
  lemma PairStep(shells: seq<Shell>, ps: seq<seq<nat>>, p: seq<nat>)
    requires PairsBelow(ps, |shells|) && IsPair(p, |shells|)
    ensures PairsBelow(ps + [p], |shells|)
    ensures Unions(shells, OverlappingAmong(shells, ps + [p])) ==
      Unions(shells, OverlappingAmong(shells, ps)) +
      (if Overlapping(shells, p) then [shells[p[0]].edges + shells[p[1]].edges] else [])
    ensures Remaining(shells, ps + [p]) ==
      Remaining(shells, ps) - (if Overlapping(shells, p) then {p[0], p[1]} else {})
  {
    var n := |shells|;
    assert PairsBelow(ps + [p], n);
    assert (ps + [p])[..|ps|] == ps;
    var front := OverlappingAmong(shells, ps);
    if Overlapping(shells, p) {
      assert OverlappingAmong(shells, ps + [p]) == front + [p];
      UnionsSnoc(shells, front, p);
      TouchedSnoc(front, p, n);
    } else {
      assert OverlappingAmong(shells, ps + [p]) == front;
    }
  }

  /** The state of the combination loop after the pairs `done`. */
  ghost predicate Pushed(shells: seq<Shell>, done: seq<seq<nat>>, shellArray: seq<set<UvEdge>>, shellIndices: set<nat>) {
    PairsBelow(done, |shells|) &&
    shellArray == Unions(shells, OverlappingAmong(shells, done)) &&
    shellIndices == Remaining(shells, done)
  }

  /** One round of the combination loop keeps its state. */
  lemma PushStep(shells: seq<Shell>, done: seq<seq<nat>>, p: seq<nat>, shellArray: seq<set<UvEdge>>, shellIndices: set<nat>)
    requires Pushed(shells, done, shellArray, shellIndices) && IsPair(p, |shells|)
    ensures IsShellOverlapped(shells[p[0]], shells[p[1]]) ==>
      Pushed(shells, done + [p], shellArray + [shells[p[0]].edges + shells[p[1]].edges], shellIndices - {p[0], p[1]})
    ensures !IsShellOverlapped(shells[p[0]], shells[p[1]]) ==>
      Pushed(shells, done + [p], shellArray, shellIndices)
  {
    PairStep(shells, done, p);
  }

  /** Appending the edge set of one more shell to the list of shells checked alone. */
  lemma AloneStep(shells: seq<Shell>, S: set<nat>, s: nat)
    requires s < |shells|
    ensures EdgeSetsOf(shells, Ascending(S, s + 1)) ==
      EdgeSetsOf(shells, Ascending(S, s)) + (if s in S then [shells[s].edges] else [])
  {
  }

  /**
   * Lines 268-287: walk the combinations; for every pair whose boxes overlap,
   * push the union of the two edge sets and strike both shells from the
   * shells to check alone.
   */
  method PushOverlapping(shells: seq<Shell>, combinations: seq<seq<nat>>, shellIndices: set<nat>)
    returns (shellArray: seq<set<UvEdge>>, shellIndices': set<nat>)
    requires PairsBelow(combinations, |shells|)
    requires shellIndices == Below(|shells|)
    ensures shellArray == Unions(shells, OverlappingAmong(shells, combinations))
    ensures shellIndices' == Remaining(shells, combinations)
  {
    var n := |shells|;
    shellArray := [];
    shellIndices' := shellIndices;
    var i := 0;
    ghost var done: seq<seq<nat>> := [];
    while i < |combinations|
      invariant i <= |combinations| && done == combinations[..i]
      invariant Pushed(shells, done, shellArray, shellIndices')
    {
      var a, b := combinations[i][0], combinations[i][1];
      PushStep(shells, done, combinations[i], shellArray, shellIndices');
      if IsShellOverlapped(shells[a], shells[b]) {
        shellArray := shellArray + [shells[a].edges + shells[b].edges];
        shellIndices' := shellIndices' - {a, b};
      }
      done := done + [combinations[i]];
      i := i + 1;
    }
    assert done == combinations;
  }

  /** Lines 289-294: push the edge set of every shell left, in ascending shell index. */
  method PushAlone(shells: seq<Shell>, shellIndices: set<nat>, shellArray: seq<set<UvEdge>>)
    returns (shellArray': seq<set<UvEdge>>)
    ensures shellArray' == shellArray + EdgeSetsOf(shells, Ascending(shellIndices, |shells|))
  {
    shellArray' := shellArray;
    var s := 0;
    while s < |shells|
      invariant s <= |shells|
      invariant shellArray' == shellArray + EdgeSetsOf(shells, Ascending(shellIndices, s))
    {
      AloneStep(shells, shellIndices, s);
      if s in shellIndices {
        shellArray' := shellArray' + [shells[s].edges];
      }
      s := s + 1;
    }
  }

  /**
   * Lines 256-294: the edge sets to check when there are several shells,
   * one union per overlapping pair and then every shell left on its own.
   */
  method PairShells(shells: seq<Shell>) returns (shellArray: seq<set<UvEdge>>)
    requires |shells| >= 2
    ensures shellArray == ShellsToCheck(shells)
  {
    var n := |shells|;
    var shellIndices: set<nat> := {};
    var k := 0;
    while k < n
      invariant k <= n && shellIndices == Below(k)
    {
      shellIndices := shellIndices + {k};
      k := k + 1;
    }
    var combinations := MakeCombinations(n);
    AllPairsBelow(n);
    shellArray, shellIndices := PushOverlapping(shells, combinations, shellIndices);
    shellArray := PushAlone(shells, shellIndices, shellArray);
  }
}
