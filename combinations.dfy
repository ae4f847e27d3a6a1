/**
 * The list of all unordered pairs of shell indices
 * (`makeCombinations`, uvChecker/src/findUvOverlaps2.cpp:538-554).
 *
 * The command starts from a mask of N flags whose first two are set, reads
 * off the indices of the set flags, and steps the mask with
 * `std::prev_permutation` until it has gone through every arrangement.
 * `PrevPermutation` follows the standard algorithm on a sequence of flags
 * (unset before set); the lemmas below show that on a mask with two set
 * flags it steps to the next pair in lexicographic order.
 */
module Combinations {

  // ---------------------------------------------------------------------
  // The specification: all pairs [i, j] with i < j < n, lexicographically
  // ---------------------------------------------------------------------

  /** The pairs [i, j], [i, j + 1], ..., [i, n - 1]. */
  function Row(n: nat, i: nat, j: nat): (r: seq<seq<nat>>)
    requires j <= n
    ensures |r| == n - j
  {
    seq(n - j, k requires 0 <= k < n - j => [i, j + k])
  }

  /** All pairs whose first index is at least `i`, in lexicographic order. */
  function PairsFrom(n: nat, i: nat): (r: seq<seq<nat>>)
    ensures forall k :: 0 <= k < |r| ==> IsPair(r[k], n) && i <= r[k][0]
    decreases n - i
  {
    if i >= n then [] else Row(n, i, i + 1) + PairsFrom(n, i + 1)
  }

  /** All pairs [i, j] with i < j < n, in lexicographic order. */
  function AllPairs(n: nat): (r: seq<seq<nat>>)
    ensures forall k :: 0 <= k < |r| ==> IsPair(r[k], n)
  {
    PairsFrom(n, 0)
  }

  predicate IsPair(p: seq<nat>, n: nat) {
    |p| == 2 && p[0] < p[1] < n
  }

  /** Lexicographic order on pairs. */
  predicate LexLess(p: seq<nat>, q: seq<nat>) {
    |p| == 2 && |q| == 2 && (p[0] < q[0] || (p[0] == q[0] && p[1] < q[1]))
  }

  lemma {:induction false} PairsFromMembers(n: nat, i: nat)
    ensures forall p :: p in PairsFrom(n, i) <==> IsPair(p, n) && i <= p[0]
    decreases n - i
  {
    if i < n {
      PairsFromMembers(n, i + 1);
      var row := Row(n, i, i + 1);
      forall p | IsPair(p, n) && p[0] == i ensures p in row {
        assert row[p[1] - i - 1] == p;
      }
    }
  }

  /** AllPairs(n) holds exactly the pairs [i, j] with i < j < n. */
  lemma AllPairsMembers(n: nat)
    ensures forall p :: p in AllPairs(n) <==> IsPair(p, n)
  {
    PairsFromMembers(n, 0);
  }

  lemma {:induction false} PairsFromSorted(n: nat, i: nat)
    ensures forall a :: 0 <= a < |PairsFrom(n, i)| ==> IsPair(PairsFrom(n, i)[a], n)
    ensures forall a, b :: 0 <= a < b < |PairsFrom(n, i)| ==>
      LexLess(PairsFrom(n, i)[a], PairsFrom(n, i)[b])
    decreases n - i
  {
    if i < n {
      PairsFromSorted(n, i + 1);
      var row, rest := Row(n, i, i + 1), PairsFrom(n, i + 1);
      var all := row + rest;
      assert all == PairsFrom(n, i);
      forall a, b | 0 <= a < b < |all| ensures LexLess(all[a], all[b]) {
        if b >= |row| {
          assert all[b] == rest[b - |row|];
          if a >= |row| {
            assert all[a] == rest[a - |row|];
          }
        }
      }
    }
  }

  /**
   * AllPairs(n) is strictly increasing in lexicographic order, so each pair
   * appears in it exactly once.
   */
  lemma AllPairsSorted(n: nat)
    ensures forall a :: 0 <= a < |AllPairs(n)| ==> IsPair(AllPairs(n)[a], n)
    ensures forall a, b :: 0 <= a < b < |AllPairs(n)| ==>
      IsPair(AllPairs(n)[a], n) && IsPair(AllPairs(n)[b], n) &&
      LexLess(AllPairs(n)[a], AllPairs(n)[b]) && AllPairs(n)[a] != AllPairs(n)[b]
  {
    PairsFromSorted(n, 0);
  }

  lemma {:induction false} PairsFromCount(n: nat, i: nat)
    requires i <= n
    ensures 2 * |PairsFrom(n, i)| == (n - i) * (n - i - 1)
    decreases n - i
  {
    if i < n {
      PairsFromCount(n, i + 1);
      var m := n - i - 1;
      assert 2 * |PairsFrom(n, i)| == 2 * m + m * (m - 1);
      assert 2 * m + m * (m - 1) == (m + 1) * m;
    }
  }

  /** There are n(n - 1)/2 pairs. */
  lemma AllPairsCount(n: nat)
    ensures |AllPairs(n)| == n * (n - 1) / 2
  {
    PairsFromCount(n, 0);
  }

  // ---------------------------------------------------------------------
  // The enumeration as the command does it: a mask and prev_permutation
  // ---------------------------------------------------------------------

  function Reverse<T>(s: seq<T>): (r: seq<T>)
    ensures |r| == |s|
    ensures forall k :: 0 <= k < |s| ==> r[k] == s[|s| - 1 - k]
  {
    seq(|s|, k requires 0 <= k < |s| => s[|s| - 1 - k])
  }

  /** A set flag followed by an unset one: an index where the mask descends. */
  predicate Descent(a: seq<bool>, q: int) {
    0 <= q < |a| - 1 && a[q] && !a[q + 1]
  }

  /** The last descent at or below `p`, or -1. */
  function LastDescent(a: seq<bool>, p: int): (r: int)
    requires -1 <= p < |a|
    ensures -1 <= r <= p
    ensures r >= 0 ==> Descent(a, r)
    ensures forall q :: r < q <= p ==> !Descent(a, q)
    decreases p + 1
  {
    if p < 0 then -1 else if Descent(a, p) then p else LastDescent(a, p - 1)
  }

  /** The last unset flag at or below `p`, or -1. */
  function LastUnset(a: seq<bool>, p: int): (r: int)
    requires -1 <= p < |a|
    ensures -1 <= r <= p
    ensures r >= 0 ==> !a[r]
    ensures forall q :: r < q <= p ==> a[q]
    decreases p + 1
  {
    if p < 0 then -1 else if !a[p] then p else LastUnset(a, p - 1)
  }

  /**
   * `std::prev_permutation` on flags: step to the previous arrangement in
   * lexicographic order and answer true, or, from the smallest arrangement,
   * wrap around to the largest and answer false.
   */
  function PrevPermutation(a: seq<bool>): (r: (bool, seq<bool>))
    ensures |r.1| == |a|
  {
    if |a| < 2 then (false, a)
    else
      var p := LastDescent(a, |a| - 2);
      if p < 0 then (false, Reverse(a))
      else
        var j := LastUnset(a, |a| - 1);
        assert j > p;
        (true, SwapReverseTail(a, p, j))
  }

  /**
   * Swap the flags at p and j, then reverse everything after p: read element
   * by element, the flag at p takes the value at j and the tail is mirrored.
   */
  function SwapReverseTail(a: seq<bool>, p: nat, j: nat): (r: seq<bool>)
    requires p < j < |a|
    ensures |r| == |a|
    ensures forall k :: 0 <= k < p ==> r[k] == a[k]
    ensures r[p] == a[j]
    ensures forall k :: p < k < |a| ==>
      r[k] == (if |a| + p - k == j then a[p] else a[|a| + p - k])
  {
    var swapped := a[p := a[j]][j := a[p]];
    swapped[..p + 1] + Reverse(swapped[p + 1..])
  }

  /** The mask with the flags at i and j set. */
  function Mask(n: nat, i: nat, j: nat): (m: seq<bool>)
    ensures |m| == n
  {
    seq(n, k => k == i || k == j)
  }

  /** The pair that follows [i, j] in lexicographic order. */
  function NextPair(n: nat, i: nat, j: nat): (nat, nat) {
    if j + 1 < n then (i, j + 1) else (i + 1, i + 2)
  }

  /** The last descent of a two-flag mask. */
  lemma LastDescentOfMask(n: nat, i: nat, j: nat)
    requires i < j < n
    ensures j + 1 < n ==> LastDescent(Mask(n, i, j), n - 2) == j
    ensures j + 1 == n && i + 1 < j ==> LastDescent(Mask(n, i, j), n - 2) == i
    ensures j + 1 == n && i + 1 == j ==> LastDescent(Mask(n, i, j), n - 2) == -1
  {
    var a := Mask(n, i, j);
    var p := LastDescent(a, n - 2);
    if j + 1 < n {
      assert Descent(a, j);
    } else if i + 1 < j {
      assert Descent(a, i);
    } else {
      assert p >= 0 ==> Descent(a, p);
    }
  }

  /** The last unset flag of a two-flag mask. */
  lemma LastUnsetOfMask(n: nat, i: nat, j: nat)
    requires i < j < n
    ensures j + 1 < n ==> LastUnset(Mask(n, i, j), n - 1) == n - 1
    ensures j + 1 == n && i + 2 < n ==> LastUnset(Mask(n, i, j), n - 1) == n - 2
  {
    var a := Mask(n, i, j);
    if j + 1 < n {
      assert !a[n - 1];
    } else if i + 2 < n {
      assert !a[n - 2];
    }
  }

  /** prev_permutation on a mask with a descent swaps and reverses at the last descent. */
  lemma PrevPermutationSteps(a: seq<bool>, p: nat, j: nat)
    requires |a| >= 2 && LastDescent(a, |a| - 2) == p && LastUnset(a, |a| - 1) == j
    ensures p < j < |a|
    ensures PrevPermutation(a) == (true, SwapReverseTail(a, p, j))
  {
  }

  lemma SwapReverseTailRow(n: nat, i: nat, j: nat)
    requires i < j && j + 1 < n
    ensures SwapReverseTail(Mask(n, i, j), j, n - 1) == Mask(n, i, j + 1)
  {
    var a := Mask(n, i, j);
    var r := SwapReverseTail(a, j, n - 1);
    forall k | 0 <= k < n ensures r[k] == Mask(n, i, j + 1)[k] {
      if k > j {
        assert r[k] == (if n + j - k == n - 1 then a[j] else a[n + j - k]);
      }
    }
  }

  lemma SwapReverseTailDown(n: nat, i: nat)
    requires i + 2 < n
    ensures SwapReverseTail(Mask(n, i, n - 1), i, n - 2) == Mask(n, i + 1, i + 2)
  {
    var a := Mask(n, i, n - 1);
    var r := SwapReverseTail(a, i, n - 2);
    forall k | 0 <= k < n ensures r[k] == Mask(n, i + 1, i + 2)[k] {
      if k > i {
        assert r[k] == (if n + i - k == n - 2 then a[i] else a[n + i - k]);
      }
    }
  }

  lemma PrevPermutationStepsRow(n: nat, i: nat, j: nat)
    requires i < j && j + 1 < n
    ensures PrevPermutation(Mask(n, i, j)) == (true, Mask(n, i, j + 1))
  {
    LastDescentOfMask(n, i, j);
    LastUnsetOfMask(n, i, j);
    PrevPermutationSteps(Mask(n, i, j), j, n - 1);
    SwapReverseTailRow(n, i, j);
  }

  lemma PrevPermutationStepsDown(n: nat, i: nat)
    requires i + 2 < n
    ensures PrevPermutation(Mask(n, i, n - 1)) == (true, Mask(n, i + 1, i + 2))
  {
    LastDescentOfMask(n, i, n - 1);
    LastUnsetOfMask(n, i, n - 1);
    PrevPermutationSteps(Mask(n, i, n - 1), i, n - 2);
    SwapReverseTailDown(n, i);
  }

  lemma PrevPermutationStops(n: nat)
    requires n >= 2
    ensures !PrevPermutation(Mask(n, n - 2, n - 1)).0
  {
    LastDescentOfMask(n, n - 2, n - 1);
  }

  /**
   * On a mask with the flags at i < j set, prev_permutation moves to the mask
   * of the next pair in lexicographic order, and answers false only after
   * the last pair [n - 2, n - 1].
   */
  lemma PrevPermutationOfMask(n: nat, i: nat, j: nat)
    requires i < j < n
    ensures PrevPermutation(Mask(n, i, j)).0 <==> !(i == n - 2 && j == n - 1)
    ensures PrevPermutation(Mask(n, i, j)).0 ==>
      var (i', j') := NextPair(n, i, j);
      i' < j' < n && PrevPermutation(Mask(n, i, j)).1 == Mask(n, i', j')
  {
    if j + 1 < n {
      PrevPermutationStepsRow(n, i, j);
    } else if i + 2 < n {
      PrevPermutationStepsDown(n, i);
    } else {
      PrevPermutationStops(n);
    }
  }

  /** The indices of the set flags among the first k, in increasing order. */
  function SetIndices(a: seq<bool>, k: nat): seq<nat>
    requires k <= |a|
  {
    if k == 0 then []
    else SetIndices(a, k - 1) + (if a[k - 1] then [k - 1] else [])
  }

  /** The indices collected are exactly the set flags below k, in ascending order. */
  lemma {:induction false} SetIndicesExact(a: seq<bool>, k: nat)
    requires k <= |a|
    ensures forall x: nat :: x in SetIndices(a, k) <==> x < k && a[x]
    ensures forall x, y :: 0 <= x < y < |SetIndices(a, k)| ==> SetIndices(a, k)[x] < SetIndices(a, k)[y]
  {
    if k > 0 {
      SetIndicesExact(a, k - 1);
      var front := SetIndices(a, k - 1);
      assert forall x :: 0 <= x < |front| ==> front[x] in front;
    }
  }

  lemma {:induction false} SetIndicesOfMask(n: nat, i: nat, j: nat, k: nat)
    requires i < j < n && k <= n
    ensures SetIndices(Mask(n, i, j), k) == if k <= i then [] else if k <= j then [i] else [i, j]
  {
    if k > 0 {
      SetIndicesOfMask(n, i, j, k - 1);
    }
  }

  /** Lines 546-551: the indices of the set flags of the mask. */
  method SetBits(bitmask: seq<bool>) returns (sb: seq<nat>)
    ensures sb == SetIndices(bitmask, |bitmask|)
  {
    sb := [];
    var i := 0;
    while i < |bitmask|
      invariant i <= |bitmask|
      invariant sb == SetIndices(bitmask, i)
    {
      if bitmask[i] {
        sb := sb + [i];
      }
      i := i + 1;
    }
  }

  /** The pairs from [i, j] on: the rest of row i, then all later rows. */
  function PairsAfter(n: nat, i: nat, j: nat): seq<seq<nat>>
    requires i < j <= n
  {
    Row(n, i, j) + PairsFrom(n, i + 1)
  }

  lemma PairsAfterStep(n: nat, i: nat, j: nat)
    requires i < j < n
    ensures var (i', j') := NextPair(n, i, j);
      if i == n - 2 && j == n - 1 then PairsAfter(n, i, j) == [[i, j]]
      else i' < j' < n && PairsAfter(n, i, j) == [[i, j]] + PairsAfter(n, i', j')
  {
    assert Row(n, i, j) == [[i, j]] + Row(n, i, j + 1);
    if j + 1 == n && i + 2 < n {
      assert PairsFrom(n, i + 1) == PairsAfter(n, i + 1, i + 2);
    }
  }

  /**
   * One round of the enumeration loop on the mask of [i, j]: the set flags
   * are exactly i and j, and prev_permutation either moves to the mask of
   * the next pair, leaving one pair fewer to go, or stops after the last pair.
   */
  lemma {:induction false} MaskRound(n: nat, i: nat, j: nat)
    requires i < j < n
    ensures SetIndices(Mask(n, i, j), n) == [i, j]
    ensures var step := PrevPermutation(Mask(n, i, j));
      var (i', j') := NextPair(n, i, j);
      if step.0 then i' < j' < n && step.1 == Mask(n, i', j') && PairsAfter(n, i, j) == [[i, j]] + PairsAfter(n, i', j')
      else PairsAfter(n, i, j) == [[i, j]]
  {
    SetIndicesOfMask(n, i, j, n);
    PrevPermutationOfMask(n, i, j);
    PairsAfterStep(n, i, j);
  }

  /**
   * With fewer than two flags the mask cannot be permuted: prev_permutation
   * answers false at once, and the set flags are [0] for one flag, none for zero.
   */
  lemma SmallMaskRound(n: nat)
    requires n < 2
    ensures SetIndices(seq(n, k => k < 2), n) == if n == 1 then [0] else []
    ensures !PrevPermutation(seq(n, k => k < 2)).0
  {
    if n == 1 {
      var a := seq(n, k => k < 2);
      assert SetIndices(a, 0) == [];
    }
  }

  /**
   * The state of the enumeration loop before a round: for N >= 2 the mask
   * holds the pair [i, j] and the pairs collected so far followed by the
   * pairs still to come are all the pairs; for N < 2 nothing is collected yet.
   */
  ghost predicate RoundState(n: nat, i: nat, j: nat, bitmask: seq<bool>, vec: seq<seq<nat>>) {
    if n >= 2 then i < j < n && bitmask == Mask(n, i, j) && vec + PairsAfter(n, i, j) == AllPairs(n)
    else bitmask == seq(n, k => k < 2) && vec == []
  }

  /** The result the enumeration promises for N flags. */
  ghost predicate Enumerated(n: nat, vec: seq<seq<nat>>) {
    if n >= 2 then vec == AllPairs(n) else if n == 1 then vec == [[0]] else vec == [[]]
  }

  /** The number of pairs still to come. */
  ghost function RoundsLeft(n: nat, i: nat, j: nat): nat {
    if i < j <= n then |PairsAfter(n, i, j)| else 0
  }

  /**
   * One round keeps the loop state: when prev_permutation answers true the
   * state holds for the next pair with one round fewer to go, and when it
   * answers false the collected pairs are the promised result.
   */
  lemma RoundStep(n: nat, i: nat, j: nat, bitmask: seq<bool>, vec: seq<seq<nat>>)
    requires RoundState(n, i, j, bitmask, vec)
    ensures var step := PrevPermutation(bitmask);
      var vec' := vec + [SetIndices(bitmask, |bitmask|)];
      var (i', j') := NextPair(n, i, j);
      if step.0 then RoundState(n, i', j', step.1, vec') && RoundsLeft(n, i', j') < RoundsLeft(n, i, j)
      else Enumerated(n, vec')
  {
    if n >= 2 {
      PairRoundStep(n, i, j, vec);
    } else {
      SmallMaskRound(n);
    }
  }

  lemma PairRoundStep(n: nat, i: nat, j: nat, vec: seq<seq<nat>>)
    requires i < j < n && vec + PairsAfter(n, i, j) == AllPairs(n)
    ensures var step := PrevPermutation(Mask(n, i, j));
      var vec' := vec + [SetIndices(Mask(n, i, j), n)];
      var (i', j') := NextPair(n, i, j);
      if step.0 then RoundState(n, i', j', step.1, vec') && RoundsLeft(n, i', j') < RoundsLeft(n, i, j)
      else Enumerated(n, vec')
  {
    MaskRound(n, i, j);
    var (i', j') := NextPair(n, i, j);
    var vec' := vec + [[i, j]];
    if PrevPermutation(Mask(n, i, j)).0 {
      assert PairsAfter(n, i, j) == [[i, j]] + PairsAfter(n, i', j');
      assert vec' + PairsAfter(n, i', j') == vec + PairsAfter(n, i, j);
    } else {
      assert vec' == vec + PairsAfter(n, i, j);
    }
  }

  /**
   * Lines 539-554. For N >= 2 the result is every pair [i, j] with
   * i < j < N, once each, in lexicographic order. For N = 1 the mask shrinks
   * to one set flag and the result is [[0]]; for N = 0 it is [[]].
   */
  method MakeCombinations(n: nat) returns (vec: seq<seq<nat>>)
    ensures n >= 2 ==> vec == AllPairs(n)
    ensures n == 1 ==> vec == [[0]]
    ensures n == 0 ==> vec == [[]]
  {
    // two leading set flags, then the mask is resized to n flags
    var bitmask := seq(n, k => k < 2);
    vec := [];
    ghost var i: nat, j: nat := 0, 1;
    if n >= 2 {
      assert bitmask == Mask(n, 0, 1);
    }
    while true
      invariant RoundState(n, i, j, bitmask, vec)
      decreases RoundsLeft(n, i, j)
    {
      var sb := SetBits(bitmask);
      var step := PrevPermutation(bitmask);
      RoundStep(n, i, j, bitmask, vec);
      vec := vec + [sb];
      bitmask := step.1;
      if !step.0 {
        break;
      }
      i, j := NextPair(n, i, j).0, NextPair(n, i, j).1;
    }
  }
}
