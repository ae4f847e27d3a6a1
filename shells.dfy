/**
 * Bounding boxes of UV shells and the box overlap test
 * (uvChecker/src/findUvOverlaps2.cpp:151-162 and 332-347).
 */
module Shells {
  import opened UvTypes

  /** The smallest value of a non-empty sequence (`std::min_element`). */
  function SeqMin(s: seq<real>): (r: real)
    requires |s| > 0
    ensures r in s
    ensures forall i :: 0 <= i < |s| ==> r <= s[i]
  {
    if |s| == 1 then s[0]
    else
      var rest := SeqMin(s[1..]);
      assert forall i :: 1 <= i < |s| ==> s[i] == s[1..][i - 1];
      if s[0] <= rest then s[0] else rest
  }

  /** The largest value of a non-empty sequence (`std::max_element`). */
  function SeqMax(s: seq<real>): (r: real)
    requires |s| > 0
    ensures r in s
    ensures forall i :: 0 <= i < |s| ==> s[i] <= r
  {
    if |s| == 1 then s[0]
    else
      var rest := SeqMax(s[1..]);
      assert forall i :: 1 <= i < |s| ==> s[i] == s[1..][i - 1];
      if s[0] >= rest then s[0] else rest
  }

  /**
   * The bounding box of a shell's UV points: the tightest box that holds
   * every point, each of its four sides touching some point.
   */
  function BoundingBox(us: seq<real>, vs: seq<real>): (b: Box)
    requires |us| > 0 && |vs| > 0
    ensures b.WellFormed()
    ensures forall i :: 0 <= i < |us| ==> b.uMin <= us[i] <= b.uMax
    ensures forall i :: 0 <= i < |vs| ==> b.vMin <= vs[i] <= b.vMax
    ensures b.uMin in us && b.uMax in us && b.vMin in vs && b.vMax in vs
  {
    Box(SeqMin(us), SeqMax(us), SeqMin(vs), SeqMax(vs))
  }

  /** Lines 332-347: false as soon as one box lies strictly to one side of the other. */
  function IsShellOverlapped(shellA: Shell, shellB: Shell): bool {
    if shellA.box.uMax < shellB.box.uMin then false
    else if shellA.box.uMin > shellB.box.uMax then false
    else if shellA.box.vMax < shellB.box.vMin then false
    else if shellA.box.vMin > shellB.box.vMax then false
    else true
  }

  /**
   * The test does not depend on the order of the two shells, and it is false
   * exactly when one box is strictly to the left of, right of, below or
   * above the other; boxes that only touch count as overlapping.
   */
  lemma OverlapSymmetricAndSeparated(shellA: Shell, shellB: Shell)
    ensures IsShellOverlapped(shellA, shellB) == IsShellOverlapped(shellB, shellA)
    ensures var a, b := shellA.box, shellB.box;
      !IsShellOverlapped(shellA, shellB) <==>
        a.uMax < b.uMin || b.uMax < a.uMin || a.vMax < b.vMin || b.vMax < a.vMin
  {
  }

  /**
   * For well-formed boxes, the test holds exactly when the two closed boxes
   * share a point, so boxes that meet along a side or at a corner overlap.
   */
  lemma OverlapIffCommonPoint(shellA: Shell, shellB: Shell)
    requires shellA.box.WellFormed() && shellB.box.WellFormed()
    ensures IsShellOverlapped(shellA, shellB) <==>
      exists u, v :: shellA.box.Contains(u, v) && shellB.box.Contains(u, v)
  {
    var a, b := shellA.box, shellB.box;
    if IsShellOverlapped(shellA, shellB) {
      var u := if a.uMin < b.uMin then b.uMin else a.uMin;
      var v := if a.vMin < b.vMin then b.vMin else a.vMin;
      assert a.Contains(u, v) && b.Contains(u, v);
    }
  }

  /**
   * Two shells whose boxes are bounding boxes of their points and which have
   * a UV point at the same place are always paired: shells that the test
   * keeps apart have no UV position in common.
   */
  lemma SharedPointOverlaps(shellA: Shell, shellB: Shell, i: nat, j: nat)
    requires |shellA.us| == |shellA.vs| > 0 && |shellB.us| == |shellB.vs| > 0
    requires shellA.box == BoundingBox(shellA.us, shellA.vs)
    requires shellB.box == BoundingBox(shellB.us, shellB.vs)
    requires i < |shellA.us| && j < |shellB.us|
    requires shellA.us[i] == shellB.us[j] && shellA.vs[i] == shellB.vs[j]
    ensures IsShellOverlapped(shellA, shellB)
  {
    OverlapIffCommonPoint(shellA, shellB);
    assert shellA.box.Contains(shellA.us[i], shellA.vs[i]);
    assert shellB.box.Contains(shellA.us[i], shellA.vs[i]);
  }
}
