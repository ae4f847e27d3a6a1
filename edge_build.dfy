/**
 * Construction of UV edges from the corners of a polygon face
 * (uvChecker/src/findUvOverlaps2.cpp:165-233).
 *
 * Corner k of a face is joined with the next corner, wrapping from the last
 * corner to the first. The first pair with an unmapped corner stops the
 * face: the command leaves the corner loop with `break`, so no later corner
 * pair of that face yields an edge. Each edge stores its endpoints in the
 * order given by the point comparison `greater` (UvPoint's `operator>`,
 * which is not part of this model and is a parameter here).
 */
module EdgeBuild {
  import opened UvTypes
  import opened EdgeKeys

  /**
   * A face corner as the mesh reports it: unmapped, or mapped to a UV index at (u, v).
   * The coordinates are taken as given: they are the ones `getPolygonUV` reads for the
   * corner, and the model does not link them to the UV arrays of the mesh (entry `uvId`
   * of `getUVs`), which the source takes to agree with them.
   */
  datatype Corner = Unmapped | Mapped(uvId: nat, u: real, v: real)

  /** Every mapped corner of the face names a UV index below `numUvs`. */
  predicate MappedBelow(face: seq<Corner>, numUvs: nat) {
    forall k :: 0 <= k < |face| && face[k].Mapped? ==> face[k].uvId < numUvs
  }

  /** The local index of the corner that follows corner `k` on a face of `n` corners. */
  function NextCorner(k: nat, n: nat): (j: nat)
    requires k < n
    ensures j < n && j == (k + 1) % n
  {
    if k == n - 1 then
      assert (k + 1) % n == 0 by { assert k + 1 == 1 * n; }
      0
    else
      assert (k + 1) % n == k + 1 by { assert k + 1 == 0 * n + (k + 1); }
      k + 1
  }

  /** The UV point of a mapped corner, placed in shell `shell`. */
  function CornerPoint(c: Corner, shell: nat): (p: UvPoint)
    requires c.Mapped?
    ensures p.index == c.uvId && p.shellIndex == shell && p.u == c.u && p.v == c.v
  {
    UvPoint(c.u, c.v, c.uvId, shell)
  }

  /**
   * The edge from corner `a` to corner `b`: both points take the shell of
   * `a`'s UV, and the endpoints are swapped when the first is the greater.
   */
  function MakeEdge(a: Corner, b: Corner, shellIds: seq<nat>, greater: (UvPoint, UvPoint) -> bool): (e: UvEdge)
    requires a.Mapped? && b.Mapped? && a.uvId < |shellIds|
    ensures e.key == EdgeKey(a.uvId, b.uvId)
    ensures e.begin.shellIndex == shellIds[a.uvId] && e.end.shellIndex == shellIds[a.uvId]
    ensures var p, q := CornerPoint(a, shellIds[a.uvId]), CornerPoint(b, shellIds[a.uvId]);
      (e.begin == p && e.end == q) || (e.begin == q && e.end == p)
  {
    var shell := shellIds[a.uvId];
    var p1, p2 := CornerPoint(a, shell), CornerPoint(b, shell);
    if greater(p1, p2) then UvEdge(p2, p1, EdgeKey(a.uvId, b.uvId))
    else UvEdge(p1, p2, EdgeKey(a.uvId, b.uvId))
  }

  /**
   * A stored edge never has its begin point greater than its end point,
   * provided the comparison does not rank the two corner points both ways.
   */
  lemma MakeEdgeOrdered(a: Corner, b: Corner, shellIds: seq<nat>, greater: (UvPoint, UvPoint) -> bool)
    requires a.Mapped? && b.Mapped? && a.uvId < |shellIds|
    requires var s := shellIds[a.uvId]; var p, q := CornerPoint(a, s), CornerPoint(b, s);
      !(greater(p, q) && greater(q, p))
    ensures var e := MakeEdge(a, b, shellIds, greater); !greater(e.begin, e.end)
  {
  }

  /**
   * Two faces that share an edge and walk it in opposite directions build the
   * same edge, so the shell's edge set holds it once, whenever the comparison
   * ranks the two distinct corner points exactly one way.
   */
  lemma MakeEdgeShared(a: Corner, b: Corner, shellIds: seq<nat>, greater: (UvPoint, UvPoint) -> bool)
    requires a.Mapped? && b.Mapped? && a.uvId < |shellIds| && b.uvId < |shellIds|
    requires shellIds[a.uvId] == shellIds[b.uvId]
    requires var s := shellIds[a.uvId]; var p, q := CornerPoint(a, s), CornerPoint(b, s);
      p != q ==> (greater(p, q) <==> !greater(q, p))
    ensures MakeEdge(a, b, shellIds, greater) == MakeEdge(b, a, shellIds, greater)
  {
    EdgeKeyInjective(a.uvId, b.uvId, b.uvId, a.uvId);
  }

  /**
   * Two distinct corner points that the comparison ranks neither way (two
   * UVs stacked on the same position) give the two walking directions two
   * different edges: reversed copies of each other under the same key.
   */
  lemma MakeEdgeStacked(a: Corner, b: Corner, shellIds: seq<nat>, greater: (UvPoint, UvPoint) -> bool)
    requires a.Mapped? && b.Mapped? && a.uvId < |shellIds| && b.uvId < |shellIds|
    requires shellIds[a.uvId] == shellIds[b.uvId]
    requires var s := shellIds[a.uvId]; var p, q := CornerPoint(a, s), CornerPoint(b, s);
      p != q && !greater(p, q) && !greater(q, p)
    ensures var e, f := MakeEdge(a, b, shellIds, greater), MakeEdge(b, a, shellIds, greater);
      e.key == f.key && e.begin == f.end && e.end == f.begin && e != f
  {
    EdgeKeyInjective(a.uvId, b.uvId, b.uvId, a.uvId);
  }

  /** The first corner pair, from corner `k` on, that has an unmapped corner (|face| if none). */
  function FirstBreakFrom(face: seq<Corner>, k: nat): (b: nat)
    requires k <= |face|
    ensures k <= b <= |face|
    ensures forall j :: k <= j < b ==> face[j].Mapped? && face[NextCorner(j, |face|)].Mapped?
    ensures b < |face| ==> face[b].Unmapped? || face[NextCorner(b, |face|)].Unmapped?
    decreases |face| - k
  {
    if k == |face| then k
    else if face[k].Unmapped? || face[NextCorner(k, |face|)].Unmapped? then k
    else FirstBreakFrom(face, k + 1)
  }

  /** The number of corner pairs the command turns into edges before it leaves the face. */
  function FirstBreak(face: seq<Corner>): (b: nat)
    ensures b <= |face|
    ensures forall j :: 0 <= j < b ==> face[j].Mapped? && face[NextCorner(j, |face|)].Mapped?
    ensures b < |face| ==> face[b].Unmapped? || face[NextCorner(b, |face|)].Unmapped?
  {
    FirstBreakFrom(face, 0)
  }

  /** The edges one face contributes, in corner order. */
  function FaceEdges(face: seq<Corner>, shellIds: seq<nat>, greater: (UvPoint, UvPoint) -> bool): (edges: seq<UvEdge>)
    requires MappedBelow(face, |shellIds|)
    ensures |edges| <= |face|
    ensures forall k :: 0 <= k < |edges| ==> edges[k].begin.shellIndex == edges[k].end.shellIndex
  {
    seq(FirstBreak(face), k requires 0 <= k < FirstBreak(face) =>
      MakeEdge(face[k], face[NextCorner(k, |face|)], shellIds, greater))
  }

  /** Edge k of a face joins corner k with corner (k + 1) mod n. */
  lemma FaceEdgesWrap(face: seq<Corner>, shellIds: seq<nat>, greater: (UvPoint, UvPoint) -> bool, k: nat)
    requires MappedBelow(face, |shellIds|)
    requires k < |FaceEdges(face, shellIds, greater)|
    ensures face[k].Mapped? && face[(k + 1) % |face|].Mapped?
    ensures FaceEdges(face, shellIds, greater)[k].key == EdgeKey(face[k].uvId, face[(k + 1) % |face|].uvId)
  {
    assert face[k].Mapped? && face[NextCorner(k, |face|)].Mapped?;
  }

  /**
   * A face yields one edge per corner exactly when all its corners are
   * mapped; otherwise it stops at its first pair with an unmapped corner.
   */
  lemma {:induction false} FaceEdgesCount(face: seq<Corner>, shellIds: seq<nat>, greater: (UvPoint, UvPoint) -> bool)
    requires MappedBelow(face, |shellIds|)
    ensures |FaceEdges(face, shellIds, greater)| == |face| <==> forall k :: 0 <= k < |face| ==> face[k].Mapped?
  {
    var b := FirstBreak(face);
    assert |FaceEdges(face, shellIds, greater)| == b;
    if b < |face| {
      assert face[b].Unmapped? || face[NextCorner(b, |face|)].Unmapped?;
    } else {
      forall k | 0 <= k < |face| ensures face[k].Mapped? {
        assert face[k].Mapped? && face[NextCorner(k, |face|)].Mapped?;
      }
    }
  }

  /** Every edge set holds its original edges plus the edges of `added` that begin in its shell. */
  ghost predicate EdgesAdded(edgeSets: seq<set<UvEdge>>, edgeSets': seq<set<UvEdge>>, added: seq<UvEdge>) {
    |edgeSets'| == |edgeSets| &&
    forall s :: 0 <= s < |edgeSets| ==>
      edgeSets'[s] == edgeSets[s] + (set e | e in added && e.begin.shellIndex == s)
  }

  /** Adding one edge to the set of the shell it begins in adds it to the edges so far. */
  lemma AddEdgeStep(edgeSets: seq<set<UvEdge>>, edgeSets': seq<set<UvEdge>>, added: seq<UvEdge>, edge: UvEdge)
    requires EdgesAdded(edgeSets, edgeSets', added) && edge.begin.shellIndex < |edgeSets|
    ensures var shell := edge.begin.shellIndex;
      EdgesAdded(edgeSets, edgeSets'[shell := edgeSets'[shell] + {edge}], added + [edge])
  {
    var shell := edge.begin.shellIndex;
    forall s | 0 <= s < |edgeSets|
      ensures edgeSets'[shell := edgeSets'[shell] + {edge}][s]
        == edgeSets[s] + (set e | e in added + [edge] && e.begin.shellIndex == s)
    {
      if s == shell {
        assert (set e | e in added + [edge] && e.begin.shellIndex == s)
          == (set e | e in added && e.begin.shellIndex == s) + {edge};
      } else {
        assert (set e | e in added + [edge] && e.begin.shellIndex == s)
          == (set e | e in added && e.begin.shellIndex == s);
      }
    }
  }

  /**
   * The corner loop of lines 167-232 for one face: it adds every edge the
   * face yields to the edge set of the shell its first corner's UV lies in.
   */
  method AddFaceEdges(face: seq<Corner>, shellIds: seq<nat>, greater: (UvPoint, UvPoint) -> bool,
                      edgeSets: seq<set<UvEdge>>)
    returns (edgeSets': seq<set<UvEdge>>)
    requires MappedBelow(face, |shellIds|)
    requires forall i :: 0 <= i < |shellIds| ==> shellIds[i] < |edgeSets|
    ensures |edgeSets'| == |edgeSets|
    ensures forall s :: 0 <= s < |edgeSets| ==>
      edgeSets'[s] == edgeSets[s] + (set e | e in FaceEdges(face, shellIds, greater) && e.begin.shellIndex == s)
  {
    ghost var all := FaceEdges(face, shellIds, greater);
    edgeSets' := edgeSets;
    var n := |face|;
    var localVtx := 0;
    while localVtx < n
      invariant localVtx <= FirstBreak(face)
      invariant EdgesAdded(edgeSets, edgeSets', all[..localVtx])
    {
      var cur := localVtx;
      var next := NextCorner(localVtx, n);
      if face[cur].Unmapped? || face[next].Unmapped? {
        break;
      }
      var shell := shellIds[face[cur].uvId];
      var edge := MakeEdge(face[cur], face[next], shellIds, greater);
      assert all[..localVtx + 1] == all[..localVtx] + [edge];
      AddEdgeStep(edgeSets, edgeSets', all[..localVtx], edge);
      edgeSets' := edgeSets'[shell := edgeSets'[shell] + {edge}];
      localVtx := localVtx + 1;
    }
    assert |all| == FirstBreak(face);
    assert all[..localVtx] == all;
  }
}
