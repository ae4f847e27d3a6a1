/**
 * Setting up the UV shells of a mesh (uvChecker/src/findUvOverlaps2.cpp:133-233):
 * the coordinates of every UV go to the shell the mesh assigns it to, each
 * shell gets the bounding box of its coordinates, and the edges of every
 * face go to the edge set of their shell.
 *
 * The mesh queries are inputs here: `shellIds` is the shell of every UV,
 * `us`/`vs` its coordinates, and `faces` the corners of every polygon.
 */
module ShellBuild {
  import opened UvTypes
  import opened EdgeBuild
  import opened Shells

  /** The values of `xs` whose UV lies in shell `s`, in UV-index order. */
  function ShellValues(xs: seq<real>, shellIds: seq<nat>, s: nat): (r: seq<real>)
    requires |xs| == |shellIds|
    ensures |r| <= |xs|
    ensures forall x :: x in r <==> exists k :: 0 <= k < |xs| && shellIds[k] == s && xs[k] == x
    decreases |xs|
  {
    if xs == [] then []
    else
      var n := |xs| - 1;
      var r := ShellValues(xs[..n], shellIds[..n], s) + (if shellIds[n] == s then [xs[n]] else []);
      assert forall k :: 0 <= k < n ==> xs[..n][k] == xs[k] && shellIds[..n][k] == shellIds[k];
      r
  }

  /** A shell that some UV is assigned to has coordinates, so its bounding box exists. */
  lemma ShellValuesNonEmpty(xs: seq<real>, shellIds: seq<nat>, s: nat)
    requires |xs| == |shellIds|
    ensures |ShellValues(xs, shellIds, s)| > 0 <==> s in shellIds
  {
    var r := ShellValues(xs, shellIds, s);
    if s in shellIds {
      var k :| 0 <= k < |shellIds| && shellIds[k] == s;
      assert xs[k] in r;
    }
    if |r| > 0 {
      assert r[0] in r;
    }
  }

  predicate MeshMappedBelow(faces: seq<seq<Corner>>, numUvs: nat) {
    forall f :: 0 <= f < |faces| ==> MappedBelow(faces[f], numUvs)
  }

  /** The edges of all faces, face after face. */
  function MeshEdges(faces: seq<seq<Corner>>, shellIds: seq<nat>, greater: (UvPoint, UvPoint) -> bool): (edges: seq<UvEdge>)
    requires MeshMappedBelow(faces, |shellIds|)
    decreases |faces|
  {
    if faces == [] then []
    else
      var n := |faces| - 1;
      MeshEdges(faces[..n], shellIds, greater) + FaceEdges(faces[n], shellIds, greater)
  }

  /** The edge set of shell `s`: the face edges whose points lie in `s`. */
  function ShellEdges(faces: seq<seq<Corner>>, shellIds: seq<nat>, greater: (UvPoint, UvPoint) -> bool, s: nat)
    : (r: set<UvEdge>)
    requires MeshMappedBelow(faces, |shellIds|)
    ensures forall e :: e in r ==> e.begin.shellIndex == s && e.end.shellIndex == s
  {
    var all := MeshEdges(faces, shellIds, greater);
    assert forall e :: e in all ==> e.begin.shellIndex == e.end.shellIndex by {
      MeshEdgesOneShell(faces, shellIds, greater);
    }
    set e | e in all && e.begin.shellIndex == s
  }

  /** Both points of every face edge lie in the same shell. */
  lemma {:induction false} MeshEdgesOneShell(faces: seq<seq<Corner>>, shellIds: seq<nat>, greater: (UvPoint, UvPoint) -> bool)
    requires MeshMappedBelow(faces, |shellIds|)
    ensures forall e :: e in MeshEdges(faces, shellIds, greater) ==> e.begin.shellIndex == e.end.shellIndex
    decreases |faces|
  {
    if faces != [] {
      MeshEdgesOneShell(faces[..|faces| - 1], shellIds, greater);
    }
  }

  /** Adding one more face adds that face's edges of shell `s`. */
  lemma ShellEdgesAppend(faces: seq<seq<Corner>>, shellIds: seq<nat>, greater: (UvPoint, UvPoint) -> bool,
                         f: nat, s: nat)
    requires MeshMappedBelow(faces, |shellIds|)
    requires f < |faces|
    ensures ShellEdges(faces[..f + 1], shellIds, greater, s)
      == ShellEdges(faces[..f], shellIds, greater, s)
         + (set e | e in FaceEdges(faces[f], shellIds, greater) && e.begin.shellIndex == s)
  {
    assert faces[..f + 1][..f] == faces[..f];
  }

  /** Lines 142-149: the coordinates of every UV are appended to its shell's vectors. */
  method GroupByShell(nbUvShells: nat, shellIds: seq<nat>, us: seq<real>, vs: seq<real>)
    returns (uVectors: seq<seq<real>>, vVectors: seq<seq<real>>)
    requires |us| == |shellIds| && |vs| == |shellIds|
    requires forall k :: 0 <= k < |shellIds| ==> shellIds[k] < nbUvShells
    ensures |uVectors| == nbUvShells && |vVectors| == nbUvShells
    ensures forall s :: 0 <= s < nbUvShells ==>
      uVectors[s] == ShellValues(us, shellIds, s) && vVectors[s] == ShellValues(vs, shellIds, s)
  {
    uVectors := seq(nbUvShells, _ => []);
    vVectors := seq(nbUvShells, _ => []);
    var uvId := 0;
    while uvId < |us|
      invariant uvId <= |us|
      invariant |uVectors| == nbUvShells && |vVectors| == nbUvShells
      invariant forall s :: 0 <= s < nbUvShells ==>
        uVectors[s] == ShellValues(us[..uvId], shellIds[..uvId], s) &&
        vVectors[s] == ShellValues(vs[..uvId], shellIds[..uvId], s)
    {
      var sh := shellIds[uvId];
      assert us[..uvId + 1][..uvId] == us[..uvId];
      assert vs[..uvId + 1][..uvId] == vs[..uvId];
      assert shellIds[..uvId + 1][..uvId] == shellIds[..uvId];
      uVectors := uVectors[sh := uVectors[sh] + [us[uvId]]];
      vVectors := vVectors[sh := vVectors[sh] + [vs[uvId]]];
      uvId := uvId + 1;
    }
    assert us[..uvId] == us && vs[..uvId] == vs && shellIds[..uvId] == shellIds;
  }

  /** Lines 151-162: the bounding box of every shell's coordinates. */
  method ShellBoxes(uVectors: seq<seq<real>>, vVectors: seq<seq<real>>) returns (boxes: seq<Box>)
    requires |uVectors| == |vVectors|
    requires forall s :: 0 <= s < |uVectors| ==> |uVectors[s]| > 0 && |vVectors[s]| > 0
    ensures |boxes| == |uVectors|
    ensures forall s :: 0 <= s < |boxes| ==> boxes[s] == BoundingBox(uVectors[s], vVectors[s])
  {
    boxes := [];
    var id := 0;
    while id < |uVectors|
      invariant id <= |uVectors|
      invariant |boxes| == id
      invariant forall s :: 0 <= s < id ==> boxes[s] == BoundingBox(uVectors[s], vVectors[s])
    {
      boxes := boxes + [BoundingBox(uVectors[id], vVectors[id])];
      id := id + 1;
    }
  }

  /** Lines 164-233: every face adds its edges to the edge sets of their shells. */
  method ShellEdgeSets(nbUvShells: nat, shellIds: seq<nat>, faces: seq<seq<Corner>>,
                       greater: (UvPoint, UvPoint) -> bool)
    returns (edgeSets: seq<set<UvEdge>>)
    requires forall k :: 0 <= k < |shellIds| ==> shellIds[k] < nbUvShells
    requires MeshMappedBelow(faces, |shellIds|)
    ensures |edgeSets| == nbUvShells
    ensures forall s :: 0 <= s < nbUvShells ==> edgeSets[s] == ShellEdges(faces, shellIds, greater, s)
  {
    edgeSets := seq(nbUvShells, _ => {});
    var faceId := 0;
    while faceId < |faces|
      invariant faceId <= |faces|
      invariant |edgeSets| == nbUvShells
      invariant forall s :: 0 <= s < nbUvShells ==>
        edgeSets[s] == ShellEdges(faces[..faceId], shellIds, greater, s)
    {
      forall s | 0 <= s < nbUvShells {
        ShellEdgesAppend(faces, shellIds, greater, faceId, s);
      }
      edgeSets := AddFaceEdges(faces[faceId], shellIds, greater, edgeSets);
      faceId := faceId + 1;
    }
    assert faces[..faceId] == faces;
  }

  /**
   * Lines 133-233: one shell per shell index, holding the coordinates of its
   * UVs, their bounding box and the edges of the faces that lie in it.
   */
  method BuildShells(nbUvShells: nat, shellIds: seq<nat>, us: seq<real>, vs: seq<real>,
                     faces: seq<seq<Corner>>, greater: (UvPoint, UvPoint) -> bool)
    returns (shells: seq<Shell>)
    requires |us| == |shellIds| && |vs| == |shellIds|
    requires forall k :: 0 <= k < |shellIds| ==> shellIds[k] < nbUvShells
    requires forall s :: 0 <= s < nbUvShells ==> s in shellIds
    requires MeshMappedBelow(faces, |shellIds|)
    ensures |shells| == nbUvShells
    ensures forall s :: 0 <= s < nbUvShells ==>
      && shells[s].us == ShellValues(us, shellIds, s)
      && shells[s].vs == ShellValues(vs, shellIds, s)
      && |shells[s].us| > 0 && |shells[s].vs| > 0
      && shells[s].box == BoundingBox(shells[s].us, shells[s].vs)
      && shells[s].edges == ShellEdges(faces, shellIds, greater, s)
  {
    var uVectors, vVectors := GroupByShell(nbUvShells, shellIds, us, vs);
    forall s | 0 <= s < nbUvShells ensures |uVectors[s]| > 0 && |vVectors[s]| > 0 {
      ShellValuesNonEmpty(us, shellIds, s);
      ShellValuesNonEmpty(vs, shellIds, s);
    }
    var boxes := ShellBoxes(uVectors, vVectors);
    var edgeSets := ShellEdgeSets(nbUvShells, shellIds, faces, greater);
    shells := seq(nbUvShells, s requires 0 <= s < nbUvShells =>
      Shell(uVectors[s], vVectors[s], boxes[s], edgeSets[s]));
  }
}
