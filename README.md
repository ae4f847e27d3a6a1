# UV overlap detection, modelled in Dafny

This project models the engine of the `findUvOverlaps2` Maya command
(`uvChecker/src/findUvOverlaps2.cpp`). The command reports every UV of a mesh
that lies on an edge crossing another UV edge.

- **Shells.** The UVs are grouped into shells, one per shell index Maya
  assigns. Each shell gets the bounding box of its coordinates.
- **Edges.** Each face adds its edges to the edge set of its shell. An edge
  joins two consecutive corners of the face and starts at the smaller of
  its two UV points. The source gives it an integer key built from the
  decimal text of the two UV indices; the model keys an edge by the
  ordered pair of indices (`EdgeId`), because the integer key is not
  injective (see Findings).
- **One shell.** A single shell is swept on its own.
- **Several shells.** Every pair of shells, in lexicographic order, is
  generated with `std::prev_permutation` over a two-bit mask. Each pair
  whose boxes overlap is swept as one combined edge set. Each shell that
  overlaps no other shell is swept alone.
- **The sweep.** Begin and end events of every edge are sorted and popped
  in order, and a status queue holds the edges the sweep line currently
  crosses. A begin event inserts its edge, re-sorts the queue and tests
  the edge against its neighbours. An end event tests the edge's two
  neighbours against each other and removes the edge. An intersect event
  tests the outer neighbours of the crossing pair. Every intersecting pair
  adds its four UV indices to the result set. A pair that is not parallel
  also queues an intersect event, and the event queue is re-sorted.

Module layout, one file each:

- `uv_types.dfy` (`UvTypes`): the value types.
- `edge_key.dfy` (`EdgeKeys`): the edge key.
- `edge_build.dfy` (`EdgeBuild`): the edges of one face.
- `shells.dfy` (`Shells`): bounding boxes and the box overlap test.
- `shell_build.dfy` (`ShellBuild`): building the shells of a mesh.
- `combinations.dfy` (`Combinations`): `makeCombinations` and `prev_permutation`.
- `sorting.dfy` (`Sorting`): the sort the sweep uses.
- `pairing.dfy` (`Pairing`): choosing the edge sets to sweep.
- `sweep.dfy` (`Sweep`): the plane sweep; the `OverlapFinder` class holds `resultSet`.
- `command.dfy` (`Command`): the top level.

The floating-point geometry is given as parameters:

- the intersection test;
- the order of edges along the sweep line at a given `v`;
- the order of events;
- the `>` order of UV points.

The Maya API calls become inputs:

- the UV coordinates;
- the shell index of each UV;
- each face's corners, where a corner is mapped or unmapped.

## Model

| member | source | states |
|---|---|---|
| UvTypes.UvEdge.Endpoints | uvChecker/src/findUvOverlaps2.cpp:527 | the ids an edge adds to the result are its begin and end UV index, and no others |
| EdgeKeys.Decimal | uvChecker/src/findUvOverlaps2.cpp:200-206 | the decimal text of an index is non-empty, all digits, and has no leading zero unless the index is 0 |
| EdgeKeys.ParseDecimal | uvChecker/src/findUvOverlaps2.cpp:208 | reading a string of k digits as a number gives a value below 10^k |
| EdgeKeys.ParseDecimalOfDecimal | uvChecker/src/findUvOverlaps2.cpp:200-208 | reading back the decimal text of an index gives the index (round trip) |
| EdgeKeys.ParseDecimalAppend | uvChecker/src/findUvOverlaps2.cpp:208 | the value of concatenated digit strings is the first value shifted by the length of the second, plus the second |
| EdgeKeys.EdgeKeyText | uvChecker/src/findUvOverlaps2.cpp:199-208 | the key text is all digits, begins with "1" and is as long as "1" plus both indices' texts |
| EdgeKeys.EdgeKeyTextSymmetric | uvChecker/src/findUvOverlaps2.cpp:199-208 | the key text and the key do not depend on the order of the two UV indices |
| EdgeKeys.EdgeKeyTextOrder | uvChecker/src/findUvOverlaps2.cpp:199-206 | the key text is "1", then the smaller index, then the larger one |
| EdgeKeys.EdgeIndexAsWritten | uvChecker/src/findUvOverlaps2.cpp:208 | the key as written is at least 10^(digits of both indices), because of the leading "1" |
| EdgeKeys.EdgeIndexAsWrittenValue | uvChecker/src/findUvOverlaps2.cpp:208 | the key as written equals 10^(digits of both indices) + the smaller index followed by as many zeros as the larger has digits + the larger index |
| EdgeKeys.Shift10IsProduct | uvChecker/src/findUvOverlaps2.cpp:208 | appending k zeros to a number multiplies it by 10^k |
| EdgeKeys.ParseLeadingOne | uvChecker/src/findUvOverlaps2.cpp:208 | a leading "1" before k digits adds 10^k to their value |
| EdgeKeys.LeadingOneValue | uvChecker/src/findUvOverlaps2.cpp:208 | "1", then the digits of one index, then those of the other, reads as 10^(all digits) + the first shifted past the second + the second |
| EdgeKeys.EdgeIndexAsWrittenCollides | uvChecker/src/findUvOverlaps2.cpp:208 | the edges (1, 123) and (11, 23) get the same key 11123, although they are different edges |
| EdgeKeys.EdgeKey | uvChecker/src/findUvOverlaps2.cpp:199-208 | the corrected key holds the two indices ordered smaller-first |
| EdgeKeys.EdgeKeyInjective | uvChecker/src/findUvOverlaps2.cpp:199-208 | two corrected keys are equal exactly when they join the same two UVs, in either order |
| EdgeBuild.NextCorner | uvChecker/src/findUvOverlaps2.cpp:169-175 | the corner after the last is the first; otherwise the next one |
| EdgeBuild.CornerPoint | uvChecker/src/findUvOverlaps2.cpp:211-216 | a corner's point carries its UV index, its coordinates and the shell of the edge's first UV |
| EdgeBuild.MakeEdge | uvChecker/src/findUvOverlaps2.cpp:190-229 | an edge joins the two corner points in one order or the other, both in the first UV's shell, with the key of the two UV indices |
| EdgeBuild.MakeEdgeOrdered | uvChecker/src/findUvOverlaps2.cpp:218-226 | the begin point of an edge is never greater than its end point, whenever the comparison does not rank the two corner points both ways |
| EdgeBuild.MakeEdgeShared | uvChecker/src/findUvOverlaps2.cpp:190-229 | two faces sharing a side build the same edge from it, whichever direction they walk it, whenever the comparison ranks the two distinct corner points exactly one way |
| EdgeBuild.MakeEdgeStacked | uvChecker/src/findUvOverlaps2.cpp:190-229 | two distinct corner points ranked neither way (UVs stacked on one position) give the two walking directions two different edges: reversed copies of each other with the same key |
| EdgeBuild.FirstBreakFrom | uvChecker/src/findUvOverlaps2.cpp:181-188 | every corner before the break has a mapped corner and successor; at the break one of the two is unmapped |
| EdgeBuild.FirstBreak | uvChecker/src/findUvOverlaps2.cpp:181-188 | the corner loop of a face stops at the first corner pair that is not mapped |
| EdgeBuild.FaceEdges | uvChecker/src/findUvOverlaps2.cpp:167-232 | a face yields at most one edge per corner, and each edge has both its points in one shell |
| EdgeBuild.FaceEdgesWrap | uvChecker/src/findUvOverlaps2.cpp:167-208 | the k-th edge of a face joins corner k and corner k+1 (wrapping to 0) |
| EdgeBuild.FaceEdgesCount | uvChecker/src/findUvOverlaps2.cpp:167-188 | a face yields one edge per corner exactly when all its corners are mapped |
| EdgeBuild.AddFaceEdges | uvChecker/src/findUvOverlaps2.cpp:167-232 | every shell's edge set grows by exactly the face's edges in that shell |
| EdgeBuild.AddEdgeStep | uvChecker/src/findUvOverlaps2.cpp:229-231 | inserting one edge into the set of the shell it begins in keeps "each set = its old edges + the added edges of that shell" |
| Shells.SeqMin | uvChecker/src/findUvOverlaps2.cpp:156-157 | the minimum is an element and no element is below it |
| Shells.SeqMax | uvChecker/src/findUvOverlaps2.cpp:154-155 | the maximum is an element and no element is above it |
| Shells.BoundingBox | uvChecker/src/findUvOverlaps2.cpp:151-162 | the box is well formed, holds every coordinate, and each bound is one of the coordinates |
| Shells.OverlapSymmetricAndSeparated | uvChecker/src/findUvOverlaps2.cpp:332-347 | the box test is symmetric, and fails exactly when one box lies strictly to one side of the other |
| Shells.IsShellOverlapped | uvChecker/src/findUvOverlaps2.cpp:332-347 | the bounding-box test of two shells; `OverlapSymmetricAndSeparated` states that it is symmetric and false exactly when one box lies strictly to one side of the other |
| Shells.OverlapIffCommonPoint | uvChecker/src/findUvOverlaps2.cpp:332-347 | two well-formed boxes pass the test exactly when some point lies in both |
| Shells.SharedPointOverlaps | uvChecker/src/findUvOverlaps2.cpp:332-347 | two shells that have a UV coordinate in common always pass the box test |
| ShellBuild.ShellValues | uvChecker/src/findUvOverlaps2.cpp:142-149 | a shell's vector holds exactly the coordinates of the UVs of that shell |
| ShellBuild.ShellValuesNonEmpty | uvChecker/src/findUvOverlaps2.cpp:151-162 | a shell's vector is non-empty exactly when some UV has that shell index, which `max_element` needs |
| ShellBuild.ShellEdges | uvChecker/src/findUvOverlaps2.cpp:164-233 | every edge in a shell's edge set has both points in that shell |
| ShellBuild.MeshEdgesOneShell | uvChecker/src/findUvOverlaps2.cpp:190-229 | every edge built from the mesh has its two points in the same shell |
| ShellBuild.MeshEdges | uvChecker/src/findUvOverlaps2.cpp:164-233 | the edges of all faces, face after face; `MeshEdgesOneShell` states that each has both points in one shell |
| ShellBuild.ShellEdgesAppend | uvChecker/src/findUvOverlaps2.cpp:164-233 | one more face adds exactly its edges of that shell to the shell's set |
| ShellBuild.GroupByShell | uvChecker/src/findUvOverlaps2.cpp:142-149 | one u and one v vector per shell, each holding the coordinates of the shell's UVs |
| ShellBuild.ShellBoxes | uvChecker/src/findUvOverlaps2.cpp:151-162 | each shell's box is the bounding box of its coordinates |
| ShellBuild.ShellEdgeSets | uvChecker/src/findUvOverlaps2.cpp:164-233 | each shell's edge set is the set of mesh edges in that shell |
| ShellBuild.BuildShells | uvChecker/src/findUvOverlaps2.cpp:133-233 | one shell per index, with its coordinates, its non-empty vectors, its bounding box and its edge set |
| Combinations.Row | uvChecker/src/findUvOverlaps2.cpp:539-554 | the pairs [i, j'] for j <= j' < n number n - j |
| Combinations.PairsFrom | uvChecker/src/findUvOverlaps2.cpp:539-554 | the pairs from first index i on are valid pairs i' < j' < n with i' >= i |
| Combinations.AllPairs | uvChecker/src/findUvOverlaps2.cpp:539-554 | every combination is a valid pair i < j < n |
| Combinations.PairsFromMembers | uvChecker/src/findUvOverlaps2.cpp:539-554 | the pairs from first index i on are exactly the pairs i' < j' < n with i' >= i |
| Combinations.AllPairsMembers | uvChecker/src/findUvOverlaps2.cpp:539-554 | the combinations are exactly the pairs i < j < n |
| Combinations.PairsFromSorted | uvChecker/src/findUvOverlaps2.cpp:539-554 | the pairs from index i on are valid and strictly increasing in lexicographic order |
| Combinations.AllPairsSorted | uvChecker/src/findUvOverlaps2.cpp:539-554 | the combinations are valid pairs, strictly increasing in lexicographic order, so there are no duplicates |
| Combinations.PairsFromCount | uvChecker/src/findUvOverlaps2.cpp:539-554 | there are (n-i)(n-i-1)/2 pairs from index i on |
| Combinations.AllPairsCount | uvChecker/src/findUvOverlaps2.cpp:539-554 | there are n(n-1)/2 combinations |
| Combinations.LastDescent | uvChecker/src/findUvOverlaps2.cpp:553 | finds the last position where the mask steps down, as `prev_permutation` scans for it |
| Combinations.LastUnset | uvChecker/src/findUvOverlaps2.cpp:553 | finds the last unset flag at or before a position, the element `prev_permutation` swaps with |
| Combinations.PrevPermutation | uvChecker/src/findUvOverlaps2.cpp:553 | the previous permutation of a mask has the mask's length |
| Combinations.Reverse | uvChecker/src/findUvOverlaps2.cpp:553 | the reversed tail has the same length and holds the elements mirrored |
| Combinations.PrevPermutationSteps | uvChecker/src/findUvOverlaps2.cpp:553 | on a mask with a descent, `prev_permutation` answers true and swaps at the last descent with the last unset flag after it, then mirrors the tail |
| Combinations.SwapReverseTailRow | uvChecker/src/findUvOverlaps2.cpp:553 | for mask {i, j} with j not last, the swap and mirror give mask {i, j+1} |
| Combinations.SwapReverseTailDown | uvChecker/src/findUvOverlaps2.cpp:553 | for mask {i, n-1} with i+2 < n, the swap and mirror give mask {i+1, i+2} |
| Combinations.SwapReverseTail | uvChecker/src/findUvOverlaps2.cpp:553 | after swapping at the descent, the flags before it are kept, the descent takes the swapped-in flag and the tail is mirrored |
| Combinations.LastDescentOfMask | uvChecker/src/findUvOverlaps2.cpp:553 | the last descent of mask {i, j} is j when j is not last, i when only j is last, and none for {n-2, n-1} |
| Combinations.LastUnsetOfMask | uvChecker/src/findUvOverlaps2.cpp:553 | the last unset flag of mask {i, j} is n-1 when j is not last, else n-2 |
| Combinations.Mask | uvChecker/src/findUvOverlaps2.cpp:541-542 | the mask with flags i and j set has length n |
| Combinations.PrevPermutationStepsRow | uvChecker/src/findUvOverlaps2.cpp:553 | the mask {i, j} steps to {i, j+1} while j+1 < n |
| Combinations.PrevPermutationStepsDown | uvChecker/src/findUvOverlaps2.cpp:553 | the mask {i, n-1} steps to {i+1, i+2} |
| Combinations.PrevPermutationStops | uvChecker/src/findUvOverlaps2.cpp:553 | the mask {n-2, n-1} is the last one: `prev_permutation` answers false |
| Combinations.PrevPermutationOfMask | uvChecker/src/findUvOverlaps2.cpp:553 | `prev_permutation` answers true exactly until the last mask, and then yields the mask of the next pair |
| Combinations.SetIndicesExact | uvChecker/src/findUvOverlaps2.cpp:546-551 | the indices collected are exactly the set flags, in ascending order |
| Combinations.SetIndicesOfMask | uvChecker/src/findUvOverlaps2.cpp:546-551 | the set flags of mask {i, j} are [i, j] |
| Combinations.SetBits | uvChecker/src/findUvOverlaps2.cpp:546-551 | the loop collects the indices of the set flags |
| Combinations.PairsAfterStep | uvChecker/src/findUvOverlaps2.cpp:545-553 | the pairs still to emit are the current one followed by those after the next pair |
| Combinations.MaskRound | uvChecker/src/findUvOverlaps2.cpp:545-553 | one round of the do-while emits [i, j] and moves to the mask of the next pair, or stops after the last one |
| Combinations.PairRoundStep | uvChecker/src/findUvOverlaps2.cpp:545-553 | one round from pair (i, j) emits [i, j] and either moves to the next pair with fewer rounds left, or, after the last pair, leaves every pair emitted |
| Combinations.RoundStep | uvChecker/src/findUvOverlaps2.cpp:545-553 | a round of the do-while keeps "pairs emitted + pairs to come = all pairs" with fewer rounds left, and when `prev_permutation` answers false the result is complete |
| Combinations.SmallMaskRound | uvChecker/src/findUvOverlaps2.cpp:541-553 | with fewer than two shells the truncated mask gives one round: [0] for one, [] for none |
| Combinations.MakeCombinations | uvChecker/src/findUvOverlaps2.cpp:539-554 | for N >= 2 the result is every pair i < j < N in lexicographic order; [[0]] for N = 1 and [[]] for N = 0 |
| Pairing.AllPairsBelow | uvChecker/src/findUvOverlaps2.cpp:266-271 | every combination names two shells that exist |
| Pairing.OverlappingAmong | uvChecker/src/findUvOverlaps2.cpp:269-287 | the overlapping pairs are no more than the pairs tested, and name existing shells |
| Pairing.OverlappingAmongMembers | uvChecker/src/findUvOverlaps2.cpp:269-287 | a pair is kept exactly when it is among the tested pairs and its shells' boxes overlap; order is kept |
| Pairing.OverlappingAmongIn | uvChecker/src/findUvOverlaps2.cpp:269-287 | a pair is kept exactly when it is among the tested pairs, is valid and its shells' boxes overlap |
| Pairing.OverlappingAmongSorted | uvChecker/src/findUvOverlaps2.cpp:269-287 | filtering lexicographically sorted pairs keeps them sorted |
| Pairing.OverlappingPairs | uvChecker/src/findUvOverlaps2.cpp:266-287 | the pairs merged name existing shells |
| Pairing.OverlappingPairsExact | uvChecker/src/findUvOverlaps2.cpp:266-287 | the pairs merged are exactly the pairs i < j whose boxes overlap, in lexicographic order |
| Pairing.TouchedMembers | uvChecker/src/findUvOverlaps2.cpp:282-285 | a shell is erased exactly when it is one side of a merged pair |
| Pairing.Touched | uvChecker/src/findUvOverlaps2.cpp:264-285 | the shells named by some merged pair; `TouchedMembers` states that a shell is in it exactly when it is one side of a pair |
| Pairing.BelowMembers | uvChecker/src/findUvOverlaps2.cpp:259-263 | the initial index set holds exactly 0 to n-1 |
| Pairing.Ascending | uvChecker/src/findUvOverlaps2.cpp:289-294 | the remaining indices are visited in strictly ascending order |
| Pairing.AscendingMembers | uvChecker/src/findUvOverlaps2.cpp:289-294 | every remaining index below n is visited |
| Pairing.AscendingCount | uvChecker/src/findUvOverlaps2.cpp:289-294 | as many indices are visited as the set holds below n |
| Pairing.Unions | uvChecker/src/findUvOverlaps2.cpp:277-280 | one combined edge set per merged pair |
| Pairing.EdgeSetsOf | uvChecker/src/findUvOverlaps2.cpp:291-293 | one edge set per remaining index |
| Pairing.OverlapTouches | uvChecker/src/findUvOverlaps2.cpp:269-287 | a shell whose box overlaps another shell's is erased from the index set |
| Pairing.TouchedOverlaps | uvChecker/src/findUvOverlaps2.cpp:269-287 | a shell is erased only if its box overlaps some other shell's |
| Pairing.RemainingIsolated | uvChecker/src/findUvOverlaps2.cpp:259-294 | the indices left after the merge loop are exactly the shells that overlap no other shell |
| Pairing.Remaining | uvChecker/src/findUvOverlaps2.cpp:264-285 | the shells left to be checked on their own; `RemainingIsolated` states that they are exactly the shells overlapping no other shell |
| Pairing.ShellsToCheck | uvChecker/src/findUvOverlaps2.cpp:256-294 | every set checked is made of edges of the shells |
| Pairing.ShellsToCheckCount | uvChecker/src/findUvOverlaps2.cpp:256-294 | the sets to sweep number the overlapping pairs plus the isolated shells |
| Pairing.ShellsToCheckContents | uvChecker/src/findUvOverlaps2.cpp:256-294 | the k-th of the first sets is the union of the k-th overlapping pair's edge sets; every later set is the edge set of a shell that overlaps no other shell |
| Pairing.EveryShellChecked | uvChecker/src/findUvOverlaps2.cpp:256-294 | every shell's edges are contained in some set that is swept |
| Pairing.PairedSetChecked | uvChecker/src/findUvOverlaps2.cpp:269-280 | the k-th set checked is the union of the edge sets of the k-th overlapping pair, a valid pair whose boxes overlap |
| Pairing.AloneSetChecked | uvChecker/src/findUvOverlaps2.cpp:289-294 | every set after the unions is the edge set of a shell that overlaps no other shell |
| Pairing.PairedShellChecked | uvChecker/src/findUvOverlaps2.cpp:269-287 | a shell erased by an overlapping pair has its edges inside some set checked |
| Pairing.AloneShellChecked | uvChecker/src/findUvOverlaps2.cpp:289-294 | a shell left in the index set is checked by its own edge set |
| Pairing.UnionsSnoc | uvChecker/src/findUvOverlaps2.cpp:277-280 | merging one more pair appends its combined edge set |
| Pairing.TouchedSnoc | uvChecker/src/findUvOverlaps2.cpp:284-285 | merging one more pair erases exactly its two shells |
| Pairing.TouchedIndex | uvChecker/src/findUvOverlaps2.cpp:284-285 | both shells of every merged pair are erased |
| Pairing.PushStep | uvChecker/src/findUvOverlaps2.cpp:269-287 | one round of the merge loop keeps the loop state: the unions and the erased indices match the pairs seen so far |
| Pairing.PairStep | uvChecker/src/findUvOverlaps2.cpp:269-287 | one round of the merge loop appends the union and erases both shells if and only if the boxes overlap |
| Pairing.AloneStep | uvChecker/src/findUvOverlaps2.cpp:289-294 | one more index appends its shell's edge set exactly when the index remains |
| Pairing.PushOverlapping | uvChecker/src/findUvOverlaps2.cpp:269-287 | the loop leaves the combined sets of the overlapping pairs and the indices of shells not erased |
| Pairing.PushAlone | uvChecker/src/findUvOverlaps2.cpp:289-294 | the loop appends the edge sets of the remaining shells in ascending index order |
| Pairing.PairShells | uvChecker/src/findUvOverlaps2.cpp:256-294 | the sets pushed are exactly those that the lemmas above characterise |
| Sorting.Insert | uvChecker/src/findUvOverlaps2.cpp:363 | inserting makes the sequence one element longer |
| Sorting.InsertPermutes | uvChecker/src/findUvOverlaps2.cpp:363 | inserting adds exactly the one element: the result is the input plus it, as a multiset |
| Sorting.SortBy | uvChecker/src/findUvOverlaps2.cpp:363 | sorting keeps the length |
| Sorting.SortByPermutes | uvChecker/src/findUvOverlaps2.cpp:363 | sorting is a permutation of its input |
| Sorting.InsertSorted | uvChecker/src/findUvOverlaps2.cpp:363 | inserting into a sorted sequence keeps it sorted, for a strict weak order |
| Sorting.SortBySorted | uvChecker/src/findUvOverlaps2.cpp:363 | the result is sorted, for a strict weak order (the requirement `std::sort` places on its comparator) |
| Sweep.AfterTestsQuiet | uvChecker/src/findUvOverlaps2.cpp:529-533 | tests that queue no intersect event leave the event queue as it was |
| Sweep.AfterTestsEvents | uvChecker/src/findUvOverlaps2.cpp:529-533 | tests add exactly their intersect events to the event queue, and leave it sorted once one is added |
| Sweep.Hits | uvChecker/src/findUvOverlaps2.cpp:526-528 | every tested pair that the intersection test finds intersecting has its four UV indices in the result |
| Sweep.CrossEvents | uvChecker/src/findUvOverlaps2.cpp:529-531 | at most one event per tested pair is queued, and each is an intersect event naming a second edge |
| Sweep.Requeued | uvChecker/src/findUvOverlaps2.cpp:529-533 | testing one pair lengthens the event queue by exactly the intersect events it queues |
| Sweep.AfterTests | uvChecker/src/findUvOverlaps2.cpp:526-533 | testing pairs lengthens the event queue by exactly the intersect events they queue |
| Sweep.NoTests | uvChecker/src/findUvOverlaps2.cpp:523-536 | testing no pair reports nothing and leaves the event queue unchanged |
| Sweep.TwoTests | uvChecker/src/findUvOverlaps2.cpp:430-433 | two tests in a row add the hits of both and re-queue after each |
| Sweep.HitsWithin | uvChecker/src/findUvOverlaps2.cpp:526-528 | tests of edges from a set add only UV indices of that set's edges |
| Sweep.CrossEventsWithin | uvChecker/src/findUvOverlaps2.cpp:529-531 | intersect events of tested edges name only those edges |
| Sweep.EventsWithinMultiset | uvChecker/src/findUvOverlaps2.cpp:532 | re-sorting the event queue introduces no edge that was not there |
| Sweep.HitEndpointsWithin | uvChecker/src/findUvOverlaps2.cpp:526-528 | a sweep can only report UV indices that are endpoints of the swept edges |
| Sweep.HitEndpointsMonotone | uvChecker/src/findUvOverlaps2.cpp:277-280 | sweeping a larger edge set, such as the union of two shells, may report everything the smaller one may |
| Sweep.EventsWithinPop | uvChecker/src/findUvOverlaps2.cpp:372-374 | popping the front of a queue of known events gives a known event of the set and leaves known events |
| Sweep.Find | uvChecker/src/findUvOverlaps2.cpp:409-413 | the first position holding the edge, or none exactly when the edge is absent |
| Sweep.BeginNeighboursExact | uvChecker/src/findUvOverlaps2.cpp:419-434 | a new edge is tested against exactly its neighbours in the status queue: one at either end, two otherwise |
| Sweep.BeginNeighbours | uvChecker/src/findUvOverlaps2.cpp:419-434 | one or two positions are tested, each inside the status queue and different from the new edge's |
| Sweep.BeginPairs | uvChecker/src/findUvOverlaps2.cpp:419-434 | each pair tested joins the new edge with one of its neighbours |
| Sweep.BeginPairsCases | uvChecker/src/findUvOverlaps2.cpp:421-434 | first: next only; last: previous only; otherwise next then previous |
| Sweep.EndPairs | uvChecker/src/findUvOverlaps2.cpp:457-470 | an ending edge's neighbours are tested against each other exactly when it lies strictly inside the status queue |
| Sweep.EndPairsWithin | uvChecker/src/findUvOverlaps2.cpp:457-473 | removing an edge keeps the status queue within the edge set, and its tested neighbours are edges of the set |
| Sweep.CrossAsWrittenInBounds | uvChecker/src/findUvOverlaps2.cpp:503-519 | as written, doCross reads inside the status queue exactly unless the crossing pair spans it from first to last |
| Sweep.CrossAsWrittenReadsPastEnd | uvChecker/src/findUvOverlaps2.cpp:503-506 | with three edges and the crossing pair at positions 0 and 2, doCross reads position 3 |
| Sweep.CrossIndexPairsAsWritten | uvChecker/src/findUvOverlaps2.cpp:503-519 | one or two position pairs, each spanning the crossing pair and one neighbour beyond it |
| Sweep.CrossIndexPairs | uvChecker/src/findUvOverlaps2.cpp:503-519 | the corrected positions always lie inside the status queue |
| Sweep.CrossIndexPairsAgree | uvChecker/src/findUvOverlaps2.cpp:503-519 | wherever the source reads in bounds, the corrected positions are the ones it reads |
| Sweep.EdgesAt | uvChecker/src/findUvOverlaps2.cpp:504-515 | one edge pair per position pair |
| Sweep.CrossPairsCases | uvChecker/src/findUvOverlaps2.cpp:503-519 | the outer neighbours of the crossing pair are tested: after, before, or both, by where the pair lies |
| Sweep.CrossPairs | uvChecker/src/findUvOverlaps2.cpp:477-521 | at most two pairs are tested, and none when the status queue has two edges or fewer, the event names no second edge, or either crossing edge is not in the status queue |
| Sweep.CrossPairsWithin | uvChecker/src/findUvOverlaps2.cpp:477-521 | doCross tests at most two pairs, all drawn from the status queue |
| Sweep.BeginPairsWithin | uvChecker/src/findUvOverlaps2.cpp:419-434 | doBegin tests only edges of the status queue |
| Sweep.TestsWithin | uvChecker/src/findUvOverlaps2.cpp:523-536 | tests of edges from a set keep the result and the event queue within that set |
| Sweep.EdgesWithinMultiset | uvChecker/src/findUvOverlaps2.cpp:394-407 | pushing an edge of the set and re-sorting keeps the status queue within the set |
| Sweep.SeedEvents | uvChecker/src/findUvOverlaps2.cpp:353-362 | visits every edge of the set exactly once, and queues for the k-th a begin event numbered 2k and an end event numbered 2k+1 |
| Sweep.SeededEvents | uvChecker/src/findUvOverlaps2.cpp:353-362 | the seeded queue is twice as long as the edge order, with edge k's begin event at 2k and its end event at 2k+1 |
| Sweep.Seeded | uvChecker/src/findUvOverlaps2.cpp:353-362 | a begin and an end event per edge, in edge order; `SeededEvents` states its length and where each edge's events sit |
| Sweep.SeededAppend | uvChecker/src/findUvOverlaps2.cpp:354-362 | visiting one more edge appends its begin and end event, numbered after those before |
| Sweep.EnumeratesCounts | uvChecker/src/findUvOverlaps2.cpp:354 | an edge order enumerates a set exactly when it holds each of the set's edges once and nothing else |
| Sweep.EnumeratesMembers | uvChecker/src/findUvOverlaps2.cpp:354 | an enumeration holds exactly the set's edges, and as many as the set has |
| Sweep.TakeEdge | uvChecker/src/findUvOverlaps2.cpp:354-355 | visiting one more edge not yet visited extends the enumeration of the edges visited |
| Sweep.SeededWithin | uvChecker/src/findUvOverlaps2.cpp:353-362 | the seeded events name only edges of the set |
| Sweep.InitialWithin | uvChecker/src/findUvOverlaps2.cpp:353-363 | the sorted initial event queue holds only begin and end events of the swept edges |
| Sweep.Initial | uvChecker/src/findUvOverlaps2.cpp:363 | the seeded events sorted by event order; `InitialWithin` states that it holds only begin and end events of the swept edges |
| Sweep.LoneQueue | uvChecker/src/findUvOverlaps2.cpp:353-363 | the sorted queue of a single edge is its begin and end event, in one order or the other |
| Sweep.BeginStep | uvChecker/src/findUvOverlaps2.cpp:391-436 | a pair is tested exactly when the status queue already held an edge |
| Sweep.BeginStepKeeps | uvChecker/src/findUvOverlaps2.cpp:394-407 | the begin step's status queue is the old one plus the new edge, as a multiset |
| Sweep.EndStep | uvChecker/src/findUvOverlaps2.cpp:438-475 | an edge not in the status queue leaves it unchanged and tests nothing; at most one pair is tested |
| Sweep.EndStepKeeps | uvChecker/src/findUvOverlaps2.cpp:438-473 | removing an edge that is present takes out exactly one copy of it |
| Sweep.HandleWithin | uvChecker/src/findUvOverlaps2.cpp:376-385 | handling an event of the swept edges keeps the status queue within them and tests only pairs of them |
| Sweep.Handle | uvChecker/src/findUvOverlaps2.cpp:375-385 | one event handled by its tag; `HandleWithin` and `WithinStep` state that an event of the swept edges has a known tag and keeps the status queue and the tested pairs within those edges |
| Sweep.RunStep | uvChecker/src/findUvOverlaps2.cpp:368-386 | one round of the loop: an unknown tag ends the sweep as a failure with nothing reported; a known tag reports the hits of its tests and goes on from the re-queued events |
| Sweep.Advance | uvChecker/src/findUvOverlaps2.cpp:368-386 | what the loop has reported so far plus what the rest of the run reports is what the whole run reports |
| Sweep.WithinStep | uvChecker/src/findUvOverlaps2.cpp:368-386 | an event of the swept edges always has a known tag, keeps both queues within the edges and reports only endpoints of intersecting pairs of them |
| Sweep.RunWith | uvChecker/src/findUvOverlaps2.cpp:363-388 | the event loop as a function over any handler; `RunStep` states one round of it and `WithinStep` that a sweep of its edges never fails and reports only endpoints of intersecting pairs |
| Sweep.Run | uvChecker/src/findUvOverlaps2.cpp:363-388 | the event loop with the source's handler; `OverlapFinder.Check` states that the method computes exactly its outcome and reported set |
| Sweep.QuietStep | uvChecker/src/findUvOverlaps2.cpp:368-386 | a round that tests nothing adds nothing to the result |
| Sweep.LoneRun | uvChecker/src/findUvOverlaps2.cpp:368-475 | the sweep of one edge's two events reports nothing, whichever comes first |
| Sweep.SingleEdgeReportsNothing | uvChecker/src/findUvOverlaps2.cpp:349-389 | sweeping no edge or a single edge reports nothing |
| Sweep.OverlapFinder.constructor | uvChecker/src/findUvOverlaps2.cpp:20-22 | the result set starts empty |
| Sweep.OverlapFinder.CheckEdgesAndCreateEvent | uvChecker/src/findUvOverlaps2.cpp:523-536 | a hit adds the four UV indices; a non-parallel hit also queues an intersect event and re-sorts |
| Sweep.OverlapFinder.TestBeginNeighbours | uvChecker/src/findUvOverlaps2.cpp:419-434 | tests the new edge against its neighbours, next before previous |
| Sweep.OverlapFinder.DoBegin | uvChecker/src/findUvOverlaps2.cpp:391-436 | pushes the edge; if it is not alone, re-sorts the status queue along the sweep line and tests it against its neighbours |
| Sweep.OverlapFinder.DoEnd | uvChecker/src/findUvOverlaps2.cpp:438-475 | removes the first copy of the edge if present, testing its neighbours first when it lies strictly inside |
| Sweep.OverlapFinder.TestCrossNeighbours | uvChecker/src/findUvOverlaps2.cpp:503-519 | tests the outer neighbours of the crossing pair, never reading past the ends |
| Sweep.OverlapFinder.DoCross | uvChecker/src/findUvOverlaps2.cpp:477-521 | tests the crossing pair's outer neighbours when both edges are in a queue of three or more, and always answers false |
| Sweep.OverlapFinder.Dispatch | uvChecker/src/findUvOverlaps2.cpp:376-385 | a begin, end or intersect event is handled by doBegin, doEnd or doCross with its status-queue update, tests and result; any other tag is unknown and changes nothing |
| Sweep.OverlapFinder.Check | uvChecker/src/findUvOverlaps2.cpp:349-389 | visits every edge of the set once, ends as the loop does from the sorted seeded queue and adds exactly what it reports; never meets an unknown tag; reports only endpoints of intersecting swept edges, and nothing for one edge or none |
| Command.SetsToSweep | uvChecker/src/findUvOverlaps2.cpp:244-294 | a single shell sweeps its own edge set; every set swept is made of edges of the shells |
| Command.SweepResultsAt | uvChecker/src/findUvOverlaps2.cpp:300-305 | the k-th result is how the sweep of the k-th set ends |
| Command.EnumeratesEachAt | uvChecker/src/findUvOverlaps2.cpp:300-301 | the k-th order visits every edge of the k-th set once |
| Command.SweepSets | uvChecker/src/findUvOverlaps2.cpp:300-305 | one sweep per set, in order; none meets an unknown tag; the result grows by exactly what the sweeps report, only endpoints of intersecting swept edges |
| Command.FindOverlaps | uvChecker/src/findUvOverlaps2.cpp:243-303 | no shells (lines 124-127) is a failure that leaves the result unchanged; otherwise the k-th sweep is of the k-th chosen set, never meets an unknown tag, and the result grows by exactly what the sweeps report, only UV indices of the mesh's edges |

## Left out

- The Maya plumbing is outside the model: argument parsing, the DAG path, switching the current UV set, the timer, the messages and the result strings (lines 28-100, 105-118 and 308-329). Their inputs become parameters, and `resultSet` is the result.
- The floating-point geometry is outside the model. `UvEdge::isIntersected`, `UvEdge::setCrossingPointX` with `UvEdgeComparator`, `Event::operator<` and `UvPoint::operator>` are not part of this model; they are function parameters. `setCrossingPointX` writes into the status queue's edges; the model passes the sweep position `v` to the order instead.
- `intersect_u` and `intersect_v` are member fields in the source; the model returns them inside the intersection test's answer.
- The order of `std::set` iteration is not modelled. `SeedEvents` takes the edges in an arbitrary order; the events are sorted right after, so only ties in the event order can depend on it.
- `std::sort` is modelled by a stable insertion sort. The source's sort may order equivalent elements differently.
- The OpenMP pragma around the per-set sweeps is commented out in the source, so the sweeps run one after another, as modelled.
- The integer key is an edge's identity in the shell's `std::set<UvEdge>` (UvEdge's comparison operators are not part of this model), so two edges whose keys collide, such as (1, 123) and (11, 23), are merged into one, and so are the two reversed copies of an edge between stacked UVs (EdgeBuild.MakeEdgeStacked). The model keys edges by the pair of indices and compares them as values, so an edge set is a mathematical set of edges and keeps those edges distinct.
- The 32-bit width of the `unsigned int` edge key is not modelled. The key is an unbounded number, and the corrected key is the pair of indices.
- Sweep.OverlapFinder.Check: the source's `while (true)` loop is bounded by a `fuel` count, and the result `OutOfFuel` stands for running out of it. The contract does not promise that the sweep ends.
- Sweep.OverlapFinder.DoEnd: the unreachable `removeIndex == size` branch (lines 450-455) is not modelled, because `std::find` never yields that index.
- Sweep.OverlapFinder.DoCross follows the corrected positions (see Findings), not the read past the end of the status queue.
- ShellBuild.BuildShells: requires that every shell index has a UV, as Maya's shell ids guarantee. With an empty shell, `max_element` would be dereferenced at the end.
- EdgeBuild.AddFaceEdges follows the code at lines 185-188: the first unmapped corner pair ends the face's loop (`break`), so later corners of that face add no edges.
- MString's integer formatting and `asUnsigned` are modelled as decimal text and its reading (`EdgeKeys.Decimal`, `EdgeKeys.ParseDecimal`).

## Findings

| source | as written | input that shows it | evidently intended | confidence | as-written member | corrected member |
|---|---|---|---|---|---|---|
| uvChecker/src/findUvOverlaps2.cpp:208 | the key is "1", then the smaller and the larger UV index as decimal text, read back as a number | edges (1, 123) and (11, 23) both get key 11123 | a key that identifies the edge, different for different index pairs | not executed | EdgeKeys.EdgeIndexAsWrittenCollides | EdgeKeys.EdgeKeyInjective |
| uvChecker/src/findUvOverlaps2.cpp:503-506 | with `small == 0`, doCross reads `statusQueue[big + 1]` without checking `big` | three edges in the status queue, crossing pair at positions 0 and 2: position 3 is read | when the crossing pair spans the whole status queue there is no outer neighbour to test | not executed | Sweep.CrossAsWrittenReadsPastEnd | Sweep.CrossIndexPairsAgree |
