# meshmagick core in Dafny

This project models the mesh-processing core of meshmagick and proves
properties about that model. meshmagick is a Python tool for surface meshes
of floating bodies.

A mesh is a list of vertices `V` (real coordinates) and a face array `F`.
Each row of `F` has four 1-based vertex ids, and a triangle repeats its
first id in the fourth slot. The model covers these parts:

- **The clipping plane.** The plane `n.p = e` (`Plane`) with `flip`,
  `set_position` (the sines and cosines are parameters) and
  `point_distance`, plus the edge/plane intersection.
- **`clip_by_plane`.** Vertex classification against a tolerance band,
  and face classification (kept whole, clipped, or on the boundary). The
  walk over each clipped face's vertex ring inserts one cached
  intersection point per crossing edge. The clipped ring is then padded
  to a triangle, kept as a quadrangle, or split into two rows when it is
  a pentagon. The boundary dictionary and the stitching of the boundary
  polygon follow, and finally the extraction and contiguous renumbering
  of what is kept. The face array is rewritten in place, as in the
  source.
- **`heal_normals`.** The vertex/face and vertex/vertex sets, the
  face/face adjacency with its "closed mesh" flag, and the depth-first
  flood from face 0 that reverses a face whenever it runs a shared edge
  the same way as the face it was reached from. The final optional flip
  of all faces is also modelled.
- **Other mesh utilities.**
  - `merge_duplicates`: the successive argsorts of each coordinate into
    tolerance levels, the representatives and the in-place renumbering
    of face rows.
  - `symmetrize`, `flip_normals`, `translate`, `translate_1D` and `scale`.
- **Hydrostatics.**
  - The six waterplane line integrals of `_get_floating_surface_integrals`.
  - `_get_residual` and `get_hydrostatic_stiffness_matrix`.
  - The step control of the two equilibrium searches of
    `get_hydrostatics`: heave only, and heave/roll/pitch.

**What is stated.** The per-call properties are `ensures` clauses. The
ones relating several definitions are lemmas, for example:

- flipping is an involution;
- the area integral equals the shoelace sum;
- the residual vanishes exactly at balance;
- every new point lies on the plane;
- renumbered rows name the vertices they named before;
- merged vertices lie within `2 tol` of one another;
- the flood leaves every reached face running its shared edge opposite
  to its parent, and reaches exactly the connected component of face 0;
- `merge_duplicates` gives two vertices one id exactly when they end in
  one level of its three sort-and-cut passes (`Merging.Passes`).
  Vertices all within tol of each other always merge. Vertices within tol
  of a neighbour only may not: the cut compares each value with the value
  opening its level (`Merging.ChainedValuesSplit`).

**Quirks kept as written.** Three source behaviours are modelled as they
are, each with a lemma that shows its effect:

- `point_distance` tests the band on `n.p` rather than on `n.p - e`.
  `Planes.ClassifyOnOffsetPlaneFails` shows a point on the plane that
  gets no position.
- The stitching chooses its first vertex once only.
  `Clipper.TwoLoopsHaveNoTour` shows that a boundary of two loops never
  stitches.
- The `thetamax` update of the heave/roll/pitch search is guarded by the
  heave sign change and reads the roll step.
  `Equilibrium.HeaveReversalFreezesPitch` shows that this freezes the
  pitch.

Modules:

| file | contents |
|---|---|
| `results.dfy` | `Result` and `Option` |
| `geometry.dfy` | vectors |
| `seqs.dfy` | boolean masks and selection |
| `mesh.dfy` | row encoding |
| `planes.dfy` | `Plane`, edge intersection |
| `transforms.dfy` | translations, scaling, `flip_normals` |
| `clipping.dfy` | the clipping definitions and their lemmas |
| `clipper.dfy` | the clipping methods |
| `healing.dfy` | `heal_normals` |
| `merging.dfy` | `merge_duplicates` |
| `symmetry.dfy` | `symmetrize` |
| `waterplane.dfy` | waterplane integrals |
| `hydrostatics.dfy` | residual and stiffness |
| `equilibrium.dfy` | the two searches |

## Model

| member | source | states |
|---|---|---|
| Mesh.FaceSize | meshmagick/meshmagick.py:103 | 3 exactly when the fourth slot repeats the first (the triangle test of line 103; the other slots are not compared), 4 otherwise |
| Mesh.Reverse | meshmagick/meshmagick.py:481 | `np.flipud` of a row: same length, slot k becomes slot n-1-k |
| Planes.Plane.constructor | meshmagick/meshmagick.py:42-44 | the plane holds the given normal and offset |
| Planes.Plane.Flip | meshmagick/meshmagick.py:46-47 | the normal is negated and the offset unchanged |
| Planes.Plane.SetPosition | meshmagick/meshmagick.py:49-59 | the normal is (sin theta cos phi, -sin phi, cos theta cos phi), e = z n_z, so (0,0,z) lies on the plane |
| Planes.PositionedNormalIsUnit | meshmagick/meshmagick.py:53-58 | with genuine cosine/sine pairs the positioned normal has unit length |
| Planes.ClassifyPoint | meshmagick/meshmagick.py:61-72 | position 0 when abs(n.p) < tol, else -1 below e and 1 above e; failure (unbound `position`) when n.p == e outside the band |
| Planes.Plane.PointDistance | meshmagick/meshmagick.py:61-72 | `point_distance` on the plane's fields: the classification, with the distance n.p |
| Planes.ClassifyThroughOrigin | meshmagick/meshmagick.py:61-72 | for e = 0 and tol > 0 the classification never fails and is the sign of n.p outside the band |
| Planes.ClassifyOnOffsetPlaneFails | meshmagick/meshmagick.py:63-71 | on the plane z = 1 the point (0,0,1), which lies on it, gets no position |
| Planes.EdgeParameterInUnitInterval | meshmagick/meshmagick.py:336 | t = d0/(d0-d1) lies in [0, 1] when the ends are on opposite sides |
| Planes.CutOnPlane | meshmagick/meshmagick.py:333-337 | the interpolated point has signed distance 0 |
| Planes.CutSymmetric | meshmagick/meshmagick.py:333-337 | the cut point is the same whichever end the edge starts from |
| Planes.EdgeIntersection | meshmagick/meshmagick.py:333-337 | `get_edge_intersection_by_plane` gives a point on the plane |
| Planes.EdgeIntersectionSymmetric | meshmagick/meshmagick.py:333-337 | the intersection does not depend on the edge's direction |
| Transforms.Translated | meshmagick/meshmagick.py:1693-1694 | one vertex out per vertex in; what the move is, is stated by TranslateInverse and TranslateCompose |
| Transforms.TranslateInverse | meshmagick/meshmagick.py:1681-1698 | translating by P and then by -P restores the vertices |
| Transforms.TranslateCompose | meshmagick/meshmagick.py:1681-1698 | two translations equal one by the sum of their vectors |
| Transforms.Translate | meshmagick/meshmagick.py:1681-1698 | `translate` updates every row of the array in place to its translate |
| Transforms.AxisOf | meshmagick/meshmagick.py:1702-1709 | column 0, 1 or 2 exactly for 'x', 'y' or 'z'; -1 (the IOError) for any other string |
| Transforms.ShiftedAxis | meshmagick/meshmagick.py:1710 | column j of each vertex is increased by t and the other columns are unchanged |
| Transforms.ShiftedAxisIsTranslation | meshmagick/meshmagick.py:1701-1711 | `translate_1D` equals `translate` by the axis vector |
| Transforms.Translate1D | meshmagick/meshmagick.py:1701-1711 | in place: on a valid ddl the array is shifted along that axis, otherwise an IOError and the array untouched |
| Transforms.Scaled | meshmagick/meshmagick.py:1761-1762 | one vertex out per vertex in; undone by the inverse factor (ScaleInverse) |
| Transforms.ScaleInverse | meshmagick/meshmagick.py:1761-1762 | scaling by alpha then 1/alpha restores the vertices |
| Transforms.FlipNormals | meshmagick/meshmagick.py:1765-1766 | as many rows as before; the rows themselves are described by FlipNormalsRows and FlipNormalsInvolution |
| Transforms.FlipNormalsInvolution | meshmagick/meshmagick.py:1765-1766 | flipping twice restores the faces |
| Transforms.FlipNormalsRows | meshmagick/meshmagick.py:1765-1766 | a flipped row has the same ids; [a,b,c,a] becomes [a,c,b,a]; triangles and quadrangles keep their kind |
| Clipping.Distances | meshmagick/meshmagick.py:90 | one signed distance n.v - e per vertex |
| Clipping.KeepMask | meshmagick/meshmagick.py:93 | vertex i is kept exactly when its distance is at most abs_tol |
| Clipping.BelowMask | meshmagick/meshmagick.py:117 | vertex i is below exactly when its distance is under -abs_tol |
| Clipping.OnPlaneMask | meshmagick/meshmagick.py:129 | vertex i is on the band exactly when abs(distance) <= abs_tol |
| Clipping.Ring | meshmagick/meshmagick.py:196-197 | the first 3 (triangle) or 4 slots of a row, made 0-based |
| Clipping.FaceMarks | meshmagick/meshmagick.py:110-113 | the mask read on the distinct slots of a row |
| Clipping.ToClipMixed | meshmagick/meshmagick.py:165-171 | with abs_tol >= 0 a face to clip has both kept and dropped vertices |
| Clipping.ClipMask | meshmagick/meshmagick.py:165-171 | face j is clipped exactly when some slot is not kept and some slot is below the band |
| Clipping.KeptFaces | meshmagick/meshmagick.py:123-125 | face j is kept exactly when all its slots are kept or it is to be clipped |
| Clipping.FullyKeptRow | meshmagick/meshmagick.py:123-125 | a row whose distinct slots are all kept names only kept vertices |
| Clipping.CrossingsEven | meshmagick/meshmagick.py:199-201 | around a closed ring the keep flag changes an even number of times |
| Clipping.MixedCrossesTwice | meshmagick/meshmagick.py:199-201 | a ring with kept and dropped slots has at least two crossing edges |
| Clipping.ExpandLength | meshmagick/meshmagick.py:242-243 | the expanded ring has one entry per slot plus one per crossing edge |
| Clipping.ExpandKept | meshmagick/meshmagick.py:242-248 | the kept entries of the expanded ring are the kept slots and the crossing points |
| Clipping.ExpandNewMarks | meshmagick/meshmagick.py:253-258 | the clipped ring holds exactly one new point per crossing edge |
| Clipping.RollLeft | meshmagick/meshmagick.py:265-266 | `np.roll(s, -n)`: entry k of the result is entry (k+n) mod len of s |
| Clipping.ClipRow | meshmagick/meshmagick.py:261-271 | rows of four slots; one kept entry fills the row (numpy broadcast), three are padded to [a,b,c,a], four are kept as they are, five give a second row; any other count is a shape error |
| Clipping.PentagonRotation | meshmagick/meshmagick.py:264-266 | after the rotation, entries 1 to 5 of the ring are exactly its kept entries |
| Clipping.PentagonSplit | meshmagick/meshmagick.py:264-271 | both pentagon rows use only kept entries, and together they use all five |
| Clipping.FourCrossingsOpposite | meshmagick/meshmagick.py:264-274 | a quadrangle crosses on all four edges exactly when its kept corners are opposite |
| Clipping.ClippedRingRows | meshmagick/meshmagick.py:245-274 | a mixed face's rows are well formed unless it is a quadrangle with opposite kept corners, which gives a 6-entry ring |
| Clipping.ClipRowWithin | meshmagick/meshmagick.py:261-271 | the rows of a clipped face use only kept entries of its expanded ring |
| Clipping.BoundaryEdge | meshmagick/meshmagick.py:250-259 | the edge written at the first marked entry joins it to its marked predecessor, or its successor to it |
| Clipping.BoundaryEdgeFound | meshmagick/meshmagick.py:253-259 | with two or more marked entries the boundary edge is found |
| Clipping.BoundaryEdgeOfAdjacentPoints | meshmagick/meshmagick.py:253-256 | when the two new points are consecutive the edge joins them |
| Clipping.FaceEdge | meshmagick/meshmagick.py:150-163 | key and value of a boundary face's entry are vertices of the face |
| Clipping.NewIds | meshmagick/meshmagick.py:318-319 | a kept vertex gets its rank among the kept vertices, a dropped one keeps its index |
| Clipping.RenumberRow | meshmagick/meshmagick.py:320 | slot k of the renumbered row is `newID[row[k]-1] + 1` |
| Clipping.RenumberKeptRow | meshmagick/meshmagick.py:318-320 | a renumbered kept row has ids in 1..kept count, each naming in the selected vertices the point it named before |
| Clipping.RenumberKeptId | meshmagick/meshmagick.py:318-320 | the new id of a kept vertex names that vertex among the selected ones |
| Clipping.RenumberRows | meshmagick/meshmagick.py:320 | one renumbered row per kept row |
| Clipper.CacheOfSymmetric | meshmagick/meshmagick.py:211-239 | the edge cache gives an edge and its reverse the same id |
| Clipper.CacheFetch | meshmagick/meshmagick.py:221-223 | a cached id names the intersection point of its edge, whichever direction was recorded |
| Clipper.CacheInsert | meshmagick/meshmagick.py:225-239 | recording a new crossing edge with a fresh point keeps the cache valid |
| Clipper.EdgePoint | meshmagick/meshmagick.py:205-240 | the id of the edge's point: the cached one, or nv + number of points so far for a new point appended to newV; both directions cached, older entries kept |
| Clipper.InsertIntersections | meshmagick/meshmagick.py:199-243 | the walk leaves the face's ring expanded with one point per crossing edge, inserted before its slot and flagged kept |
| Clipper.InsertCrossing | meshmagick/meshmagick.py:205-243 | at a crossing slot, the edge's point is inserted before it and the expansion grows by that slot |
| Clipper.WalkSlot | meshmagick/meshmagick.py:205-243 | one slot of the walk: the point is inserted before a crossing slot, nothing changes before a plain one; the expansion grows by that slot and the cache stays valid |
| Clipper.ClippedFaceFacts | meshmagick/meshmagick.py:245-274 | a walked mixed face yields rows unless its kept corners are opposite, and always yields a boundary edge |
| Clipper.ClipFace | meshmagick/meshmagick.py:187-274 | one face: with the walk's edge cache, the result is FaceRows (the rows ClipRow cuts from the expanded ring, made 1-based) and the edge is FaceBoundaryEdge when polygons are wanted, or that edge's error; with abs_tol >= 0 failure exactly for opposite kept corners |
| Clipper.ClipFaces | meshmagick/meshmagick.py:186-274 | rows not to clip untouched; every clipped row rewritten in place to its FaceRows row and newF the pentagons' second rows in face order (Written); the boundary entries written in face order (EdgesWritten); new point j is the cut of crossing edge j, each edge recorded once and an edge of a clipped face; failure exactly when some face to clip has opposite kept corners |
| Clipper.ClipStep | meshmagick/meshmagick.py:187-274 | face i: its FaceRows row and second row recorded, its boundary edge written; with abs_tol >= 0 failure exactly for opposite kept corners |
| Clipper.WalkFace | meshmagick/meshmagick.py:186-274 | face i rewritten in place when it is to clip, passed over otherwise; the walk's state carried to face i + 1 |
| Clipper.FacesDone | meshmagick/meshmagick.py:186-274 | after the last face the walk's state gives every clipped row, second row and boundary entry |
| Clipper.NewPointsOnPlane | meshmagick/meshmagick.py:276-278 | every appended vertex lies on the plane |
| Clipper.KeptFacesRows | meshmagick/meshmagick.py:274-289 | every row selected by keepF, extended by the new rows, names kept or new vertices only |
| Clipper.ExtendedVertices | meshmagick/meshmagick.py:284-308 | the selected vertices are the kept originals in order, then the new points |
| Clipper.RenumberedRows | meshmagick/meshmagick.py:317-320 | renumbered kept rows name vertices of the clipped mesh |
| Clipper.ExtractKept | meshmagick/meshmagick.py:276-320 | the kept vertices then the new points; the faces are exactly the kept rows renumbered through NewIds, one per kept row |
| Clipper.BoundaryFaceEdges | meshmagick/meshmagick.py:150-163 | the dictionary is BoundaryMap, the loop's result with a later face overwriting an earlier one; every boundary face's key is in it and every entry is the edge of some boundary face |
| Clipper.BoundaryMapKeys | meshmagick/meshmagick.py:150-163 | the edge start of every boundary face is a key of the dictionary |
| Clipper.BoundaryMapEntry | meshmagick/meshmagick.py:150-163 | every entry of the dictionary is the edge of some boundary face, its key a vertex id |
| Clipper.Stitch | meshmagick/meshmagick.py:291-305 | an empty dictionary is an error; success gives one closed tour passing every key exactly once; success whenever such a tour exists; otherwise a missing-key error |
| Clipper.WalkPolygon | meshmagick/meshmagick.py:296-305 | the walk from initV follows entries back to initV or fails on a missing key; on a dictionary with a tour from initV it closes and pops every entry |
| Clipper.RotateTour | meshmagick/meshmagick.py:293-295 | a tour can be started at any key, so the arbitrary first key does not matter |
| Clipper.TourWalk | meshmagick/meshmagick.py:299-305 | one step along a tour: the entry leads to the tour's next vertex; the walk is back at the start exactly when the whole tour is walked |
| Clipper.TourWalkedAll | meshmagick/meshmagick.py:299-305 | once a whole tour is walked no entry is left |
| Clipper.TourBelow | meshmagick/meshmagick.py:291-305 | the stitched polygon only names ids of the extended vertex list |
| Clipper.TwoLoopsHaveNoTour | meshmagick/meshmagick.py:293-305 | a boundary of two separate loops has no tour, so the stitch never succeeds on it |
| Clipper.TourStaysOnLoop | meshmagick/meshmagick.py:299-305 | a walk on the two-loop boundary stays on its first loop |
| Clipper.ClipByPlane | meshmagick/meshmagick.py:75-331 | all kept: V and F returned as given; none kept: empty; otherwise, through MixedClip: the faces are exactly the kept rows (rewritten clipped rows, untouched kept rows, then the pentagons' second rows) renumbered through NewIds; the vertices are the kept ones then one point per distinct crossing edge, each on the plane; with abs_tol >= 0 a ShapeMismatch exactly for opposite kept corners; with polygons, success exactly when the boundary has a tour (else NoBoundaryEdge or MissingEdge) |
| Clipper.ClipMixed | meshmagick/meshmagick.py:102-331 | the mixed case of ClipByPlane: the same results, and MixedClip of the walk, on the face array's contents before and after |
| Clipper.StitchAndExtract | meshmagick/meshmagick.py:276-331 | success exactly when no polygon is wanted or the boundary has a tour; the vertices are the kept ones then the new points and the faces the kept rows renumbered through NewIds |
| Clipper.FinishMixed | meshmagick/meshmagick.py:276-331 | after the walk: the walk's error, or the stitch and extraction; gives MixedClip and ClipByPlane's promises on the face array's contents |
| Clipper.MixedDone | meshmagick/meshmagick.py:186-331 | a complete walk and its extraction make up MixedClip, with the face count CountTrue(keepF) + len(newF) |
| Clipper.MixedFailed | meshmagick/meshmagick.py:186-274 | a walk stopped at a face with opposite kept corners makes up MixedClip of a failed clip |
| Healing.Slots | meshmagick/meshmagick.py:420-423 | the first 3 slots of a triangle row, all 4 of a quadrangle |
| Healing.Rolled | meshmagick/meshmagick.py:470-471 | as many entries as the face uses, starting at a |
| Healing.RolledReverse | meshmagick/meshmagick.py:470-481 | reversing a row swaps the neighbours after and before a |
| Healing.NeighboursDiffer | meshmagick/meshmagick.py:470-478 | in a row of distinct slots, the vertices after and before a differ |
| Healing.ReverseFixesOrientation | meshmagick/meshmagick.py:473-481 | after the flip, a face found running the shared edge the same way runs it the opposite way |
| Healing.EmptySets | meshmagick/meshmagick.py:417-418 | one empty set per vertex id |
| Healing.BuildVertexSets | meshmagick/meshmagick.py:416-427 | VF[v] is the set of faces using v; VV[v] the set of vertices sharing a face edge with v |
| Healing.FacesWith | meshmagick/meshmagick.py:432-435 | the faces using both v and u |
| Healing.PickTwo | meshmagick/meshmagick.py:437-438 | two distinct members of a set of at least two |
| Healing.LinkPair | meshmagick/meshmagick.py:433-440 | a pair with two or more faces links two of them both ways; with one face the mesh is marked open |
| Healing.LinkAround | meshmagick/meshmagick.py:431-440 | every pair (v, u) with u in VV[v] is handled |
| Healing.AllDone | meshmagick/meshmagick.py:431-440 | once all vertices are passed, the handled pairs are exactly the mesh's edges |
| Healing.BuildAdjacency | meshmagick/meshmagick.py:429-440 | FF is symmetric and links faces sharing an edge; an edge with exactly two faces links them; the flag is set exactly when no edge has a single face |
| Healing.Spread | meshmagick/meshmagick.py:453-484 | each neighbour not yet visited is visited, unlinked from the popped face, reversed when it runs the shared edge the same way, and pushed; two faces not sharing two vertices stop it |
| Healing.Visit | meshmagick/meshmagick.py:467-484 | the face reached is visited, unlinked from the popped face, reversed exactly when it runs the shared edge the same way, and pushed; its parent is one link shallower |
| Healing.TreeWithin | meshmagick/meshmagick.py:443-484 | the faces of a tree whose parents are always shallower lie in every set holding face 0 and closed under FF |
| Healing.ReachedWithin | meshmagick/meshmagick.py:467 | a face of the tree is in such a set, by induction on its depth |
| Healing.Flood | meshmagick/meshmagick.py:443-484 | from face 0, every face reached is reached once from a shallower face, reversed at most once, and runs its shared edge opposite to its parent; the visited set is closed under FF and lies in every set holding face 0 closed under FF, so it is exactly the connected component of face 0; rows of other faces are unchanged |
| Healing.SharedWitness | meshmagick/meshmagick.py:467 | the faces of a failed unpacking do not share exactly two vertices |
| Healing.HealNormals | meshmagick/meshmagick.py:405-520 | the flood result: exactly the component of face 0 is reached, each of its faces oriented against its parent, all other rows unchanged; no faces is an error; on a closed mesh the faces are flipped once more when the supplied outward test is negative |
| Merging.SortIds | meshmagick/meshmagick.py:558-561 | argsort: the same ids reordered by key |
| Merging.SortIdsSorted | meshmagick/meshmagick.py:558-561 | the sorted level is ordered by coordinate dim |
| Merging.SplitLevel | meshmagick/meshmagick.py:563-570 | a new level opens exactly where the value leaves the band of width tol around the level's opening value |
| Merging.OpeningsBanded | meshmagick/meshmagick.py:563-570 | the Openings of a level increase from s, every value lies within tol of its level's opening value, and each opening is out of band of the one before |
| Merging.ScanOpen | meshmagick/meshmagick.py:567-570 | a value outside the band opens a new level at its position |
| Merging.SameValueSameLevel | meshmagick/meshmagick.py:558-570 | in a sorted level a value equal to one of new level h lies in level h |
| Merging.TightBand | meshmagick/meshmagick.py:563-570 | a level staying within tol of its first value in one more coordinate keeps all its vertices within 2 tol in it |
| Merging.SubLevelsTight | meshmagick/meshmagick.py:563-570 | the levels opened in a sorted level are tight in one more coordinate |
| Merging.RefineLevel | meshmagick/meshmagick.py:552-573 | one level is sorted in place and keeps its ids; the levels opened in it are exactly its Openings: every value within tol of its level's opening value and each opening out of band of the one before |
| Merging.SortLevel | meshmagick/meshmagick.py:555-561 | the level is sorted by the coordinate in place, as a permutation of its ids, and nothing outside it changes |
| Merging.RefineLevels | meshmagick/meshmagick.py:545-581 | each old level keeps its ids and is sorted; the new levels are exactly the cuts the scan makes (Cuts), they chain through all ids, and are clusters in one more coordinate |
| Merging.PermFacts | meshmagick/meshmagick.py:543 | a permutation of 0..n-1 names each id at exactly one position |
| Merging.NumberLevels | meshmagick/meshmagick.py:587-591 | W takes each level's first vertex and newID gives every id of level g the number g |
| Merging.NumberLevel | meshmagick/meshmagick.py:591 | the ids of one level get its number and no other entry changes |
| Merging.NumberedClose | meshmagick/meshmagick.py:584-592 | vertices given one number are within 2 tol of each other |
| Merging.NumberedRepresentatives | meshmagick/meshmagick.py:590 | the representative of a level is one of its vertices, and every vertex is close to its representative |
| Merging.NumberedGathered | meshmagick/meshmagick.py:584-592 | equal vertices lie in one level and get one number |
| Merging.SingletonLevels | meshmagick/meshmagick.py:574-578 | when every level holds one vertex no two vertices are equal |
| Merging.NoMerge | meshmagick/meshmagick.py:574-578 | with no equal vertices the identity numbering meets every promise of the merge and leaves the faces unchanged |
| Merging.BuildMerged | meshmagick/meshmagick.py:584-592 | one merged vertex per level, the first of its level; every id gets its level's number; vertices given one number are within 2 tol; every vertex is close to the one standing for it |
| Merging.RenumberFaces | meshmagick/meshmagick.py:594-595 | every row is rewritten in place to `newID[row - 1] + 1` |
| Merging.RenumberIdentity | meshmagick/meshmagick.py:574-578 | renumbering by the identity leaves a row unchanged |
| Merging.Argsorted | meshmagick/meshmagick.py:555-561 | one level of iperm sorted by a coordinate is still a permutation of the same ids |
| Merging.SortLevels | meshmagick/meshmagick.py:551-561 | every level of a pass sorted in turn keeps iperm a permutation |
| Merging.CutsChain | meshmagick/meshmagick.py:563-573 | the levels cut by a pass form a chain |
| Merging.RefineAt | meshmagick/meshmagick.py:551-573 | one level of a pass: sorted in place and cut, keeping the pass invariants |
| Merging.Pass | meshmagick/meshmagick.py:546-581 | one pass leaves iperm a permutation of the ids cut by a chain of levels |
| Merging.Passes | meshmagick/meshmagick.py:542-581 | the state after the first d coordinates, stopping once every level holds one vertex |
| Merging.PassSkipped | meshmagick/meshmagick.py:574-578 | with one vertex per level, the next pass is not made |
| Merging.PassesStay | meshmagick/meshmagick.py:574-578 | after the break the final state is the state at the break |
| Merging.PassesNext | meshmagick/meshmagick.py:545-581 | the loop makes the next pass unless it broke out before |
| Merging.PassIs | meshmagick/meshmagick.py:546-581 | what RefineLevels computes is one Pass |
| Merging.SortPasses | meshmagick/meshmagick.py:541-581 | the loop ends in the state of the three passes (Passes); it breaks exactly when every level holds one vertex, and then no two vertices are equal |
| Merging.MergedCells | meshmagick/meshmagick.py:584-591 | two vertices get one id exactly when they lie in one final level |
| Merging.LevelCells | meshmagick/meshmagick.py:591 | ids numbering the levels agree exactly within one level |
| Merging.SingletonCells | meshmagick/meshmagick.py:574-578 | with one vertex per level, two vertices share a level only when equal |
| Merging.CellOf | meshmagick/meshmagick.py:543 | every vertex has a position in iperm |
| Merging.MergedBuilt | meshmagick/meshmagick.py:584-591 | the merged vertices and ids are those MergedAs describes for the final levels |
| Merging.MergedFacts | meshmagick/meshmagick.py:584-591 | one id exactly for vertices of one final level; vertices all within tol merge to one vertex |
| Merging.ScanWithinBand | meshmagick/meshmagick.py:567-570 | the scan does not cut while values stay within tol of the level's opening value |
| Merging.OpeningsWithinBand | meshmagick/meshmagick.py:563-570 | a level whose values all lie within tol of its first value is not cut |
| Merging.ChainedValuesSplit | meshmagick/meshmagick.py:563-570 | 0, 0.75, 1.5 with tol 1 split into two levels: values within tol of a neighbour may still be split |
| Merging.PassOneLevel | meshmagick/meshmagick.py:546-573 | a pass over one level of vertices all within tol of each other leaves it whole |
| Merging.AllNearOneLevel | meshmagick/meshmagick.py:545-581 | vertices all within tol of each other in every coordinate stay in one level through the three passes |
| Merging.MergeDuplicates | meshmagick/meshmagick.py:527-603 | no vertices is an error; the result is MergedAs of the three passes: V itself when every final level holds one vertex, otherwise one vertex per final level, the first of it, with two ids equal exactly when the vertices end in one level; vertices all within tol of each other merge into one; vertices given one id are within 2 tol; equal vertices always get one id; faces renumbered in place and valid |
| Symmetry.MirrorAsWrittenMovesPlanePoint | meshmagick/meshmagick.py:1774-1775 | the formula as written moves the on-plane point (0,0,1) of the plane 2z = 2 to (0,0,2.5) |
| Symmetry.MirrorAsWrittenUnit | meshmagick/meshmagick.py:1774-1775 | for a unit normal the formula as written is the reflection |
| Symmetry.MirrorDistance | meshmagick/meshmagick.py:1775 | the corrected reflection negates the signed distance |
| Symmetry.MirrorInvolution | meshmagick/meshmagick.py:1775 | the corrected reflection applied twice restores the vertex |
| Symmetry.MirrorFixed | meshmagick/meshmagick.py:1775 | the corrected reflection fixes a vertex exactly when it lies on the plane |
| Symmetry.Mirrored | meshmagick/meshmagick.py:1775 | one vertex per vertex, its corrected reflection |
| Symmetry.MirroredInvolution | meshmagick/meshmagick.py:1775 | the corrected reflection of the mirrored vertices restores them |
| Symmetry.MirroredFaces | meshmagick/meshmagick.py:1776 | one mirrored row per row; their ids are stated by MirroredFacesRows |
| Symmetry.MirroredFacesRows | meshmagick/meshmagick.py:1776 | the mirrored faces name vertices nv+1..2nv in reverse order |
| Symmetry.JoinedFaces | meshmagick/meshmagick.py:1776 | the faces and their mirror images are each valid over 2 nv vertices |
| Symmetry.JoinedValid | meshmagick/meshmagick.py:1776 | the two face lists joined are valid |
| Symmetry.JoinedEqual | meshmagick/meshmagick.py:1778 | a vertex equal to its image shares its id |
| Symmetry.JoinedClose | meshmagick/meshmagick.py:1778 | each vertex and each image is close to the merged vertex standing for it |
| Symmetry.MergeRows | meshmagick/meshmagick.py:1778 | merge_duplicates on the joined rows: MergedAs, closeness, equal vertices share an id, rows renumbered |
| Symmetry.Weld | meshmagick/meshmagick.py:1775-1778 | the joined vertices merged as MergedAs says; each half read back: close to its merged vertex, a vertex equal to its image shares its id, both halves of the rows renumbered in order |
| Symmetry.Symmetrize | meshmagick/meshmagick.py:1769-1778 | the vertices and their corrected reflections are merged as MergedAs says for tol 1e-8, two ids equal exactly when the vertices end in one final level; each vertex and its mirror image lies within 2e-8 of its merged representative; a vertex on the plane and its mirror image get one id, so the seam is welded; both halves of the faces are renumbered onto the merged vertices |
| Waterplane.FloatingSurfaceIntegrals | meshmagick/hydrostatics.py:225-291 | six integrals, each the sum over rings and edges scaled by mult_sf |
| Waterplane.WaterplaneOf | meshmagick/hydrostatics.py:62-63 | no polygon is an error, otherwise the six integrals |
| Waterplane.IntegralsAdditive | meshmagick/hydrostatics.py:229-289 | the integrals of several rings are the sums of those of each ring |
| Waterplane.AreaIsShoelace | meshmagick/hydrostatics.py:249-273 | on a closed ring the area sum equals the shoelace sum |
| Waterplane.SquareFactor | meshmagick/hydrostatics.py:252-275 | a^2 + ab + b^2 = (a+b)^2 - ab |
| Waterplane.CubeFactor | meshmagick/hydrostatics.py:265-284 | (a^2 + b^2)(a + b) = a^3 + a^2 b + a b^2 + b^3 |
| Waterplane.ClosedSquares | meshmagick/hydrostatics.py:244-245 | on a closed ring the extra square slot holds the last vertex's square |
| Waterplane.IntXAlternativeForm | meshmagick/hydrostatics.py:252-275 | on a closed ring int(x) equals the commented-out form |
| Waterplane.IntYAlternativeForm | meshmagick/hydrostatics.py:255-277 | on a closed ring int(y) equals the commented-out form |
| Waterplane.IntXXAlternativeForm | meshmagick/hydrostatics.py:263-284 | on a closed ring int(x^2) equals the commented-out cubic form |
| Waterplane.IntYYAlternativeForm | meshmagick/hydrostatics.py:268-287 | on a closed ring int(y^2) equals the commented-out cubic form |
| Waterplane.UnitSquareMoments | meshmagick/hydrostatics.py:225-291 | the unit square gets area 1 and its exact moments |
| Hydrostatics.Residual | meshmagick/hydrostatics.py:295-305 | the three residual components, each in terms of the inputs |
| Hydrostatics.ResidualZeroIffBalanced | meshmagick/hydrostatics.py:295-305 | the residual is zero exactly when rho V = m and the buoyancy centre and centre of gravity have the same x and y (g, m non-zero) |
| Hydrostatics.CleanEntry | meshmagick/hydrostatics.py:149-151 | the result is 0 or at least 1e-8; it is 0 exactly when abs(k) < 1e-8, and otherwise abs(k) |
| Hydrostatics.StiffnessMatrix | meshmagick/hydrostatics.py:115-152 | a 3x3 matrix whose entries are the cleaned k33, k34, k35, k44, k45, k55 at their places |
| Hydrostatics.StiffnessMatrixShape | meshmagick/hydrostatics.py:138-151 | symmetric, no negative entry, no entry strictly between 0 and 1e-8 |
| Hydrostatics.SymmetricWaterplaneDecouplesHeave | meshmagick/hydrostatics.py:131-143 | zero first moments give zero heave/roll and heave/pitch coupling |
| Hydrostatics.StiffnessRollPitchShareCorrection | meshmagick/hydrostatics.py:129-143 | roll and pitch terms differ by rho g times the difference of the second moments |
| Equilibrium.Min | meshmagick/hydrostatics.py:577 | the smaller of the two |
| Equilibrium.CopySign | meshmagick/hydrostatics.py:457 | the magnitude of m with the sign of s |
| Equilibrium.Clamp | meshmagick/hydrostatics.py:456-457 | the step is within the cap, unchanged when already within, of magnitude the cap otherwise, sign kept |
| Equilibrium.ShrinkCap | meshmagick/hydrostatics.py:449-454 | the cap never grows; quartered on a sign change with growing residual, halved on one without, kept otherwise |
| Equilibrium.AccumulateBound | meshmagick/hydrostatics.py:456-462 | n capped steps move the position by at most n caps |
| Equilibrium.HeaveStep | meshmagick/hydrostatics.py:431-462 | one pass: the residual at the current height, the cap never grown, the move at most the new cap |
| Equilibrium.HeaveStepFrom | meshmagick/hydrostatics.py:431-462 | the pass is z - Clamp(g res / stiffness, ShrinkCap(res, res_old, zmax)) with that residual and cap |
| Equilibrium.HeaveIterNext | meshmagick/hydrostatics.py:425-462 | from a state that can move, the next iterate is one HeaveStep further |
| Equilibrium.HeaveAdvance | meshmagick/hydrostatics.py:425-462 | the values one more pass computes make the next iterate |
| Equilibrium.SolveHeave | meshmagick/hydrostatics.py:389-462 | z and zmax are those of HeaveIter after the moves made, each move one HeaveStep (dz = g res / stiffness, cap shrink, copysign clamp, plane moved to z - dz); converged exactly when abs(residual) < tol at the final position; not converged only after 50; zero stiffness or no intersection stop it |
| Equilibrium.UpdateCaps | meshmagick/hydrostatics.py:569-593 | as written: zmax and thetamax change on a heave sign change, phimax on a roll sign change, each to min(abs(jump), cap/2); thetamax reads the roll jump |
| Equilibrium.PitchReversalKeepsPitchCap | meshmagick/hydrostatics.py:587-593 | a pitch reversal alone does not reduce the pitch cap |
| Equilibrium.HeaveReversalFreezesPitch | meshmagick/hydrostatics.py:587-593 | a heave reversal with the roll step unchanged sets the pitch cap to 0 |
| Equilibrium.ClampStep | meshmagick/hydrostatics.py:596-603 | each component is within its cap and unchanged when already within |
| Equilibrium.SixDofStep | meshmagick/hydrostatics.py:532-608 | one pass: the residual at -eta, caps never grown, eta += deta with each component of deta within its cap |
| Equilibrium.SixDofStepFrom | meshmagick/hydrostatics.py:561-605 | the pass is eta + ClampStep(the scaled solution, UpdateCaps(caps, the scaled solution, the previous step)) |
| Equilibrium.SixDofAdvance | meshmagick/hydrostatics.py:518-608 | the values one more pass computes make the next iterate |
| Equilibrium.SixDofMove | meshmagick/hydrostatics.py:561-608 | the scaled solve, the cap update, the clamp and eta += deta make the next iterate |
| Equilibrium.SolveSixDof | meshmagick/hydrostatics.py:503-608 | eta and the caps are those of SixDofIter after the moves made, each move one SixDofStep (solve, heave part scaled by Re0[2,2], UpdateCaps, ClampStep, eta += deta); converged exactly when all three residuals are under tol; a singular system or no intersection stop it; caps never grow |

## Left out

- Loaders, writers, the command line, `show`, `mesh_quality`, `get_info`, `rotate`, `rotate_1D` and the hydrostatics report: file I/O, printing, vtk and trigonometry.
- Floating point: coordinates are exact reals, so rounding, IEEE infinities and NaNs are not modelled. A division the source may do by zero is either excluded by a precondition or becomes an explicit outcome.
  - Edge intersection requires d0 != d1.
  - `symmetrize` requires a non-zero normal.
  - A zero heave stiffness is the `ZeroStiffness` outcome.
  - A singular matrix in the 6-dof search is `SingularMatrix`.
- Planes.Plane.SetPosition: the sines and cosines are parameters, since trigonometry is out of scope.
- The `Plane` defaults (normal (0,0,1), e = 0) are not modelled; the constructor takes both fields.
- Clipper.ClipByPlane: the `areas` branch (lines 311-314) only prints and is left out. `n_threshold` is unused.
- Clipper.ClipByPlane: the fully-kept result is always a `Clipped` value with no polygons, whereas the source returns the 2-tuple `V, F` there even when polygons are requested.
- Clipper.ClipByPlane: the failure characterisation is stated for abs_tol >= 0 only. With a negative tolerance, whether the rows can be formed is not stated.
- Clipper.ClipByPlane: a quadrangle whose kept corners are opposite gives a 6-entry ring that numpy cannot store in a 4-slot row. The model returns a `ShapeMismatch` error for it rather than an exception.
- Clipper.Stitch: the polygon is in 0-based extended ids (before renumbering), as in the source. `boundary_edges.keys()[0]` is any key (`:|`), because Python 2 dictionary order is not modelled.
- Clipping.FaceEdge: states only that the entry's key and value are vertices of the face, not which edge of the face it is.
- Merging.SortIds: numpy's default argsort is an unstable quicksort. The model uses a stable insertion sort; only sortedness and permutation are relied on.
- Symmetry.Symmetrize: mirrors with the corrected reflection of the Findings row; for a non-unit normal the source's mirrored vertices differ.
- Merging.MergeDuplicates: requires tol >= 0. With a negative tolerance every vertex opens its own level and nothing merges; that path is not stated.
- Healing.HealNormals: the outward test (`hs[2]`, from `get_all_faces_properties`, lines 492-513) is the parameter `outwardZ`, because it needs the face normals and areas. `get_all_faces_properties` is not part of this model, nor is the watertightness warning.
- Healing.HealNormals: on an exception the source leaves F 0-based. The model keeps the rows 1-based in every outcome.
- Healing.HealNormals: `np.flipud` on a row is taken to write a reversed copy. Python set iteration order (`FF[iface]`, `list(S1 & S2)`) is modelled as any order.
- Healing.HealNormals: the final `flip_normals` returns a new array, so the model returns the flipped rows while F keeps the flooded rows. The source rebinds its local F.
- `HydrostaticsMesh.update`, `_update_surfint`, `get_vw` and `get_buoyancy_center` depend on helpers that are not part of this model. Each search takes the recomputation as a parameter `at`, which returns the clipped hull's state for a plane position, or None when no polygon exists.
- Equilibrium.SolveSixDof: `np.linalg.solve` is a parameter, and the `Re0[2, 2]` factor of line 563 is a parameter. The unfinished tail after line 614, which ends in `NotImplementedError`, is left out.
- Equilibrium.SolveHeave: the initial sensitivity test (lines 401-408) that computes `abs_tol_pos` is not modelled; the tolerance is a parameter.
- Verbose printing and the animation files are left out.

## Findings

| source | as written | input that shows it | evidently intended | confidence | as-written member | corrected member |
|---|---|---|---|---|---|---|
| meshmagick/meshmagick.py:1774-1775 | `normal = n/(n.n)` then `V - 2 outer(V.normal - e, normal)`: the offset e is not divided by n.n, and the factor is divided by n.n twice | n = (0,0,2), e = 2, v = (0,0,1): v lies on the plane, yet it is sent to (0,0,2.5) | the reflection v - 2 (n.v - e)/(n.n) n, which fixes the plane and is an involution | medium, not executed; the formula is right for unit normals | Symmetry.MirrorAsWrittenMovesPlanePoint | Symmetry.MirrorInvolution |
