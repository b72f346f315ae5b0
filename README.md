# Half-edge mesh surgery and remeshing, modelled in Dafny

This project models the topological core of the compAS / brg geometry toolkit:

- the half-edge mesh store, with three maps:
  - `vertex`: key → attributes;
  - `halfedge`: u → v → the face left of u→v, or `None` on the boundary side;
  - `face`: face key → successor map of its vertex cycle;
- the local edge split `split_edge`;
- the triangle-mesh face admission `TriMesh.add_face`;
- the face detachment `unweld`;
- the two remeshing drivers, `optimise_trimesh_topology` and the older `remesh`;
- the crossing scans over a network's edges, `is_network_2d` and `is_network_planar_embedding`.

Each module follows one source file:

| module | file | form |
|---|---|---|
| `HalfEdgeMesh` | the store, its well-formedness invariant, the base `Mesh` methods the operations call | class `Mesh` over maps, spec functions on the value `Store` |
| `Attributes` | the attribute averaging at the head of `split_edge` | functions, and a method for the loop |
| `Split` | `split_edge` | method on `Mesh`, proved against `SplitOutcome`/`SplitTo` |
| `TriMesh` | `TriMesh.add_face` | method editing the caller's `VertexList` and the mesh |
| `Welding` | `unweld` | methods with loops, proved against `UnweldOutcome` |
| `Remeshing` | both drivers | one driver with two configurations; the loop and passes are methods on `Mesh`, proved against `Pass`, `Iteration` and `Run` |
| `Graph` | the crossing functions, `is_network_2d`, `is_network_planar_embedding` | nested-loop methods, proved against the prefix-recursive `Found`, `Counted` and `Crossed` |

The well-formedness invariant (`HalfEdgeMesh.WellFormed`) has four parts:

- every vertex has numeric `x`, `y` and `z`;
- half-edges come in twin pairs, with no self-loops;
- a half-edge that names a face is a step of that face's cycle;
- each face's successor map is a single cycle of at least three distinct vertices.

The operators the drivers call but whose code is not shown are function values in `Remeshing.Operators`:

- `split_edge_trimesh`, `collapse_edge_trimesh` and `swap_edge_trimesh`;
- centroid smoothing;
- `edges()`, `edge_length`;
- the user callback.

`Remeshing.Sound` asks only that each of them keeps the store well-formed.

The two drivers differ in three ways, which `Remeshing.Config` and `Operators.callback` carry:

- `optimise_trimesh_topology` replaces `target_start` by the longest initial edge;
- it defaults a falsy `kmax_start` to `kmax / 2`;
- it recomputes the boundary set after every pass.

The legacy driver takes both values from the caller and keeps the boundary set of the initial mesh.

Two docstrings do not match their code. The model follows the code in each case:

- The legacy docstring says short edges are split and long ones collapsed. The code does the reverse (`Remeshing.PassDecisions`).
- The `split_edge` docstring says `ValueError` when `u` and `v` are not neighbours (`split.py` lines 31-32). The code raises `KeyError` from the half-edge lookups (lines 40-41), and `Split.SplitOutcome` follows the code.

The swap test compares the valence errors strictly. Valences (7, 7, 5, 5) give error 4 now and 0 after the flip, so the code swaps (`Remeshing.SevenSevenFiveFiveSwaps`). A real tie such as (7, 6, 5, 6) does not swap (`Remeshing.TieDoesNotSwap`).

## Model

| member | source | states |
|---|---|---|
| HalfEdgeMesh.Mesh.AddVertex | src/brg/datastructures/mesh/algorithms/split.py:64 | `add_vertex`: the new key is the next unused key; the vertex has the given attributes and no neighbours; the mesh stays well-formed |
| HalfEdgeMesh.Mesh.AddFace | src/brg/datastructures/mesh/tri.py:38 | base `add_face`: succeeds iff the vertex list is admissible and the requested key is unused; a refusal raises `TopologyError` and leaves the mesh unchanged; on success the key is the requested one or the next face key, and the new state is `AddFaceTo` |
| HalfEdgeMesh.Mesh.FaceVertices | src/brg/datastructures/mesh/operations/welding.py:10 | `face_vertices(fkey, ordered=True)`: `KeyError` iff the face is missing, else the face cycle listed once round |
| HalfEdgeMesh.AddFaceKeepsWellFormed | src/brg/datastructures/mesh/tri.py:38 | adding a face over free half-edges keeps the store well-formed |
| HalfEdgeMesh.AddFaceTo | src/brg/datastructures/mesh/tri.py:38 | adding a face keeps the vertices and the set of vertex rows; it stores the face's cycle under its key and moves the face counter past it |
| HalfEdgeMesh.AddVertexTo | src/brg/datastructures/mesh/algorithms/split.py:64 | `add_vertex` stores the attributes under the next vertex key with an empty half-edge row, advances the vertex counter and leaves the faces alone |
| HalfEdgeMesh.AddVertexKeepsWellFormed | src/brg/datastructures/mesh/algorithms/split.py:64 | adding a placed vertex with no neighbours keeps the store well-formed |
| Attributes.Coordinates | src/brg/datastructures/mesh/algorithms/split.py:46-47 | `vertex_coordinates` reads back exactly the stored `x`, `y`, `z` |
| Attributes.WithPosition | src/brg/datastructures/mesh/algorithms/split.py:64 | the keyword coordinates override `x`, `y`, `z`; every other attribute is kept |
| Attributes.Average | src/brg/datastructures/mesh/algorithms/split.py:55-62 | the scalar average iff both values are numbers; otherwise the element-wise average iff it is defined (an empty list or string gives `[]` without reading `v`); otherwise `None` |
| Attributes.AverageOfSelf | src/brg/datastructures/mesh/algorithms/split.py:57-60 | averaging a number or a list of numbers with itself gives it back |
| Attributes.AverageSymmetric | src/brg/datastructures/mesh/algorithms/split.py:57-60 | for two numbers, or two lists of equal length, the order of the end points does not matter |
| Attributes.AverageBetween | src/brg/datastructures/mesh/algorithms/split.py:57 | the scalar average lies between the two values |
| Attributes.Merged | src/brg/datastructures/mesh/algorithms/split.py:54-55 | the merged attributes have exactly the names of `u` |
| Attributes.MergeAttributes | src/brg/datastructures/mesh/algorithms/split.py:54-62 | the loop builds `Merged`: one averaged entry per attribute name of `u` |
| Attributes.SplitVertexAttributes | src/brg/datastructures/mesh/algorithms/split.py:54-64 | the new vertex is placed at the interpolated point; its other names are those of `u`, each holding the average |
| Attributes.SplitAttributes | src/brg/datastructures/mesh/algorithms/split.py:54-64 | the method computes `SplitVertexAttributes` |
| Split.SplitEdge | src/brg/datastructures/mesh/algorithms/split.py:34-82 | `ValueError` for `t` outside (0, 1) and `KeyError` for a failed lookup, both before any change; `None` with the mesh unchanged for a boundary edge unless allowed; otherwise the returned key is the next vertex key, the new state is `SplitTo` with the merged attributes, and the mesh stays well-formed |
| Split.SplitOutcome | src/brg/datastructures/mesh/algorithms/split.py:34-44 | `ValueError` iff `t` is outside (0, 1); `KeyError` iff `t` is valid and a lookup of `(u,v)` or `(v,u)` fails; a skip iff `t` is valid, both lookups succeed, boundary edges are not allowed and one of the two half-edges borders no face; a split returns the next vertex key |
| Split.SplitTo | src/brg/datastructures/mesh/algorithms/split.py:64-80 | the split adds exactly the new vertex, with the given attributes, under the next vertex key; it keeps the face keys and the face counter |
| Split.InsertOnEdge | src/brg/datastructures/mesh/algorithms/split.py:46-82 | the insertion and rewiring give `SplitTo` and return the fresh key |
| Split.RewireSplit | src/brg/datastructures/mesh/algorithms/split.py:65-80 | rewiring after `add_vertex` gives `SplitTo` and a well-formed mesh |
| Split.Rewire | src/brg/datastructures/mesh/algorithms/split.py:65-80 | the four half-edge assignments, two deletions and two face updates, in source order |
| Split.SplitAfterAddVertex | src/brg/datastructures/mesh/algorithms/split.py:64-80 | `SplitTo` is `add_vertex` followed by the rewiring |
| Split.SplitKeepsWellFormed | src/brg/datastructures/mesh/algorithms/split.py:64-80 | splitting an edge of a well-formed store with a placed vertex gives a well-formed store |
| Split.SplitRewiring | src/brg/datastructures/mesh/algorithms/split.py:64-76 | `w` is fresh with the given attributes; `(u,w)` and `(w,v)` carry the old face of `(u,v)`; `(v,w)` and `(w,u)` carry the old face of `(v,u)`; `(u,v)` and `(v,u)` are gone; `w`'s neighbours are exactly `u` and `v` |
| Split.SplitNearFace | src/brg/datastructures/mesh/algorithms/split.py:69-72 | the face left of `(u,v)` now steps `u→w→v`, grows by exactly one vertex, stays a single cycle, and keeps its other steps |
| Split.SplitSwap | src/brg/datastructures/mesh/algorithms/split.py:65-80 | splitting `(u,v)` and `(v,u)` give the same store, so the face right of the edge gets `v→w→u` the same way |
| Split.SplitFaceListing | src/brg/datastructures/mesh/algorithms/split.py:70-80 | each side face lists as before, with `w` inserted after `u` (after `v` on the other side) |
| Split.SplitKeepsOtherHalfedges | src/brg/datastructures/mesh/algorithms/split.py:65-80 | every half-edge other than `(u,v)` and `(v,u)` keeps its face; every new half-edge touches `w` |
| Split.SplitOtherFaces | src/brg/datastructures/mesh/algorithms/split.py:69-80 | the face keys are unchanged, and every face other than the two side faces is unchanged |
| Split.SplitDegrees | src/brg/datastructures/mesh/algorithms/split.py:64-76 | `w` has degree 2; `u` and `v` keep their degrees |
| Split.FreshKeyUnused | src/brg/datastructures/mesh/algorithms/split.py:64 | the next vertex key is no vertex, no neighbour and in no face |
| TriMesh.Trimmed | src/brg/datastructures/mesh/tri.py:34-35 | the list is unchanged, or exactly its last entry (equal to the first) is dropped |
| TriMesh.VertexList.DropClosing | src/brg/datastructures/mesh/tri.py:34-35 | the caller's list becomes `Trimmed` of itself |
| TriMesh.Normalised | src/brg/datastructures/mesh/tri.py:34-37 | `IndexError` iff the list is empty; any other error is `MeshError`; an accepted list has exactly three vertices |
| TriMesh.AddFace | src/brg/datastructures/mesh/tri.py:34-38 | the caller's list is trimmed in place; on a normalisation error nothing is added; otherwise the result is the base `add_face` with the trimmed list and the same key; a face over unbound half-edges leaves the mesh well-formed |
| TriMesh.NormalisedIff | src/brg/datastructures/mesh/tri.py:34-37 | accepted as `ys` iff `ys` has three entries and the input is `ys` (last differs from first) or `ys` closed by its first vertex |
| TriMesh.ClosedTriangleAccepted | src/brg/datastructures/mesh/tri.py:34-37 | `[a, b, c, a]` is admitted as `[a, b, c]` |
| TriMesh.DoublyClosedRejected | src/brg/datastructures/mesh/tri.py:34-37 | `[a, b, c, a, a]` raises `MeshError`: only one entry is stripped |
| Welding.Count | src/brg/datastructures/mesh/operations/welding.py:13-16 | the number of listed vertices that are unwelded is at most the face length |
| Welding.Replaced | src/brg/datastructures/mesh/operations/welding.py:13-17 | the new face has as many vertices as the old one |
| Welding.CopiedFacts | src/brg/datastructures/mesh/operations/welding.py:13-17 | the first loop adds exactly `Count` vertices, keyed after the old ones with empty rows, and changes nothing else |
| Welding.Effective | src/brg/datastructures/mesh/operations/welding.py:11-12 | an empty `where` stands for every vertex of the face |
| Welding.CoordsOnly | src/brg/datastructures/mesh/operations/welding.py:15-16 | a copy holds exactly `x`, `y`, `z`, at the original's position |
| Welding.FirstMissing | src/brg/datastructures/mesh/operations/welding.py:21-23 | the first entry of `where` that is not a vertex of the face, or the end |
| Welding.CopyVertices | src/brg/datastructures/mesh/operations/welding.py:13-17 | the first loop adds one copy per vertex in `where`, in face order; it returns the old list with those vertices replaced by the copies' keys |
| Welding.CopyNext | src/brg/datastructures/mesh/operations/welding.py:14-17 | one step of the first loop: a vertex in `where` is copied at its position and the copy's key is used; any other vertex is kept |
| Welding.CutAround | src/brg/datastructures/mesh/operations/welding.py:19-25 | for each key of `where` in turn, the half-edges from its predecessor and to its successor in the old face become `None`; the loop stops with `KeyError` at the first key that is not a vertex of the face |
| Welding.Inverse | src/brg/datastructures/mesh/operations/welding.py:20 | the reversed successor map |
| Welding.Rebuild | src/brg/datastructures/mesh/operations/welding.py:13-18 | copies, then `add_face` of the replaced list under the next face key |
| Welding.DeleteFace | src/brg/datastructures/mesh/operations/welding.py:26 | removes the old face key and changes nothing else |
| Welding.Unweld | src/brg/datastructures/mesh/operations/welding.py:8-26 | `KeyError` with the mesh unchanged for a missing face; otherwise the listing is the face's cycle and the status and state are `UnweldOutcome`; a completed `unweld` leaves the mesh well-formed |
| Welding.UnweldFace | src/brg/datastructures/mesh/operations/welding.py:13-26 | `unweld` after the listing: the status and state are `UnweldOutcome`, and a completed run leaves the mesh well-formed |
| Welding.UnweldOutcome | src/brg/datastructures/mesh/operations/welding.py:8-26 | `unweld` completes iff every entry of `where` is a vertex of the face; otherwise it raises `KeyError` |
| Welding.UnweldTo | src/brg/datastructures/mesh/operations/welding.py:13-26 | a completed `unweld` adds one vertex per unwelded face vertex, drops the old face and adds the new one under the next face key |
| Welding.Copied | src/brg/datastructures/mesh/operations/welding.py:13-17 | the first loop adds `Count` vertices and leaves the faces and the face counter alone |
| Welding.UnweldCopies | src/brg/datastructures/mesh/operations/welding.py:13-17 | the vertices added number the face vertices in `where`, with the keys right after the old ones |
| Welding.UnweldFaces | src/brg/datastructures/mesh/operations/welding.py:18-26 | the old face is gone; the new face lists the old one with the vertices of `where` replaced by their copies |
| Welding.UnweldCuts | src/brg/datastructures/mesh/operations/welding.py:19-25 | every step of the old face into or out of a vertex of `where` is a boundary half-edge afterwards |
| Welding.UnweldKeepsOtherHalfedges | src/brg/datastructures/mesh/operations/welding.py:21-25 | the cut loop changes no other half-edge |
| Welding.UnweldKeepsWellFormed | src/brg/datastructures/mesh/operations/welding.py:8-26 | on a well-formed mesh a completed `unweld` gives a well-formed mesh: the steps between kept vertices pass to the new face, the steps next to an unwelded vertex become boundary, and the old face is gone |
| Welding.UnweldHalfedge | src/brg/datastructures/mesh/operations/welding.py:18-26 | every half-edge left by `unweld` has its twin, and the face it names holds it as a step |
| Welding.UnweldFaceEdge | src/brg/datastructures/mesh/operations/welding.py:18-26 | every step of every face left by `unweld` is a half-edge bound to that face |
| Welding.NewFaceEdge | src/brg/datastructures/mesh/operations/welding.py:18-25 | no step of the new face is cut, so each stays bound to the new face |
| Welding.KeptFaceEdge | src/brg/datastructures/mesh/operations/welding.py:18-25 | the steps of every other face keep their half-edges, bound to that face |
| Welding.NotBoundToOld | src/brg/datastructures/mesh/operations/welding.py:18-26 | every half-edge the cut loop leaves alone is no longer bound to the old face |
| Remeshing.BoundaryVertices | src/compas/datastructures/mesh/algorithms/optimisation.py:110 | both ends of every half-edge without a face are in `vertices_on_boundary` |
| Remeshing.BoundaryVerticesOnBoundary | src/compas/datastructures/mesh/algorithms/optimisation.py:110 | `vertices_on_boundary` collects both ends of every half-edge without a face; on a well-formed mesh these are exactly the vertices with such a half-edge leaving them |
| HalfEdgeMesh.BoundaryBothWays | src/compas/datastructures/mesh/algorithms/optimisation.py:110 | on a well-formed mesh a vertex has an unbound half-edge leaving it iff it has one entering it |
| HalfEdgeMesh.BoundBalance | src/compas/datastructures/mesh/algorithms/optimisation.py:110 | around each vertex, the bound outgoing half-edges, the faces through it and the bound incoming half-edges are equally many |
| Remeshing.MinLength | src/compas/datastructures/mesh/algorithms/optimisation.py:100 | for a positive target and a tolerance in [0, 1), `0 < lmin < target` |
| Remeshing.MaxLength | src/compas/datastructures/mesh/algorithms/optimisation.py:101 | for a positive target and a non-negative tolerance, `lmax > target` |
| Remeshing.Slack | src/compas/datastructures/mesh/algorithms/optimisation.py:120-126 | `ZeroDivisionError` iff `k <= kmax_start == 0`; the slack is 0 once `k > kmax_start` |
| Remeshing.SlackEnds | src/compas/datastructures/mesh/algorithms/optimisation.py:120-126 | the slack starts at `l * fac` and is 0 from `k = kmax_start` on |
| Remeshing.SlackShrinks | src/compas/datastructures/mesh/algorithms/optimisation.py:120-126 | for non-negative `l` and `fac` the slack never grows with `k` and stays non-negative |
| Remeshing.Bound | src/compas/datastructures/mesh/algorithms/optimisation.py:120-126 | `ZeroDivisionError` iff `k <= kmax_start == 0`; once `k > kmax_start` the bound is the bare `lmax` (split) or `lmin` (otherwise) |
| Remeshing.PhasePeriod | src/compas/datastructures/mesh/algorithms/optimisation.py:131-221 | the phases run split, collapse, swap, idle with period exactly 4 |
| Remeshing.SwapImproves | src/compas/datastructures/mesh/algorithms/optimisation.py:208-211 | the swap test swaps iff the total deviation from 6 of the valences after the swap is strictly smaller |
| Remeshing.Valence | src/compas/datastructures/mesh/algorithms/optimisation.py:194-206 | the valence's deviation from 6 is the degree's deviation from the ideal degree: 4 on the boundary, 6 inside |
| Remeshing.SwapDecision | src/compas/datastructures/mesh/algorithms/optimisation.py:186-212 | the swap test raises only `KeyError`; it operates only on an interior edge, both of whose half-edges border a face, and only when the swap strictly lowers the valence error of u, v and the two opposite vertices, with the boundary bias |
| Remeshing.SwapTest | src/compas/datastructures/mesh/algorithms/optimisation.py:194-212 | once the lookups have succeeded the test never raises, and it swaps iff `SwapImproves` holds for the four biased valences |
| Remeshing.TieDoesNotSwap | src/compas/datastructures/mesh/algorithms/optimisation.py:208-212 | equal errors (7, 6, 5, 6) do not swap |
| Remeshing.SevenSevenFiveFiveSwaps | src/compas/datastructures/mesh/algorithms/optimisation.py:208-212 | valences (7, 7, 5, 5) have error 4, flipped 0, and swap |
| Remeshing.SwapDecisionLookups | src/compas/datastructures/mesh/algorithms/optimisation.py:186-197 | on a well-formed mesh the swap test's lookups fail iff `(u,v)` is not a half-edge |
| Remeshing.Mark | src/compas/datastructures/mesh/algorithms/optimisation.py:172-176 | an operated edge marks both end points, and a collapse also marks `u`'s remaining neighbours; `KeyError` iff the collapse removed `u` |
| Remeshing.Decide | src/compas/datastructures/mesh/algorithms/optimisation.py:145-212 | only the swap phase can raise, and only `KeyError`; the idle phase never operates |
| Remeshing.Apply | src/compas/datastructures/mesh/algorithms/optimisation.py:150-216 | the operator of the phase; the idle phase leaves the mesh as it is |
| Remeshing.Pass | src/compas/datastructures/mesh/algorithms/optimisation.py:137-218 | at most one operation per listed edge; marks are never removed; a pass raises only `KeyError` |
| Remeshing.WithActsTwice | src/compas/datastructures/mesh/algorithms/optimisation.py:140-153 | prepending two runs of operations is prepending their concatenation |
| Remeshing.PassOperates | src/compas/datastructures/mesh/algorithms/optimisation.py:140-153 | an operated edge adds one operation, then the pass continues on the new mesh with the new marks |
| Remeshing.PassSkips | src/compas/datastructures/mesh/algorithms/optimisation.py:140-146 | a visited or rejected edge changes nothing |
| Remeshing.PassActs | src/compas/datastructures/mesh/algorithms/optimisation.py:140-218 | every operation of a pass is on a listed edge, with both end points unvisited, chosen by the phase's test and applying the phase's operator |
| Remeshing.PassActsSeparated | src/compas/datastructures/mesh/algorithms/optimisation.py:142-176 | no later operation of a pass touches a vertex an earlier one marked |
| Remeshing.PassDecisions | src/compas/datastructures/mesh/algorithms/optimisation.py:145-216 | split only when longer than `lmax + dlmax`; collapse only when shorter than `lmin - dlmin`; swap only an interior edge with a strict gain; the idle phase does nothing |
| Remeshing.PassKeepsWellFormed | src/compas/datastructures/mesh/algorithms/optimisation.py:136-218 | with sound operators a pass keeps the mesh well-formed |
| Remeshing.ApplyKeepsWellFormed | src/compas/datastructures/mesh/algorithms/optimisation.py:150 | each operator call keeps the mesh well-formed |
| Remeshing.IterationShape | src/compas/datastructures/mesh/algorithms/optimisation.py:118-234 | an iteration runs the phase of `count + 1` and samples `n1` when `k % 20 == 0`; it breaks iff the convergence test holds, skipping smoothing; otherwise it fixes the boundary set, smooths, calls back and advances or resets `count` |
| Remeshing.Conclude | src/compas/datastructures/mesh/algorithms/optimisation.py:137-231 | an exception of the pass is raised with the pass's mesh; the only other exception is `ZeroDivisionError`; a break happens only at `k % 20 == 10` after the ramp |
| Remeshing.Iteration | src/compas/datastructures/mesh/algorithms/optimisation.py:118-234 | an iteration raises only `KeyError` or `ZeroDivisionError`, and breaks only at `k % 20 == 10` after the ramp |
| Remeshing.Run | src/compas/datastructures/mesh/algorithms/optimisation.py:118-234 | a run raises only `KeyError` or `ZeroDivisionError` |
| Remeshing.Continue | src/compas/datastructures/mesh/algorithms/optimisation.py:118-234 | the exception of the iteration ends the run; otherwise the rest of the run raises only `KeyError` or `ZeroDivisionError` |
| Remeshing.IterationKeepsWellFormed | src/compas/datastructures/mesh/algorithms/optimisation.py:118-234 | an iteration keeps the mesh well-formed |
| Remeshing.WithRecordsTwice | src/compas/datastructures/mesh/algorithms/optimisation.py:118 | prepending two record lists is prepending their concatenation |
| Remeshing.RunNext | src/compas/datastructures/mesh/algorithms/optimisation.py:118 | an iteration that goes on adds one record to the rest of the run |
| Remeshing.RunLength | src/compas/datastructures/mesh/algorithms/optimisation.py:118-227 | at most `kmax` iterations; exactly `kmax` when none breaks; a break at `k` is the last record |
| Remeshing.ContinueLength | src/compas/datastructures/mesh/algorithms/optimisation.py:118-227 | the bounds of `RunLength` for the run as continued from the step of iteration `k`, whatever that step is |
| Remeshing.PhasesCons | src/compas/datastructures/mesh/algorithms/optimisation.py:131-221 | the phase rule extends by one record |
| Remeshing.CounterStep | src/compas/datastructures/mesh/algorithms/optimisation.py:131-221 | with `count == k % 4` the phase is that of `k`, and the next counter is `(k + 1) % 4` |
| Remeshing.RunPhases | src/compas/datastructures/mesh/algorithms/optimisation.py:131-221 | iteration `k` of a run runs phase `k % 4` |
| Remeshing.SampledCons | src/compas/datastructures/mesh/algorithms/optimisation.py:133-134 | the sampling rule extends by one record |
| Remeshing.Sampled | src/compas/datastructures/mesh/algorithms/optimisation.py:133-134 | `n1` is the current vertex count when `k % 20 == 0` and the carried value otherwise |
| Remeshing.RunSampling | src/compas/datastructures/mesh/algorithms/optimisation.py:133-134 | `n1` is resampled exactly when `k % 20 == 0` and carried over otherwise |
| Remeshing.RunSampledAt | src/compas/datastructures/mesh/algorithms/optimisation.py:133-134 | the `n1` of iteration `k` is the vertex count at the start of iteration `k - k % 20` |
| Remeshing.SampledBack | src/compas/datastructures/mesh/algorithms/optimisation.py:133-134 | a carried `n1` goes back to the last sampling iteration |
| Remeshing.BreaksCons | src/compas/datastructures/mesh/algorithms/optimisation.py:223-227 | the break rule extends by one record |
| Remeshing.Converges | src/compas/datastructures/mesh/algorithms/optimisation.py:226 | the ratio test holds iff `1 - n1/n2` lies strictly between `-divergence` and `divergence`, which needs a positive `divergence` |
| Remeshing.BreaksAt | src/compas/datastructures/mesh/algorithms/optimisation.py:223-227 | a break happens only when `k % 20 == 10`, `k > kmax_start`, the mesh is not empty and the ratio test holds |
| Remeshing.RunBreaks | src/compas/datastructures/mesh/algorithms/optimisation.py:223-227 | an iteration breaks iff `k % 20 == 10`, `abs(1 - n1/n2) < divergence` and `k > kmax_start`; the run then ends as converged at that `k` |
| Remeshing.RunFixed | src/compas/datastructures/mesh/algorithms/optimisation.py:230-231 | every smoothing fixes the boundary set of the mesh after the pass (current driver) or the initial one (legacy driver) |
| Remeshing.RunKeepsWellFormed | src/compas/datastructures/mesh/algorithms/optimisation.py:118-234 | with sound operators the whole run keeps the mesh well-formed |
| Remeshing.ContinueKeepsWellFormed | src/compas/datastructures/mesh/algorithms/optimisation.py:118-234 | the rest of a run after a well-formed iteration ends in a well-formed mesh |
| Remeshing.ZeroRampRaises | src/brg/datastructures/mesh/algorithms/tri/topology.py:52-57 | a zero ramp length raises `ZeroDivisionError` in the first iteration with the mesh untouched |
| Remeshing.RunPass | src/compas/datastructures/mesh/algorithms/optimisation.py:137-218 | the in-place pass ends in `Pass` of the initial mesh and keeps the mesh well-formed |
| Remeshing.RunIteration | src/compas/datastructures/mesh/algorithms/optimisation.py:119-234 | one in-place iteration gives `Iteration` and leaves its mesh |
| Remeshing.RemeshLoop | src/compas/datastructures/mesh/algorithms/optimisation.py:110-234 | the in-place loop from the initial mesh and boundary set gives `Run` from iteration 0 |
| Remeshing.Lengths | src/compas/datastructures/mesh/algorithms/optimisation.py:103-105 | one length per edge, in edge order |
| Remeshing.Max | src/compas/datastructures/mesh/algorithms/optimisation.py:106 | `ValueError` iff the list is empty, else an element no smaller than any other |
| Remeshing.Largest | src/compas/datastructures/mesh/algorithms/optimisation.py:106 | an element no smaller than any other |
| Remeshing.LargestIsMax | src/compas/datastructures/mesh/algorithms/optimisation.py:106 | the maximum is unique |
| Remeshing.OptimiseConfig | src/compas/datastructures/mesh/algorithms/optimisation.py:100-116 | `ValueError` for a mesh without edges, then `ZeroDivisionError` for a zero target; a configuration exactly when there are edges and the target is nonzero, with the thresholds, `fac = max length / target`, `kmax_start` defaulted to `kmax / 2` when falsy, `divergence` and `allow_boundary` passed through, and a refreshed boundary set |
| Remeshing.OptimiseRampDefined | src/compas/datastructures/mesh/algorithms/optimisation.py:113-126 | with the default in place the ramp never divides by zero within `kmax` iterations |
| Remeshing.OptimiseTrimeshTopology | src/compas/datastructures/mesh/algorithms/optimisation.py:100-234 | a configuration error is raised with the mesh unchanged; otherwise the result and mesh are `Run` of the configuration |
| Remeshing.RemeshConfig | src/brg/datastructures/mesh/algorithms/tri/topology.py:43-52 | `TypeError` for a missing `target_start`, then `ZeroDivisionError` for a zero target, then `TypeError` for a missing `kmax_approach`; otherwise the thresholds, `fac = target_start / target`, `divergence` and `allow_boundary` passed through, and the boundary set of the initial mesh |
| Remeshing.Remesh | src/brg/datastructures/mesh/algorithms/tri/topology.py:43-167 | a configuration error is raised with the mesh unchanged; otherwise the result and mesh are `Run` of the configuration |
| Graph.Lookup | src/compas/datastructures/network/algorithms/graph.py:32-35 | only `KeyError` is raised; from the network's attributes the lookup succeeds iff the vertex has both `x` and `y`, and from given coordinates iff the key is present; on success it returns that vertex's `(x, y)` |
| Graph.Row | src/compas/datastructures/network/algorithms/graph.py:28 | the inner loop pairs the edge with every edge, in order |
| Graph.RowsMembers | src/compas/datastructures/network/algorithms/graph.py:27-28 | the nested loops visit exactly the ordered pairs of listed edges |
| Graph.NeverWithItself | src/compas/datastructures/network/algorithms/graph.py:29-30 | an edge paired with itself is always skipped |
| Graph.Test | src/compas/datastructures/network/algorithms/graph.py:32-36 | the test raises `KeyError` iff one of the four lookups fails |
| Graph.Found | src/compas/datastructures/network/algorithms/graph.py:72-85 | the only exception is `KeyError`; no more crossings than pairs |
| Graph.Counted | src/compas/datastructures/network/algorithms/graph.py:56-69 | the only exception is `KeyError`; the count is at most the number of pairs |
| Graph.Crossed | src/compas/datastructures/network/algorithms/graph.py:26-38 | the only exception is `KeyError`; a network is crossed only when some disjoint pair is hit |
| Graph.FoundMembers | src/compas/datastructures/network/algorithms/graph.py:72-85 | a pair is reported iff it is listed, disjoint and hit |
| Graph.CountedIsFound | src/compas/datastructures/network/algorithms/graph.py:56-85 | the count succeeds iff the list does, and equals its length |
| Graph.CrossedIsCountPositive | src/compas/datastructures/network/algorithms/graph.py:26-69 | the network is crossed iff the count is positive |
| Graph.CrossedSettled | src/compas/datastructures/network/algorithms/graph.py:36-37 | once a hit or an error is reached, later pairs change nothing |
| Graph.FoundSettled | src/compas/datastructures/network/algorithms/graph.py:79-82 | once a lookup fails, later pairs change nothing |
| Graph.CountedSettled | src/compas/datastructures/network/algorithms/graph.py:63-66 | once a lookup fails, later pairs change nothing |
| Graph.TwoEdgePairs | src/compas/datastructures/network/algorithms/graph.py:57-58 | for two edges the nested loops visit (e,e), (e,f), (f,e), (f,f) in that order |
| Graph.CrossingBothWays | src/compas/datastructures/network/algorithms/graph.py:56-85 | two disjoint edges that cross in both orders are counted twice and reported as both ordered pairs |
| Graph.BothOrdersCount | src/compas/datastructures/network/algorithms/graph.py:56-85 | two crossing edges count 2 and are reported in both orders |
| Graph.SeenStep | src/compas/datastructures/network/algorithms/graph.py:27-28 | the inner loop visits one more pair per step |
| Graph.SeenRow | src/compas/datastructures/network/algorithms/graph.py:27-28 | a finished inner loop completes a row, and the last row completes all pairs |
| Graph.SeenPrefix | src/compas/datastructures/network/algorithms/graph.py:27-28 | the pairs visited so far are a prefix of all pairs |
| Graph.FoundAbort | src/compas/datastructures/network/algorithms/graph.py:79-82 | a lookup error ends the enumeration with that error, whatever pairs follow |
| Graph.CountedAbort | src/compas/datastructures/network/algorithms/graph.py:63-66 | a lookup error ends the count with that error, whatever pairs follow |
| Graph.CrossedAbort | src/compas/datastructures/network/algorithms/graph.py:32-37 | a hit or a lookup error ends the crossing test, whatever pairs follow |
| Graph.FindNetworkCrossings | src/compas/datastructures/network/algorithms/graph.py:72-85 | the nested loops compute `Found` over all pairs |
| Graph.CountNetworkCrossings | src/compas/datastructures/network/algorithms/graph.py:56-69 | the nested loops compute `Counted` over all pairs |
| Graph.AnyCrossing | src/compas/datastructures/network/algorithms/graph.py:26-38 | the nested loops with early return compute `Crossed` over all pairs |
| Graph.CrossingsInRow | src/compas/datastructures/network/algorithms/graph.py:74-85 | the inner loop of `find_network_crossings` for one edge extends the crossings found so far by its row, or returns the error of the whole scan |
| Graph.CrossingsPair | src/compas/datastructures/network/algorithms/graph.py:75-85 | one inner step: a pair sharing an end point is skipped, a hit pair is appended, a failed lookup is the error of the whole scan |
| Graph.CountInRow | src/compas/datastructures/network/algorithms/graph.py:58-69 | the inner loop of `count_network_crossings` for one edge raises the count by its row, or returns the error of the whole scan |
| Graph.CountPair | src/compas/datastructures/network/algorithms/graph.py:58-68 | one inner step: a pair sharing an end point is skipped, a hit pair adds one, a failed lookup is the error of the whole scan |
| Graph.CrossingInRow | src/compas/datastructures/network/algorithms/graph.py:28-37 | the inner loop for one edge: `False` so far when its row holds no disjoint hit pair and no failed lookup, otherwise the answer of the whole scan |
| Graph.IsNetworkCrossed | src/compas/datastructures/network/algorithms/graph.py:26-38 | `Crossed` over the network's coordinates |
| Graph.AreNetworkEdgesCrossed | src/compas/datastructures/network/algorithms/graph.py:41-53 | `Crossed` over the given coordinates |
| Graph.CrossedIff | src/compas/datastructures/network/algorithms/graph.py:26-38 | when every lookup succeeds, the network is crossed iff some ordered pair of disjoint edges is hit |
| Graph.FoundTotal | src/compas/datastructures/network/algorithms/graph.py:72-85 | when every test succeeds, so does the enumeration |
| Graph.Heights | src/compas/datastructures/network/algorithms/graph.py:89-95 | each vertex's `z` in the order of the keys, with a missing `z` read as 0.0 |
| Graph.IsNetwork2d | src/compas/datastructures/network/algorithms/graph.py:88-96 | the loop over the network's keys, in the order the network yields them, with its running `z` computes `Flat` of their heights |
| Graph.FlatIff | src/compas/datastructures/network/algorithms/graph.py:88-96 | without `None` heights: flat iff all heights are equal; an empty network is flat |
| Graph.Flat | src/compas/datastructures/network/algorithms/graph.py:88-96 | once a height is held, every later height equals it when the scan says flat |
| Graph.FlatHeld | src/compas/datastructures/network/algorithms/graph.py:93-95 | once a height is held, the rest is flat iff every height equals it |
| Graph.FlatNetwork | src/compas/datastructures/network/algorithms/graph.py:88-96 | without `None` heights, whatever order the network yields its keys in, the network is flat iff all its vertices have the same height |
| Graph.NoneResetsHeight | src/compas/datastructures/network/algorithms/graph.py:91-92 | a stored `None` height is replaced by the next one: `[None, 1.0]` is flat, `[1.0, None]` is not |
| Graph.PlanarEmbedding | src/compas/datastructures/network/algorithms/graph.py:155-158 | true iff planar, flat over the network's own keys and not crossed; false without evaluating the rest when not planar |

## Left out

- Floating point: coordinates, lengths, thresholds and vertex-count ratios are reals. Rounding is not modelled.
- Verbose printing in both drivers is not modelled.
- The operators the drivers call have no code here and are abstract in `Remeshing.Operators`. They are `split_edge_trimesh`, `collapse_edge_trimesh`, `swap_edge_trimesh` and centroid smoothing. `Remeshing.Sound` assumes only that they keep the mesh well-formed. Their own results and errors are not modelled.
- `edges()` and `edge_length` are abstract functions of the mesh. The pass takes the edge list once at its start. A generator that sees its own mesh change during the pass is not modelled.
- The user callback is an optional function of the mesh and `k`. The extra `ufunc_args` of the current driver are captured in that function.
- `Line.scale` (the point at parameter `t` on the edge) is a function parameter of `Split.SplitEdge`.
- The segment-intersection test is the function parameter `hit` of the crossing scans.
- `is_network_planar` depends on the foreign planarity package. It is a boolean parameter of `Graph.PlanarEmbedding`.
- `embed_network_in_plane` uses networkx, a random layout and floating-point rotation, and is not modelled.
- Graph.AreNetworkEdgesCrossed: takes the coordinates as a map, so a missing key raises `KeyError`. A caller's list indexed by vertex number, which would raise `IndexError`, is not modelled.
- Graph.FindNetworkCrossings: `find_network_crossings` reads the end points through `vertex_coordinates(key, 'xy')` (`graph.py` lines 79-82). The model reads them as the same `x`/`y` lookup as the other scans, with `KeyError` when one is missing.
- Graph.IsNetwork2d: the order in which `for key in network` yields the keys is a parameter `ks`. Any listing of the network's keys without repeats is admitted; which one the network uses is not modelled.
- Remeshing.RemeshConfig: divides `target_start` by `target` as reals. When both are Python 2 integers the legacy driver floor-divides them first; that case is not modelled.
- After a collapse that removes `u`, `mesh.halfedge[u]` raises `KeyError`, and the model reports that error. Whether a collapse can remove `u` depends on the collapse operator, which is abstract here.
- HalfEdgeMesh.Mesh.FaceVertices: the start vertex of the listing is not fixed. Any start the successor map allows is accepted.
- HalfEdgeMesh.Mesh.AddFace: the base `add_face` is not part of this model. Its refusal rules are pinned in `Admissible` and the key check: at least 3 vertices, all distinct, all known, and an unused face key. On success, `AddFaceTo` (through `BindRow`) overwrites a half-edge already bound to another face, where a manifold-checking `add_face` would raise `TopologyError`. `unweld` needs that overwrite: it adds the new face while the old face still binds the steps between kept vertices. The result is well-formed only when no step of the new face was bound before (`Unbound`).
- Vertex keys and face keys are integers, drawn from counters.
- The mesh constructors, file I/O and drawing are not modelled.
