# Mesh analysis core of learnply, in Dafny

This project models the mesh-analysis core of learnply's `Structs.h`:

- **Triangle soup mesh.** The `Mesh` buffers are filled by `AddTriangle`/`AddVertex`. Every corner is appended with its own identity index and a fixed colour, and nothing is deduplicated.
- **Adjacency builder.** `AnalyzeVertices` merges corners that are `Equals` within `EPSILON` into distinct analysed positions. Each position gets a neighbour list.
- **Critical-point classifier.** `FindCriticalPoints` reports every analysed position with no neighbour lower in `y` as a minimum. It reports every position with no neighbour higher in `y` as a maximum. It never reports a saddle.
- **Tolerance equality.** This is `Vector3::Equals` and `Vector4::Equals`.
- **Flat index arithmetic.** This is `Dataset::GetIndex`.

Module layout:

- `geometry.dfy` (`Geometry`): the point types and tolerance equality. Coordinates are exact reals. `Distance(a, b) <= EPSILON` is stated as the equivalent squared test `SquaredDistance(a, b) <= EPSILON * EPSILON`.
- `dataset.dfy` (`Volume`): `GetIndex`, and the inverse map `CellOf` used to prove it injective.
- `adjacency.dfy` (`Adjacency`): what the adjacency builder computes, as a fold `Scan` of one `Step` per corner of the index buffer. Also the properties of that fold.
- `critical_points.dfy` (`CriticalPoints`): what the classifier computes, as the function `Critical`, and its properties.
- `mesh.dfy` (`Meshes`): the `Mesh` class with `seq` fields and the methods of the source, with their loops. Each method is proved against the functions above.
- `scenarios.dfy` (`Scenarios`): small worked meshes whose adjacency and classification are computed exactly.

### The code is followed as written

The adjacency builder always takes `vertices[triangles[i+1]]` and `vertices[triangles[i+2]]` as the candidate neighbours, whatever the corner `j` is (`learnply/Structs.h:234-235`, `242-243`). A reading in which each corner records the other two corners of its triangle would give a symmetric relation; the code does not do that. The model follows the code, which has three consequences:

- every recorded neighbour is the vertex of some slot d with `d % 3 != 0`, so a position that occurs only in first slots is nobody's neighbour (`ScanNeverFirstCorner`, `FirstSlotOnlyIsNobodysNeighbour`);
- the second and third corners list themselves;
- the relation is not symmetric (`SharedEdgeAdjacency`).

The classifier is stated over these lists exactly as built.

## Model

| member | source | states |
|---|---|---|
| Geometry.EqualsReflexive | learnply/Structs.h:51-53 | every position is `Equals` to itself |
| Geometry.EqualsSymmetric | learnply/Structs.h:39-41 | `Equals(a, b)` holds exactly when `Equals(b, a)` does, since the distance is symmetric |
| Geometry.EqualsBoundedByTolerance | learnply/Structs.h:39-53 | points at most EPSILON/2 apart in every coordinate are equal; equal points differ by at most EPSILON in each coordinate |
| Geometry.EqualsNotTransitive | learnply/Structs.h:51-53 | some a, b, c have a equal to b and b equal to c, while a is not equal to c |
| Geometry.EqualsWithinTolerance | learnply/Structs.h:14 | points 1e-6 apart along z are equal; points 2e-5 apart are not |
| Geometry.Equals4Reflexive | learnply/Structs.h:90-92 | every Vector4 is `Equals` to itself |
| Geometry.Equals4Symmetric | learnply/Structs.h:90-92 | Vector4 equality is symmetric |
| Volume.GetIndexInRange | learnply/Structs.h:123-125 | every in-grid cell maps into `[0, width*height*depth)` |
| Volume.CellOfGetIndex | learnply/Structs.h:123-125 | `CellOf` recovers `(x, y, z)` from the flat index of an in-grid cell |
| Volume.GetIndexInjective | learnply/Structs.h:123-125 | two in-grid cells have the same flat index iff they are the same cell |
| Adjacency.FirstMatchSpec | learnply/Structs.h:220-226 | the result is -1 iff no analysed position equals v; otherwise it is an index whose position equals v, with no equal position before it |
| Adjacency.StepSpec | learnply/Structs.h:228-252 | for an unmatched corner, the step appends the corner with list `[v1, v2]`. For a matched one, keys are unchanged and only the matched list changes: it keeps its elements in order and gains v1 once iff no earlier element equals v1 and v2 once iff none equals v2, nothing else, and a gained v1 comes first |
| Adjacency.StepGrows | learnply/Structs.h:228-252 | one corner adds at most one key; every existing key and list keeps its prefix |
| Adjacency.ScanGrows | learnply/Structs.h:216-258 | for m <= n, the state after n corners is a prefix-wise extension of the state after m, so positions and lists are append-only |
| Adjacency.ScanSeparated | learnply/Structs.h:220-239 | after any number of corners, no analysed position is `Equals` to an earlier one |
| Adjacency.SeparatedDistinct | learnply/Structs.h:51-53 | positions that are pairwise not `Equals` are pairwise different |
| Adjacency.ScanCovers | learnply/Structs.h:216-239 | every processed corner is `Equals` to some analysed position |
| Adjacency.ScanSeeds | learnply/Structs.h:233-238 | every entry was created by some corner c: its key is that corner, and its list starts with the second and third corners of c's triangle, so it has length >= 2 |
| Adjacency.ScanProvenance | learnply/Structs.h:233-252 | every element of every list is the second or third corner of the triangle of some corner that is `Equals` to that entry's key |
| Adjacency.ScanRecordsCandidates | learnply/Structs.h:220-252 | after n corners, for every corner c < n, some entry equals c's position and the first such entry's list mentions both of c's candidates (the vertices in the second and third slots of c's triangle) |
| Adjacency.ScanNeverFirstCorner | learnply/Structs.h:242-243 | every recorded neighbour is the vertex of some index slot d with `d % 3 != 0` |
| Adjacency.FirstSlotOnlyIsNobodysNeighbour | learnply/Structs.h:233-252 | a position that is the vertex of no second or third slot appears in no neighbour list |
| CriticalPoints.CriticalIndicesExact | learnply/Structs.h:269-282 | the selected indices increase strictly, and i is selected iff i < n and position i is an extremum of the kind |
| CriticalPoints.CriticalIsSubsequence | learnply/Structs.h:284-295 | the reported list is the subsequence of analysed positions at the selected indices, in index order |
| CriticalPoints.CriticalMembership | learnply/Structs.h:269-295 | for pairwise-different positions, position i is reported iff it is an extremum of the kind among its neighbours |
| CriticalPoints.PlateauIsBoth | learnply/Structs.h:273-282 | a position is both minimum and maximum iff every neighbour has its y |
| Meshes.IndexOfMatch | learnply/Structs.h:220-226 | the early-exit scan returns exactly `FirstMatch` |
| Meshes.ScanNeighbours | learnply/Structs.h:244-250 | the early-exit scan's two flags are exactly "some element equals v1" and "some element equals v2" |
| Meshes.Classify | learnply/Structs.h:273-282 | `isMax` is true iff no neighbour is higher in y; `isMin` is true iff no neighbour is lower |
| Meshes.Mesh.constructor | learnply/Structs.h:169-181 | a new mesh has every buffer and list empty, and satisfies the buffer invariant |
| Meshes.Mesh.AddVertex | learnply/Structs.h:189-194 | appends v, the index equal to the old vertex count, and the colour's three components; earlier entries are unchanged; keeps the buffer invariant (one identity index and three colour values per vertex) |
| Meshes.Mesh.AddTriangle | learnply/Structs.h:183-187 | appends v0, v1, v2 in order, the three next indices and the colours (1,0,0), (0,1,0), (0,0,1); keeps whole triangles and valid indices |
| Meshes.Mesh.TriangulatedIsIndexable | learnply/Structs.h:189-191 | buffers built by AddTriangle are valid adjacency input: a multiple of three indices, all in range |
| Meshes.Mesh.AnalyzeVertices | learnply/Structs.h:211-262 | the lists become `Scan` of the whole index buffer, whatever they held before. They are parallel, separated, and cover every corner |
| Meshes.Mesh.AnalyzeTriangle | learnply/Structs.h:218-257 | the inner loop over the three corners of the triangle at slot i advances the lists from `Scan` of the first i corners to `Scan` of the first i+3 |
| Meshes.Mesh.AnalyzeCorner | learnply/Structs.h:219-256 | one iteration of the corner loop performs exactly one `Step` with candidates `vertices[triangles[i+1]]` and `vertices[triangles[i+2]]`, so it extends `Scan` by one corner |
| Meshes.Mesh.ScanNext | learnply/Structs.h:216-219 | the loop visits corners in index-buffer order: corner i+j lies in the triangle starting at slot i |
| Meshes.Mesh.FindCriticalPoints | learnply/Structs.h:264-308 | `saddles` ends empty; `mins` and `maxs` are the minima and maxima among the analysed positions, in index order |
| Meshes.AnalyzeVerticesTwice | learnply/Structs.h:211-214 | running the adjacency builder twice in a row leaves the same lists as running it once |
| Meshes.AnalyzeAndClassify | learnply/Structs.h:211-308 | after both passes, position i is in `mins` (`maxs`) iff no neighbour in its list is lower (higher) in y; `saddles` is empty |
| Scenarios.SharedEdgeAdjacency | learnply/Structs.h:233-252 | for triangles (A,B,C), (B,C,D) the lists are `[B,C]`, `[B,C,D]`, `[B,C,D]`, `[C,D]`: A is in no list, B and C list themselves, C neighbours A but not the reverse |
| Scenarios.SharedEdgeCriticalPoints | learnply/Structs.h:273-295 | on those lists, the minima are A, B, D and the maxima are C, D |
| Scenarios.SharedEdgePipeline | learnply/Structs.h:183-308 | building that mesh with AddTriangle and running both passes yields those minima and maxima |
| Scenarios.ToleranceMerge | learnply/Structs.h:220-252 | a corner 1e-6 from an earlier position merges into its entry, whose list gains the new triangle's candidates |

## Left out

- Logging to `std::cout` and the fixed debug probe vertex `(0.5, -0.5, 0.669099)`. They print only and change no state.
- `Vector3::toString` and `Vector4::toString`: presentation only.
- The `uniqueVertices` map and the commented-out deduplicating path of `AddVertex`. They are dead code.
- The vector constructors: the model builds values directly.
- Floating point. Coordinates, distances and colours are exact reals; `sqrtf`/`powf` rounding, NaN and infinities are not modelled. A vertex with a NaN `y` makes the classifier's comparisons, which look at `y` only, all false, so it would be both a minimum and a maximum. A position with any NaN coordinate never `Equals` anything, itself included, so each such corner opens its own entry.
- Geometry.Equals4: takes `abs` on the `w` gap as the real absolute value. If the call resolves to the integer overload, the source truncates the gap first; that is not modelled.
- Fixed-width integers. The model does not capture 32-bit overflow in `GetIndex`, in the `unsigned int` triangle indices or in the `int` loop counters compared with `size()`. All of them are unbounded here.
- Volume.GetIndexInRange: holds only on in-grid cells. The source also accepts out-of-grid arguments, and the model gives them no bound.
- Most of `Dataset`: its constructor, `ClearDataset`, `AddLayer`, `GetValue`, the name, channels and value buffer. This is memory management and image-byte input with float averaging; only the grid extent and `GetIndex` are modelled.
- Meshes.Mesh.AnalyzeVertices: requires a multiple of three indices, all in range. The source reads out of bounds otherwise, which is undefined behaviour; `AddTriangle` always keeps this condition.
- Saddle detection: the source never fills `saddles`, and the model proves it stays empty.
- Meshes.Mesh.AddTriangle: describes one call. The count after T calls (`3T` vertices and indices) follows by applying its contract T times, and is not a separate lemma.
