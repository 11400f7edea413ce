# XIVPainter ground-height cache and geometry helpers, in Dafny

This project models two parts of the XIVPainter overlay library and proves properties of them.

**`RaycastManager`** is a bounded cache of ground heights. Its keys are the horizontal
position (X, Z) of a point, rounded to one decimal place. The keys are kept in a
`SortedList` ordered by `Vector2Comparer`. Around the cache sit three mechanisms:

- a FIFO queue of points waiting to be raycast, drained by a single worker;
- a per-frame maintenance task that evicts the entries farthest from the player
  until at most `compacity` entries remain, then updates the two-tick "may add" gate;
- the `Raycast` query, which answers from the cache with the height clamped to a band
  around the caller's height, and queues the point when the gate is open.

**`DrawingHelper`** provides three routines:

- the even-odd point-in-polygon test over several rings;
- the recursive split of a polygon into pieces at reflex vertices;
- the easing-curve composer with its polynomial ease-out curves.

Modules, leaf first:

| file | module | models |
|---|---|---|
| wrappers.dfy | `Wrappers` | `Option`, for values that may be absent |
| vectors.dfy | `Vectors` | `Vector2`, `Vector3` over `real`, and `Enumerable.Reverse` |
| grid_keys.dfy | `GridKeys` | cache keys in whole tenths, `(int)` truncation, `Vector2Comparer`, `GetKey`, distance |
| sorted_heights.dfy | `SortedHeights` | `SortedList`'s parallel key and value arrays, the binary search, the lookup of `GetHeight`, `MaxBy` |
| raycast_manager.dfy | `Raycast` | class `RaycastManager`, with the cache, queue and flags as fields |
| polygon.dfy | `Polygon` | `InLine` and `IsPointInside` |
| convex.dfy | `Convex` | `ConvexPoints` and `ConvexPointsOrdered` |
| easing.dfy | `Easing` | `FindOutFuction` and `EaseFuncRemap` |

Modelling choices:

- **Keys** are whole numbers of tenths. `float.Round(v, 1)` is `RoundTenths`, which rounds
  to the nearest tenth with ties to even. The `(int)` cast in the comparer truncates toward
  zero (`Trunc`), whereas Dafny's `/` does not. `Vector2.Distance(a, b) > 3` is compared
  as a squared distance, `Dist2 > 900`, in tenths squared.
- **Stored heights** are `Known(y)` or `Unknown`. `Unknown` is the NaN the raycast stores
  when it hits nothing.
- **The background tasks.** Each of the two `Task.Run` bodies becomes one atomic method,
  `UpdateTask` and `RaycastTask`. The launching methods, `Update` and `RunRaycast`, only
  test and set their running flag. In the model, then, a query never sees the point it
  has just queued. That ordering is this model's choice: in the original the worker runs
  beside the query, and whether the query sees the new entry depends on thread scheduling.
- **External inputs become parameters.** The collision raycast is `cast: Vector3 -> Height`.
  The player's position is `Option<Vector3>`; `None` stands for a missing client state or
  local player.
- **`PointCross` needs a square root.** Its threshold test (`> 0.1f`) and the normalised
  dot product that chooses the partner vertex are therefore parameters (`Turns`). A NaN
  dot product is an absent alignment (`None`).
- **Easing curves.** `Math.Sin`, `Math.Sqrt`, `Math.PI` and `Math.Pow` with a real
  exponent are parameters (`Transcendentals`). `Math.Pow` with a whole exponent is
  computed exactly.
- **Behaviour that follows the code:**
  - On a cache miss, `Raycast` keeps the caller's height and succeeds.
  - Only a stored NaN makes it fail.
  - The clamp runs even after a miss, so a negative `height` moves the point
    (`Raycast.ResolveMissNegativeHeight`).
  - `ConvexPoints` on an empty array divides by zero inside `PointCross`; the model
    reports `Throws`.
  - When the partner vertex of `ConvexPointsOrdered` is still 0 and lies next to the
    break vertex, the method calls itself on the same array forever. The model reports
    `Diverges` (see Findings).
  - `Union` over freshly built arrays removes nothing, and no piece of a split has fewer
    than three vertices. The split result is therefore the concatenation of the two
    recursive results.
  - Nothing inside the `try` block can raise an exception, so the `catch` fallback is
    never reached.

## Model

| member | source | states |
|---|---|---|
| GridKeys.Trunc | XIVPainter/RaycastManager.cs:15-19 | the `(int)` cast of a tenths value truncates toward zero: the result lies between 0 and the value, within one unit of it |
| GridKeys.CompareTo | XIVPainter/RaycastManager.cs:28-35 | `CompareTo` is -1, 0 or 1: negative iff a < b, zero iff a = b |
| GridKeys.Compare | XIVPainter/RaycastManager.cs:13-36 | the comparer returns -1, 0 or 1, and 0 exactly when the two keys are equal |
| GridKeys.CompareIsStrictTotalOrder | XIVPainter/RaycastManager.cs:13-36 | the comparer is antisymmetric, irreflexive, total and transitive, the order binary search relies on |
| GridKeys.CompareGroupsByUnitCell | XIVPainter/RaycastManager.cs:28-35 | truncated coordinates decide before exact ones: (1.5, 3.0) sorts before (1.0, 5.0) |
| GridKeys.RoundTenths | XIVPainter/RaycastManager.cs:144-145 | `float.Round(v, 1)` lands within half a tenth of v, with ties going to the even tenth |
| GridKeys.GetKeyIgnoresHeight | XIVPainter/RaycastManager.cs:144-145 | a point's key depends only on its X and Z, not on its height |
| GridKeys.Dist2 | XIVPainter/RaycastManager.cs:137 | the squared key distance is non-negative and zero exactly for equal keys |
| SortedHeights.Position | XIVPainter/RaycastManager.cs:133-134 | the insertion point: every key before it is below the sought key, and the key at it is not |
| SortedHeights.PositionSplitsSorted | XIVPainter/RaycastManager.cs:133-134 | in a sorted key array every key from the insertion point on is at least the sought key |
| SortedHeights.PositionOfStored | XIVPainter/RaycastManager.cs:133-134 | the insertion point of a stored key is its own index |
| SortedHeights.BinarySearch | XIVPainter/RaycastManager.cs:133-134 | `Array.BinarySearch` returns the index of a stored key, otherwise the complement of its insertion point; negative iff the key is absent |
| SortedHeights.SortedIsDistinct | XIVPainter/RaycastManager.cs:41 | a strictly sorted key array holds each key once |
| SortedHeights.MapOf | XIVPainter/RaycastManager.cs:41 | the dictionary the two arrays stand for maps each stored key to the value at its index, and holds no other key |
| SortedHeights.StoreOverwrite | XIVPainter/RaycastManager.cs:160 | writing a stored key changes its value and nothing else |
| SortedHeights.StoreInsert | XIVPainter/RaycastManager.cs:160 | inserting a new key at its insertion point keeps the keys sorted and adds exactly that entry |
| SortedHeights.StoreRemove | XIVPainter/RaycastManager.cs:77 | removing the entry at an index keeps the keys sorted and drops exactly that key |
| SortedHeights.ProbeIndex | XIVPainter/RaycastManager.cs:134-135 | the insertion point modulo `Count` is itself, or 0 when it lies past the last key |
| SortedHeights.Lookup | XIVPainter/RaycastManager.cs:125-142 | `GetHeight` fails with height 0 on an empty cache or a probe more than 3 units away; a success returns the value of a stored key within 3 units |
| SortedHeights.LookupProbesPosition | XIVPainter/RaycastManager.cs:133-139 | inside the array, only the key at the insertion point is examined, accepted iff it is within 3 units |
| SortedHeights.LookupStored | XIVPainter/RaycastManager.cs:133-139 | a key stored exactly is found, with its own value |
| SortedHeights.LookupContents | XIVPainter/RaycastManager.cs:125-142 | on every stored key the lookup agrees with the dictionary |
| SortedHeights.LookupWrapsAround | XIVPainter/RaycastManager.cs:135-139 | a key above every stored key probes the first stored key |
| SortedHeights.LookupFarMisses | XIVPainter/RaycastManager.cs:137 | with no stored key within 3 units the lookup fails |
| SortedHeights.LookupCanMissNearKey | XIVPainter/RaycastManager.cs:133-137 | the lookup is approximate: it can miss a stored key that lies within 3 units |
| SortedHeights.Farthest | XIVPainter/RaycastManager.cs:76 | `MaxBy` returns the first entry at the greatest distance from the anchor |
| Raycast.Clamp | XIVPainter/RaycastManager.cs:117-119 | `Math.Min(Math.Max(v, lo), hi)` lies in [lo, hi] when that band is non-empty, keeps v inside it, and gives hi when the band is empty |
| Raycast.Resolve | XIVPainter/RaycastManager.cs:110-121 | the answer keeps X and Z; it fails iff the stored height is NaN; a miss keeps the caller's height; a success lies in [Y - height, Y + height] |
| Raycast.ResolveMissNegativeHeight | XIVPainter/RaycastManager.cs:110-119 | on a miss with a negative `height` the point is lowered by -height and still succeeds |
| Raycast.ResolveUnknown | XIVPainter/RaycastManager.cs:110-114 | when the height `Raycast` goes on with is NaN, the answer is failure with the point unchanged |
| Raycast.ResolveKnown | XIVPainter/RaycastManager.cs:110-120 | when the height `Raycast` goes on with is y, the answer is success with Y = min(max(y, Y - height), Y + height) |
| Raycast.ResolveHit | XIVPainter/RaycastManager.cs:117-120 | a cached height answers with that height clamped to the band |
| Raycast.WriteAllHead | XIVPainter/RaycastManager.cs:155-161 | the drain writes the queue's head first |
| Raycast.WriteAllKeys | XIVPainter/RaycastManager.cs:155-161 | after the drain, the cache's keys are the old keys plus the keys of the drained points |
| Raycast.WriteAllUntouched | XIVPainter/RaycastManager.cs:155-161 | an entry whose key no drained point rounds to keeps its value |
| Raycast.WriteAllLastWins | XIVPainter/RaycastManager.cs:155-161 | among drained points with the same key, the last point's raycast is stored |
| Raycast.DropStep | XIVPainter/RaycastManager.cs:74-78 | removing a farthest entry keeps "survivors keep their values" and "no dropped entry is nearer than a kept one" |
| Raycast.FarthestStored | XIVPainter/RaycastManager.cs:76 | the key `MaxBy` picks is stored, and it is as far from the anchor as any stored key |
| Raycast.RaycastManager.constructor | XIVPainter/RaycastManager.cs:41-45 | the static state starts with an empty cache and queue and every flag off |
| Raycast.RaycastManager.GetHeight | XIVPainter/RaycastManager.cs:125-142 | the binary search, modulo probe and 3-unit test compute `Lookup`, and a stored key yields its stored height |
| Raycast.RaycastManager.SetHeight | XIVPainter/RaycastManager.cs:160 | the indexer write keeps the keys sorted and unique; the key maps to the value; every other entry is unchanged; the count grows only for a new key |
| Raycast.RaycastManager.Remove | XIVPainter/RaycastManager.cs:77 | `Remove` drops the key's entry, reports whether there was one, and keeps the keys sorted |
| Raycast.RaycastManager.Evict | XIVPainter/RaycastManager.cs:74-78 | the eviction loop ends with `Count` at most `compacity` = 80·80·400 (the constants of lines 9-10). A cache already within bound is untouched; otherwise exactly the bound remains. Survivors keep their values, and no removed entry was nearer the anchor than a kept one |
| Raycast.RaycastManager.UpdateTask | XIVPainter/RaycastManager.cs:68-92 | evicts only when there is a player. Sets `_canAdd` to "queue empty". `addPts` is this tick's and the previous tick's gate together, and `_lastCanAdd` takes this tick's value. The running flag is cleared |
| Raycast.RaycastManager.Update | XIVPainter/RaycastManager.cs:64-68 | the per-frame handler starts the update task iff none is running, and marks one running |
| Raycast.RaycastManager.Dequeue | XIVPainter/RaycastManager.cs:166-172 | `TryDequeue` removes and returns the head of a non-empty queue; on an empty queue it returns false and the default vector |
| Raycast.RaycastManager.RunRaycast | XIVPainter/RaycastManager.cs:148-153 | the worker is started iff none is running, and then marked running |
| Raycast.RaycastManager.RaycastTask | XIVPainter/RaycastManager.cs:153-163 | the worker writes each queued point's raycast under its key in FIFO order, then leaves the queue empty and the flag clear |
| Raycast.RaycastManager.Raycast | XIVPainter/RaycastManager.cs:95-122 | the query queues the point iff `_canAdd`, starts the worker then, and answers `Resolve` of the lookup in the cache as it stands |
| Raycast.EndToEnd | XIVPainter/RaycastManager.cs:95-163 | a first query at a fresh point succeeds with the point unchanged; after one drain, the same query answers with the raycast height, clamped |
| Polygon.HorizontalEdgeNeverCounts | XIVPainter/DrawingHelper.cs:48-50 | an edge with both ends at the same depth never counts as a crossing |
| Polygon.InLineSymmetric | XIVPainter/DrawingHelper.cs:48-50 | over the reals, the crossing test does not depend on which end of the edge comes first |
| Polygon.IsPointInside | XIVPainter/DrawingHelper.cs:20-46 | the point is inside iff the total crossing count over all rings is odd |
| Polygon.RingCount | XIVPainter/DrawingHelper.cs:28-42 | the inner loop counts a ring's consecutive edges plus the closing edge from last to first |
| Polygon.SinglePointRingNeverCounts | XIVPainter/DrawingHelper.cs:28-42 | a ring of one point contributes no crossing |
| Polygon.EmptyRingIsSkipped | XIVPainter/DrawingHelper.cs:26 | an empty ring leaves the total unchanged |
| Polygon.RingCrossingsReverse | XIVPainter/DrawingHelper.cs:30-50 | reversing a ring leaves its crossing count unchanged |
| Polygon.UnitSquare | XIVPainter/DrawingHelper.cs:20-50 | the unit square contains (0.5, 0.5) and not (2, 2) |
| Polygon.SquareWithHole | XIVPainter/DrawingHelper.cs:20-50 | for a square with a square hole, a point in the band is inside and a point in the hole is not |
| Convex.SkippedIsCyclicNeighbour | XIVPainter/DrawingHelper.cs:107-109 | the three `continue` tests skip exactly the break vertex and its two cyclic neighbours |
| Convex.FirstReflexFrom | XIVPainter/DrawingHelper.cs:81-92 | the break index is the first vertex whose turn exceeds 0.1, and is absent iff there is none |
| Convex.FindBreak | XIVPainter/DrawingHelper.cs:81-92 | the break loop returns that first reflex vertex, or -1 |
| Convex.PartnerScan | XIVPainter/DrawingHelper.cs:103-120 | the partner is the first non-skipped candidate with the greatest alignment; it stays 0 when every candidate's alignment is NaN |
| Convex.FindPartner | XIVPainter/DrawingHelper.cs:103-120 | the partner loop computes that partner |
| Convex.PartnerNotNeighbour | XIVPainter/DrawingHelper.cs:105-120 | once one candidate has an alignment, the partner lies at least two steps from the break vertex both ways round |
| Convex.SplitSizes | XIVPainter/DrawingHelper.cs:122-138 | both sub-polygons contain the two cut vertices, their sizes sum to n + 2, and each has at least 3 and fewer than n vertices |
| Convex.SplitAt | XIVPainter/DrawingHelper.cs:122-138 | `list1` takes the indices at or before min and at or after max; `list2` takes min through max |
| Convex.LongPieces | XIVPainter/DrawingHelper.cs:140 | the filter keeps exactly the pieces of more than 2 points, and removes nothing when every piece has more |
| Convex.JoinSound | XIVPainter/DrawingHelper.cs:140 | concatenating sound decompositions of the two sides of a cut gives a sound decomposition of the whole |
| Convex.JoinConvex | XIVPainter/DrawingHelper.cs:140 | joining two results whose pieces of 4 or more vertices are convex under the turn test keeps that property |
| Convex.Decompose | XIVPainter/DrawingHelper.cs:74-147 | the split never throws. Its pieces use only input vertices and have at least 3 vertices each. Their sizes add up to n plus 2 per cut. Every piece of 4 or more vertices is convex under the turn test: none of its vertices turns by more than 0.1 |
| Convex.DecomposeBaseCases | XIVPainter/DrawingHelper.cs:76-97 | fewer than 4 points, or no turn above 0.1, gives the input back as the single piece |
| Convex.DecomposeTerminates | XIVPainter/DrawingHelper.cs:105-140 | when every alignment is a number, the recursion ends |
| Convex.SkippedPartnerRepeats | XIVPainter/DrawingHelper.cs:103-140 | a partner next to the break vertex is vertex 0, and one of the two sub-polygons is then the whole polygon again |
| Convex.DecomposeCanDiverge | XIVPainter/DrawingHelper.cs:103-140 | with no alignment at all and the break vertex at 0, the recursion does not end |
| Convex.ConvexPointsOrdered | XIVPainter/DrawingHelper.cs:74-148 | the method computes `Decompose` |
| Convex.LeftBottomScan | XIVPainter/DrawingHelper.cs:54-65 | the left-bottom loop finds the first vertex with the least X + Y (strict `<`) |
| Convex.Split | XIVPainter/DrawingHelper.cs:52-72 | `ConvexPoints` throws iff the input is empty. Otherwise it has the guarantees of `Decompose`, including that every piece of 4 or more vertices has no vertex turning by more than 0.1 |
| Convex.SplitOrientation | XIVPainter/DrawingHelper.cs:67-71 | the polygon is passed on reversed iff the turn at its left-bottom vertex exceeds 0.1 |
| Convex.ConvexPoints | XIVPainter/DrawingHelper.cs:52-72 | the method computes `Split` |
| Convex.SelfTouchingScan | XIVPainter/DrawingHelper.cs:54-71 | on the self-touching quadrilateral, the first origin is the left-bottom vertex and the polygon is reversed |
| Convex.SelfTouchingPartner | XIVPainter/DrawingHelper.cs:81-120 | on the reversed quadrilateral, the break vertex is index 1 and the partner stays 0 |
| Convex.SelfTouchingDiverges | XIVPainter/DrawingHelper.cs:52-147 | `ConvexPoints` on (0,0), (1,0), (0,0), (0,1) recurses without end |
| Convex.DecomposeGuarded | XIVPainter/DrawingHelper.cs:74-147 | the split with the whole-piece fallback always yields pieces, with the vertex, size and count guarantees of `Decompose`. A piece returned whole by the fallback can still have a reflex vertex, so convexity is not promised |
| Convex.GuardedAgrees | XIVPainter/DrawingHelper.cs:74-147 | wherever the original recursion ends, the guarded split gives the same pieces |
| Convex.SplitGuarded | XIVPainter/DrawingHelper.cs:52-72 | `ConvexPoints` over the guarded split throws only on empty input, always yields pieces otherwise, and agrees with `Split` wherever that ends |
| Convex.SelfTouchingGuarded | XIVPainter/DrawingHelper.cs:52-147 | the guarded split returns the reversed self-touching quadrilateral as one piece |
| Easing.BounceArcsMeet | XIVPainter/DrawingHelper.cs:210-228 | the bounce arcs meet at 1 at each break point and at x = 1 |
| Easing.PolynomialEndpoints | XIVPainter/DrawingHelper.cs:199-230 | the Quad, Cubic, Quart, Quint, Back (c1 = 1.70158, c3 = c1 + 1) and Bounce ease-outs, and the identity fallback, give f(0) = 0 and f(1) = 1 exactly |
| Easing.HardCodedEndpoints | XIVPainter/DrawingHelper.cs:206-209 | Expo is 1 at 1 and Elastic is 0 at 0 and 1 at 1 by their hard-coded cases; Expo at 0 is 1 - 2^0 |
| Easing.PowerCurvesInUnitRange | XIVPainter/DrawingHelper.cs:202-205 | the power ease-outs map [0, 1] into [0, 1] |
| Easing.RemapIdentity | XIVPainter/DrawingHelper.cs:168-173 | (None, None) is the identity |
| Easing.RemapInMirrorsOut | XIVPainter/DrawingHelper.cs:174-183 | an ease-in alone is its ease-out mirrored: in(x) = 1 - out(1 - x) |
| Easing.RemapMidpoint | XIVPainter/DrawingHelper.cs:185-189 | an in-out curve takes 1/2 at x = 0.5 whenever out(0) = 0, and its halves meet there when in(0) = 0 too |
| Easing.RemapEndpoints | XIVPainter/DrawingHelper.cs:166-191 | every composed curve of polynomial kinds runs from 0 at x = 0 to 1 at x = 1 |
| Easing.RemapPointSymmetric | XIVPainter/DrawingHelper.cs:187-188 | an in-out curve built from one kind is point-symmetric about (1/2, 1/2) |

## Left out

- `ToColor` and `ColorAlpha` are thin wrappers over ImGui colour conversion.
- `Enable` and `Dispose` only hook the framework's update event.
- XIVPainter/Element3D/Drawing3DImage.cs (texture handles, screen projection, visibility)
  is rendering and is not part of this model.
- **Concurrency.** `Task.Run`, `lock` and the interleavings allowed by the unsynchronised
  flags are not modelled. Each task body runs atomically, and races between the two tasks
  and the query are not covered.
- **Reflection.** `SortedList`'s private `keys` array is read by reflection in the source;
  here the sorted key sequence is a field.
- **The collision raycast.** `BGCollisionModule->RaycastEx` is the parameter `cast`. Its
  fixed origin 8 units above the point, downward direction and 100-unit range are not
  modelled.
- **Floating point.** Coordinates, heights and easing values are `real`. Single- and
  double-precision rounding is not modelled, and neither are NaN operands other than the
  stored NaN height and the NaN alignment of a candidate vertex.
- **`PointCross`.** Edge-vector normalisation, the cross product and the dot product are
  the `Turns` parameter; the turn and alignment values themselves are not computed.
- **Transcendental ease-outs.** Sine, Expo, Circ and Elastic are only modelled up to the
  `Transcendentals` parameter.
- Convex.Decompose: the pieces are not shown to cover the polygon's area. The source never
  checks that the cut between the break vertex and its partner lies inside the polygon, and
  the turn test is a parameter here, so the equal-area property cannot be stated. What is
  stated is convexity under the turn test, vertex membership and the vertex count.
- The empty `if (addPts)` block does nothing and is not modelled.
- The `catch` branch of `ConvexPointsOrdered` cannot be reached, because nothing in its
  `try` block throws. Its warning log is therefore not modelled.
- Raycast.RaycastManager.Evict: the "farthest first" guarantee is stated for the whole
  loop: no removed key is nearer the anchor than a surviving key. It is not stated as a
  trace of each removal; `Raycast.DropStep` states the single step.

## Findings

| source | as written | input that shows it | evidently intended | confidence | as-written member | corrected member |
|---|---|---|---|---|---|---|
| XIVPainter/DrawingHelper.cs:103-140 | When every candidate's normalised dot product is NaN, the partner index stays 0. If vertex 0 is the break vertex or one of its neighbours, `list1` or `list2` is the whole polygon again, and the method calls itself on it without end. The result is a stack overflow, which the `catch` cannot intercept. | `ConvexPoints` on (0,0), (1,0), (0,0), (0,1): it is reversed, the break vertex is index 1, and its only candidate coincides with it | a degenerate polygon comes back whole, as the `catch` fallback does | medium, not executed | Convex.SelfTouchingDiverges | Convex.SplitGuarded |
