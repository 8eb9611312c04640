# RASTER (Contraction Clustering) in Dafny

This project models the RASTER clustering algorithm as the repository implements it
three times: in Python (sequential, batched with `multiprocessing`, and inside two
scikit-learn style classes), in Rust (sequential, thread-parallel with vertical slices,
and a two-slice "dual" variant), and in Java. Every implementation has a count
variant, which keeps the number of points per tile, and a "prime" variant, which keeps
the points themselves.

The algorithm has three steps. All versions are proved against one shared
specification.

- **Projection.** Each point `(x, y)` is scaled by `10^precision` and truncated toward
  zero to an integer tile. Only the tiles that received at least `threshold` points are
  kept: `Projection.Dense`. The prime variant maps each kept tile to the list of its
  points in input order: `Projection.PointsIn`.
- **Agglomeration.** The kept tiles are clustered by a destructive 8-neighbour flood
  fill. Each neighbour found is removed from the working set, so removal doubles as the
  visited mark. Only components of at least `min_size` tiles are kept.
  `Components.IsClustering(s, m, cs)` is the specification:
  - every `cs[i]` is a maximal 8-connected component of `s` with at least `m` tiles;
  - the `cs[i]` are pairwise disjoint;
  - every tile of `s` is in some `cs[i]` or in a component smaller than `m`.

  `Components.ClusteringUnique` shows that this fixes the clusters up to order.
- **Labelling.** Point `i` gets the index of the cluster holding its tile, or `-1`.

The parallel versions are proved equal to the sequential specification:

- Batched projections (Python `batched_ranges`, Rust `batch_data`) merge per-batch
  maps by adding counts or concatenating lists.
- Rust `par` clusters each vertical slice on its own, setting aside the components
  that touch a slice edge. `join_clusters` then stitches them together border by
  border, from right to left.
- `dual_clustering` does the same with one border, at `x = 0`.

Module layout:

| Module | Contents |
|---|---|
| `Wrappers` | `Result` and `Option` |
| `Grid` | points, tiles, truncation, the 8 candidate neighbours |
| `Projection` | counting and point-list maps, threshold filters |
| `Components` | connectivity, components, the clustering specification, the flood-fill invariants |
| `Containers` | mutable Python sets and dicts and Java maps as classes |
| `Labels` | the label of a tile |
| `Pieces` | the border join |
| `Slices` | the per-slice and staged specification of the slice algorithm |

There is one module per source file: `PyClustering`, `PyClusteringPrime`,
`ParProjections`, `DataLoader`, `PyRaster`, `SkClustering`, `SkRasterLabel`,
`PlotsClustering`, `PlotsRaster`, `RustLib`, `RustPrime`, `RustPar`, `RustPrimePar`,
`RustDual`, `JavaRaster`, `JavaRasterPrime`.

How the source's code maps onto Dafny:

- Code that updates state in place (loops, `set.pop`, `del`, `remove`) is a `method`
  with loop invariants. It is proved against the specification functions above.
- A Python set or dict that a callee mutates, or a Java `Map` passed to `getNeighbors`,
  is a `Containers.TileSet` or `Containers.TileMap` object.
- Rust values moved or borrowed mutably are value parameters and results.

## Model

| member | source | states |
|---|---|---|
| Grid.Trunc | 2_benchmark_rust/src/raster/lib.rs:25-27 | truncation toward zero: a non-negative value goes to the largest integer not above it, a negative value to the smallest integer not below it |
| Grid.Scalar | 2_benchmark_python/clustering.py:20 | the scale factor is positive and equals `10^precision` for every non-negative precision |
| Grid.Candidates | 2_benchmark_python/clustering.py:83-90 | eight distinct candidates, and a tile is a candidate exactly when it is at Chebyshev distance 1 |
| Grid.PresentNeighbors | 2_benchmark_python/clustering.py:92-100 | the neighbour search yields, without repetition, exactly the tiles of the set that are 8-adjacent to the coordinate |
| Projection.SignificantCounts | 2_benchmark_python/clustering.py:23-37 | filtering the count map by `count >= threshold` gives exactly the tiles that some point quantises to and that received at least `threshold` points |
| Projection.LongListsDense | 2_benchmark_python/clustering_prime.py:23-39 | filtering the point-list map by list length keeps the same key set as the count variant, and each kept list is the tile's points in input order |
| Projection.CountMapTotal | 2_benchmark_rust/src/raster/lib.rs:32-45 | the per-tile counts add up to the number of points |
| Components.ConnectedMeansLinked | 2_benchmark_python/clustering.py:118-123 | the closure-based notion of a connected cluster coincides with "every two tiles are joined by an 8-adjacent path inside it" |
| Components.ClusteringUnique | 2_benchmark_python/test.py:110-119 | two clusterings of the same tiles with the same size floor contain the same clusters, as sets and as multisets, so results of different implementations can be compared order-insensitively |
| Containers.TileSet.Pop | 2_benchmark_python/clustering.py:110 | `set.pop` returns some element of the non-empty set and removes just that one |
| Containers.TileSet.Remove | 2_benchmark_python/clustering.py:97 | `set.remove` takes exactly the given element out |
| Containers.TileMap.PopItem | 2_benchmark_python/clustering_prime.py:101 | `dict.popitem` returns some entry of the non-empty map and deletes just that key |
| Containers.TileMap.Delete | 2_benchmark_python/clustering_prime.py:89 | `del squares[n]` deletes exactly that key |
| Containers.TileMap.Remove | 4_benchmark_java/java-raster/raster/src/main/java/fcc/raster/Raster.java:67 | `Map.remove` returns the previous value, or `null` when the key is absent, and in both cases leaves the map without the key |
| Containers.RemoveIf | 4_benchmark_java/java-raster/raster/src/main/java/fcc/raster/Raster.java:45 | `values().removeIf(p)` keeps exactly the entries whose value fails `p`, with their values |
| PyClustering.FilterTiles | 2_benchmark_python/clustering.py:34-37 | the filter loop collects exactly the tiles whose count reaches the threshold |
| PyClustering.MapToTiles | 2_benchmark_python/clustering.py:7-39 | returns `10^precision` and exactly the tiles with at least `threshold` points |
| PyClustering.ParMapToTiles | 2_benchmark_python/clustering.py:42-72 | zero processes raise `ZeroDivisionError`; an unrecognised variant raises `ValueError`; otherwise every variant returns the same tiles and scalar as `map_to_tiles` |
| PyClustering.GetNeighbors | 2_benchmark_python/clustering.py:75-100 | returns the present 8-neighbours in candidate order and removes exactly those from `squares` |
| PyClustering.RasterClusteringTiles | 2_benchmark_python/clustering.py:104-130 | leaves `squares` empty and returns a clustering of its original contents |
| PyClusteringPrime.FilterLists | 2_benchmark_python/clustering_prime.py:34-39 | keeps exactly the entries whose list has at least `threshold` points, unchanged |
| PyClusteringPrime.MapToTiles | 2_benchmark_python/clustering_prime.py:7-39 | the key set equals the count variant's tile set, and each tile maps to exactly its points in input order |
| PyClusteringPrime.ParMapToTiles | 2_benchmark_python/clustering_prime.py:42-63 | zero processes raise `ZeroDivisionError`; otherwise the result equals the sequential projection, keys and point lists |
| PyClusteringPrime.GetNeighbors | 2_benchmark_python/clustering_prime.py:66-91 | returns a `(tile, points)` pair, with the map's own points, for each present neighbour in candidate order, and deletes exactly those keys |
| PyClusteringPrime.RasterClusteringTiles | 2_benchmark_python/clustering_prime.py:95-121 | empties `squares`; the key sets of the result are a clustering of the original keys, and every tile keeps its point list |
| ParProjections.PartialProjection | 2_benchmark_python/par_projections.py:20-29 | fails exactly when an index of the range is outside the shared array; otherwise counts, per tile, the points at the range's indices, and the counts add up to the range's length |
| ParProjections.PartialProjectionPrime | 2_benchmark_python/par_projections.py:33-43 | fails exactly on an out-of-bounds index; otherwise appends each point of the range once, to its own tile's list |
| ParProjections.Update | 2_benchmark_python/par_projections.py:59 | `Counter.update` with a mapping adds counts key by key, and the keys are the union |
| ParProjections.ProcessPoolExecutor | 2_benchmark_python/par_projections.py:48-61 | with no batch, `max_workers=0` fails with `ValueError`; otherwise fails with `IndexError` exactly when some batch is out of bounds, and else returns the key-wise sum of the batch counts |
| ParProjections.Pool | 2_benchmark_python/par_projections.py:65-77 | as `processPoolExecutor`: `ValueError` from `mp.Pool(0)` with no batch, `IndexError` exactly when some batch is out of bounds, and else the key-wise sum of the batch counts |
| ParProjections.MergeCounts | 2_benchmark_python/par_projections.py:101-103 | the inner merge loop adds the partial counts into the accumulated counts key by key |
| ParProjections.MergePoints | 2_benchmark_python/par_projections.py:134-137 | the inner merge loop appends each partial list to the accumulated list of its tile |
| ParProjections.RunCountTasks | 2_benchmark_python/par_projections.py:13-16 | the workers put one result per in-bounds batch and none for a batch whose `IndexError` ends its worker; so there is a result for every batch exactly when every batch is in bounds, and then each is its batch's counts |
| ParProjections.RunPointTasks | 2_benchmark_python/par_projections.py:13-16 | as `RunCountTasks`, for the `partial_projection_prime` tasks: each result is its batch's point map |
| ParProjections.Process | 2_benchmark_python/par_projections.py:81-109 | blocks forever exactly when there is no batch or some batch is out of bounds, since fewer results than `get` calls ever arrive; otherwise returns the key-wise sum of the batch counts |
| ParProjections.ProcessPrime | 2_benchmark_python/par_projections.py:114-143 | blocks forever exactly when there is no batch or some batch is out of bounds; otherwise returns the batch point maps concatenated tile by tile |
| ParProjections.MergeOrderIrrelevant | 2_benchmark_python/par_projections.py:98-103 | summing the partial counts gives the same map in whatever order the results arrive from the queue |
| ParProjections.MergedCountsSequential | 2_benchmark_python/test.py:52-62 | when the batches partition `0..len(points)`, the merged counts equal the sequential per-tile counts |
| ParProjections.MergedPointsSequential | 2_benchmark_python/test.py:76-87 | when the batches partition the indices, the merged point lists equal the sequential ones |
| ParProjections.PastTheEndOutOfBounds | 1_benchmark_sklearn/data_loader.py:27 | when the as-written ranges run past the data, some batch is out of bounds, so `process`/`process_prime` block forever and `pool`/`processPoolExecutor` fail with `IndexError` |
| ParProjections.PastTheEndOutOfBoundsExample | 1_benchmark_sklearn/data_loader.py:27 | three points and five processes give such an out-of-bounds batch |
| ParProjections.SingleProcessDoubles | 1_benchmark_sklearn/data_loader.py:23-31 | with one process the two ranges returned by `batched_ranges` make every count twice the sequential count |
| ParProjections.SingleProcessDoublesExample | 2_benchmark_python/test.py:44 | three points in one tile with threshold 5 and one process: the batched projection keeps the tile, the sequential one does not |
| DataLoader.RoundHalfEven | 1_benchmark_sklearn/data_loader.py:22 | `round(len/numProcesses)`: the result is within one half of the quotient, and on a tie it is even |
| DataLoader.BatchedRanges | 1_benchmark_sklearn/data_loader.py:20-33 | fails (`ZeroDivisionError`) exactly when there are no processes |
| DataLoader.BatchedRangesShape | 1_benchmark_sklearn/data_loader.py:23-31 | for two or more processes: exactly `numProcesses` ranges; the first starts at 0; each starts where the previous stops; the last runs from `(numProcesses-1)*batchSize` to `len` |
| DataLoader.BatchedRangesPartition | 1_benchmark_sklearn/data_loader.py:20-33 | for two or more processes with `(numProcesses-1)*batchSize <= len`, the ranges are consecutive from 0 to `len` |
| DataLoader.ConsecutivePartition | 1_benchmark_sklearn/data_loader.py:23-31 | consecutive ranges from 0 to `len` put every index of `0..len` in exactly one range and no other index in any |
| DataLoader.SingleProcessTwice | 1_benchmark_sklearn/data_loader.py:23-31 | with one process the result is two copies of `range(0, len)` |
| DataLoader.PastTheEnd | 1_benchmark_sklearn/data_loader.py:27 | when `(numProcesses-1)*batchSize > len`, some middle range contains an index at or past `len` |
| DataLoader.PastTheEndExample | 1_benchmark_sklearn/data_loader.py:27 | `len = 3` with 5 processes gives the middle range `range(3, 4)` |
| DataLoader.BatchedRangesCorrected | 1_benchmark_sklearn/data_loader.py:20-33 | the corrected split fails only without processes, and otherwise returns one range per process |
| DataLoader.CorrectedConsecutive | 1_benchmark_sklearn/data_loader.py:20-33 | the corrected ranges are consecutive from 0 to `len` for every process count |
| PyRaster.Raster | 2_benchmark_python/raster.py:9-16 | the clusters are a clustering of the projection's dense tiles, hence equal as a multiset to any other, and the scalar is the projection's |
| PyRaster.ParRaster | 2_benchmark_python/raster.py:19-29 | zero processes raise `ZeroDivisionError`; otherwise the clusters equal those of `raster` as a multiset of tile sets |
| PyRaster.RasterPrime | 2_benchmark_python/raster.py:32-39 | the clusters' key sets equal `raster`'s clusters as a multiset, and every tile carries exactly its points |
| PyRaster.ParRasterPrime | 2_benchmark_python/raster.py:42-52 | as `raster_prime` for every positive process count; zero processes raise `ZeroDivisionError` |
| PyRaster.PrimeOutcome | 2_benchmark_python/test.py:97-103 | a map clustering of the prime projection has key sets that cluster the count projection, with the points carried unchanged |
| SkClustering.MapToTiles | 1_benchmark_sklearn/clustering.py:7-39 | returns `10^precision` and exactly the tiles with at least `threshold` points |
| SkClustering.GetNeighbors | 1_benchmark_sklearn/clustering.py:43-65 | returns the present 8-neighbours and removes exactly them; nothing else in `squares` changes |
| SkClustering.ClusteringTiles | 1_benchmark_sklearn/clustering.py:68-94 | empties `squares` and returns a clustering of its original contents |
| SkRasterLabel.Raster.constructor | 1_benchmark_sklearn/raster_label.py:20-23 | defaults of 1 for precision, threshold and min_size are stored unchanged, with no labels yet |
| SkRasterLabel.AssignLabels | 1_benchmark_sklearn/raster_label.py:46-57 | one label per point, equal to the index of the cluster holding the point's tile, or -1 |
| SkRasterLabel.Raster.Fit | 1_benchmark_sklearn/raster_label.py:25-57 | keeps the parameters; stores a clustering of the dense tiles and one label per point; a label is -1 exactly when the point's tile is not dense or lies in a too-small component |
| PlotsClustering.MapToTilesTiles | 3_plots_sklearn/clustering.py:7-55 | returns a tile-to-count map whose keys are the dense tiles and whose values are the tiles' point counts |
| PlotsClustering.GetNeighbors | 3_plots_sklearn/clustering.py:59-79 | returns the present 8-neighbours and removes exactly them |
| PlotsClustering.RasterClusteringTiles | 3_plots_sklearn/clustering.py:82-108 | works on a fresh copy, so the caller's collection is only read, and returns a clustering of it |
| PlotsRaster.Raster.constructor | 3_plots_sklearn/raster.py:10-13 | the arguments, in the order threshold, min_size, precision, are stored unchanged |
| PlotsRaster.MarkLabels | 3_plots_sklearn/raster.py:48-63 | starting from all -1, exactly the points whose tile is a key of `full` get that tile's cluster index |
| PlotsRaster.Raster.Fit | 3_plots_sklearn/raster.py:15-65 | keeps the parameters; stores a clustering of the dense tiles and one label per point, -1 exactly for points outside every cluster |
| Labels.LabelOf | 1_benchmark_sklearn/raster_label.py:42-44 | a label is -1 or a cluster index; a non-negative label is a cluster holding the tile (the last one, as later writes win); -1 exactly when no cluster holds it |
| Labels.LabelOfDisjoint | 1_benchmark_sklearn/raster_label.py:42-44 | with disjoint clusters, every tile of the i-th cluster gets label i |
| Labels.OutlierLabel | 1_benchmark_sklearn/raster_label.py:53-56 | for a clustering, a tile's label is -1 exactly when the tile is not dense or lies in a component smaller than the floor |
| Labels.OutlierLabels | 3_plots_sklearn/raster.py:53-63 | the same, lifted to the label of every input point |
| Labels.TileToLabel | 3_plots_sklearn/raster.py:39-45 | the loop over clusters builds a map whose lookup-with-default-(-1) is the label of every tile, with values in range |
| RustLib.ToTileCounts | 2_benchmark_rust/src/raster/lib.rs:32-45 | the per-tile counts of the points; every count is at least 1 and they add up to the number of points |
| RustLib.MapToTiles | 2_benchmark_rust/src/raster/lib.rs:51-66 | exactly the tiles with at least `threshold` points, and `10^precision` |
| RustLib.MappingTests | 2_benchmark_rust/src/raster/lib.rs:119-136 | two points in tile `(10,232)` give `{(10,232)}` at threshold 2 and nothing at threshold 3 |
| RustLib.PopNeighbors | 2_benchmark_rust/src/raster/lib.rs:95-108 | yields the present neighbours in candidate order and removes only them |
| RustLib.NeighborTest | 2_benchmark_rust/src/raster/lib.rs:138-156 | from `{(3,5),(0,5),(2,4),(1,4)}` around `(2,5)` it yields `(3,5),(2,4),(1,4)` and leaves `(0,5)` |
| RustLib.NoNeighborsTest | 2_benchmark_rust/src/raster/lib.rs:158-165 | an empty set yields no neighbours |
| RustLib.ClusterTiles | 2_benchmark_rust/src/raster/lib.rs:70-91 | returns a clustering of the tiles |
| RustLib.ClusteringTest | 2_benchmark_rust/src/raster/lib.rs:167-202 | any clustering of the 7-tile test input with floor 1 is, ignoring order, the square and the column of the test |
| RustPrime.MapToTiles | 2_benchmark_rust/src/raster/prime.rs:21-42 | the key set is `lib.rs`'s tile set, and each tile maps to exactly its points in input order |
| RustPrime.PopNeighbors | 2_benchmark_rust/src/raster/prime.rs:73-91 | yields `(tile, points)` for each present neighbour in candidate order, with the map's own points, and removes only those keys |
| RustPrime.Insert | 2_benchmark_rust/src/raster/prime.rs:55-62 | `IndexMap::insert`: a new key is appended, an existing key keeps its place and takes the new value, and no other entry is lost |
| RustPrime.InsertAll | 2_benchmark_rust/src/raster/prime.rs:59-62 | inserting freshly popped neighbours, whose keys are new, is appending them |
| RustPrime.ClusterTiles | 2_benchmark_rust/src/raster/prime.rs:46-70 | the key sets of the result are a clustering of the keys, and every tile keeps its point list |
| RustPar.ChunksFacts | 2_benchmark_rust/src/raster/par.rs:29-32 | `chunks(size)` concatenates back to the points; each chunk has 1 to `size` points, all but the last exactly `size` |
| RustPar.BatchData | 2_benchmark_rust/src/raster/par.rs:29-32 | panics exactly when the chunk size `len/nr_parts` is zero; otherwise the chunks concatenate to the points, and there are at least `nr_parts` and fewer than `2*nr_parts` of them |
| RustPar.CountBatches | 2_benchmark_rust/src/raster/par.rs:48-54 | each worker's counter is its batch's per-tile counts |
| RustPar.SumCounters | 2_benchmark_rust/src/raster/par.rs:57-67 | summing the counters gives the per-tile counts of all batches together |
| RustPar.MapToTiles | 2_benchmark_rust/src/raster/par.rs:36-75 | panics exactly when `batch_data` does; otherwise returns the sequential dense tiles and `10^precision` |
| RustPar.CastI32 | 2_benchmark_rust/src/raster/par.rs:98 | the float-to-`i32` cast saturates at the `i32` bounds and truncates in between |
| RustPar.Splits | 2_benchmark_rust/src/raster/par.rs:94-100 | the split coordinates are `min + k*step`, scaled and cast, for `k` from 1 to `nr_slices-1` |
| RustPar.EmptySlices | 2_benchmark_rust/src/raster/par.rs:103-108 | the initial slices have bounds `(splits[i-1] or MIN, splits[i]-1 or MAX)` and no tiles |
| RustPar.PlaceTile | 2_benchmark_rust/src/raster/par.rs:110-120 | a tile goes into the first slice whose split exceeds its x, or the last one when x reaches the last split; no other slice changes |
| RustPar.SplitVertically | 2_benchmark_rust/src/raster/par.rs:82-122 | fewer than 2 slices give one slice from MIN to MAX; otherwise each tile lands in the slice its x selects, under the bounds above |
| RustPar.SlicesCover | 2_benchmark_rust/src/raster/par.rs:110-120 | the slices together hold exactly the input tiles |
| RustPar.SlicesDisjoint | 2_benchmark_rust/src/raster/par.rs:110-120 | with ascending splits no tile is in two slices |
| RustPar.SlicesValid | 2_benchmark_rust/src/raster/par.rs:103-120 | with strictly ascending in-range splits, every tile lies within its slice's bounds and each slice starts one column after the previous one ends |
| RustPar.StrictSplits | 2_benchmark_rust/src/raster/par.rs:94-100 | a positive step whose scaled splits fit in `i32` gives strictly ascending splits inside the `i32` range |
| RustPar.IsNeighbors | 2_benchmark_rust/src/raster/par.rs:324-337 | true exactly when some tile of the set is 8-adjacent to the given one |
| RustPar.IsClusterNeighbors | 2_benchmark_rust/src/raster/par.rs:313-320 | true exactly when some tile of one cluster is 8-adjacent to some tile of the other |
| RustPar.Partition | 2_benchmark_rust/src/raster/par.rs:271 | splits the clusters, in order, into those touching `visit` and the rest |
| RustPar.PushAll | 2_benchmark_rust/src/raster/par.rs:274-276 | appends every neighbour, tagged with its direction, to the visit stack |
| RustPar.ClusterSlice | 2_benchmark_rust/src/raster/par.rs:195-240 | the components of the slice are sorted by whether they hold a tile on the left edge, the right edge or both; only the rest are filtered by size |
| RustPar.FillCluster | 2_benchmark_rust/src/raster/par.rs:208-224 | from one popped tile, the cluster grown is its whole component among the tiles left to visit; no remaining tile touches it; each edge flag is true exactly when the cluster has a tile in that edge column |
| RustPar.FillPop | 2_benchmark_rust/src/raster/par.rs:217-223 | popping the top of the stack keeps the flood fill sound, keeps the edge flags exact, and shrinks unvisited plus stacked tiles |
| RustPar.Search | 2_benchmark_rust/src/raster/par.rs:264-294 | one stitching search from a right-side piece keeps the join invariant and takes every piece it reaches out of the side lists |
| RustPar.JoinClusters | 2_benchmark_rust/src/raster/par.rs:251-309 | every emitted cluster reaches the size floor; for pieces that are connected, disjoint and not adjacent within a side, the result is the join: whole components stitched across the border, with those reaching the far-left border returned as transients |
| RustPar.ClusterSlices | 2_benchmark_rust/src/raster/par.rs:137-146 | every slice is split by `cluster_slice` |
| RustPar.Flatten | 2_benchmark_rust/src/raster/par.rs:159-162 | the inner clusters of all slices, in slice order |
| RustPar.JoinBorders | 2_benchmark_rust/src/raster/par.rs:164-182 | the right-to-left loop over borders, given an empty rightmost edge, leaves every stitched component emitted or carried as a transient |
| RustPar.ClusterTiles | 2_benchmark_rust/src/raster/par.rs:126-188 | fewer than 2 slices delegate to the sequential clustering; otherwise the assertions fail exactly when the rightmost slice has a tile on its right bound or the leftmost has a component on its left bound only; on success, for valid slices, the result is a clustering of all tiles |
| RustPar.ExampleReady | 2_benchmark_rust/src/raster/par.rs:341-362 | the pieces of the unit test meet the join's precondition |
| RustPar.ExampleJoin | 2_benchmark_rust/src/raster/par.rs:341-362 | the unit test yields no significant cluster and one 4-tile transient |
| RustPar.EdgeCaseValid | 2_benchmark_rust/src/raster/lib.rs:229-236 | the four slices of `left_right_edge_case` are valid and hold exactly the test's regular input |
| RustPar.EdgeCaseReady | 2_benchmark_rust/src/raster/lib.rs:229-235 | the same slices meet both success conditions of `cluster_tiles`: no tile on the last slice's upper bound, no first-slice component on its lower bound |
| RustPar.LeftRightEdgeCase | 2_benchmark_rust/src/raster/lib.rs:227-243 | the parallel clusters of the test's slices and the sequential clusters of its regular input agree in number, and each parallel cluster is a sequential one |
| Components.SameClusters | 2_benchmark_rust/src/raster/lib.rs:239-242 | any two clusterings of one tile set have equally many clusters and share every cluster, the comparison the test makes |
| RustPar.GlobeSlices | 2_benchmark_rust/src/benchmark_lib.rs:165-170 | for longitudes and latitudes on the globe, precision 0 to 6 and at most 360 slices, the slices are valid, hold the dense tiles, and meet the assertions of `cluster_tiles` |
| RustPar.ParRaster | 2_benchmark_rust/src/benchmark_lib.rs:165-175 | succeeds only with 1 to `len` cores; under the globe bounds it succeeds and returns a clustering of the sequential dense tiles |
| RustPrimePar.CollectPoints | 2_benchmark_rust/src/raster/prime/par.rs:34-43 | each chunk's map sends every tile to exactly its points |
| RustPrimePar.CollectBatches | 2_benchmark_rust/src/raster/prime/par.rs:31-44 | one point map per chunk |
| RustPrimePar.ReduceMaps | 2_benchmark_rust/src/raster/prime/par.rs:45-51 | the reduction concatenates the lists tile by tile to the point map of all chunks together |
| RustPrimePar.MapToTiles | 2_benchmark_rust/src/raster/prime/par.rs:21-58 | panics exactly when the chunk size is zero; otherwise the same keys and point lists as `prime::map_to_tiles`, and `10^precision` |
| RustPrimePar.KeySlices | 2_benchmark_rust/src/raster/prime/par.rs:63-103 | a map slice seen through its key set is a set slice with the same bounds |
| RustPrimePar.MapSlicedKeys | 2_benchmark_rust/src/raster/prime/par.rs:91-101 | the key sets of the map slices are sliced exactly as the set version; every slice's entries come from the input map |
| RustPrimePar.SplitVertically | 2_benchmark_rust/src/raster/prime/par.rs:63-103 | one unbounded slice when `nr_slices < 2`; otherwise each entry lands, with its points, in the slice its x selects |
| RustPrimePar.IsNeighbors | 2_benchmark_rust/src/raster/prime/par.rs:310-323 | true exactly when some key is 8-adjacent to the tile |
| RustPrimePar.IsClusterNeighbors | 2_benchmark_rust/src/raster/prime/par.rs:300-307 | true exactly when the two key sets touch |
| RustPrimePar.Partition | 2_benchmark_rust/src/raster/prime/par.rs:239-297 | splits the maps into those whose keys touch `visit` and the rest, in order |
| RustPrimePar.PushAll | 2_benchmark_rust/src/raster/prime/par.rs:239-297 | appends every neighbour map with its direction tag |
| RustPrimePar.ClusterSlice | 2_benchmark_rust/src/raster/prime/par.rs:173-218 | the key sets are split as in the set version, and every entry keeps its points |
| RustPrimePar.FillCluster | 2_benchmark_rust/src/raster/prime/par.rs:186-202 | as RustPar.FillCluster on the key sets, with every entry of the cluster and of the remaining map taken unchanged from the slice |
| RustPrimePar.FillPop | 2_benchmark_rust/src/raster/prime/par.rs:195-201 | one pop keeps the map flood fill sound and the edge flags exact, and shrinks unvisited plus stacked entries |
| RustPrimePar.LargeMaps | 2_benchmark_rust/src/raster/prime/par.rs:290-294 | keeps only maps of the input that reach the size floor |
| RustPrimePar.LargeMapsKeys | 2_benchmark_rust/src/raster/prime/par.rs:290-294 | on key sets the filter keeps, in order, exactly the pieces that reach the floor |
| RustPrimePar.Search | 2_benchmark_rust/src/raster/prime/par.rs:239-282 | one stitching search keeps the join invariant on the key sets, and the joined map's entries come from the input |
| RustPrimePar.KeepLarge | 2_benchmark_rust/src/raster/prime/par.rs:290-294 | appends to the emitted clusters the leftover left pieces that pass the size filter, in their order |
| RustPrimePar.JoinClusters | 2_benchmark_rust/src/raster/prime/par.rs:239-297 | emitted maps reach the floor; under the join precondition the key sets are the join of the pieces' key sets, with the points carried unchanged |
| RustPrimePar.ClusterSlices | 2_benchmark_rust/src/raster/prime/par.rs:118-127 | every slice is split by `cluster_slice`, carrying points |
| RustPrimePar.Flatten | 2_benchmark_rust/src/raster/prime/par.rs:140-143 | the inner clusters of all slices, whose key sets are those of the set version |
| RustPrimePar.JoinBorders | 2_benchmark_rust/src/raster/prime/par.rs:145-163 | the right-to-left loop over borders reaches the set version's final stage on the key sets, with the points carried unchanged |
| RustPrimePar.JoinAt | 2_benchmark_rust/src/raster/prime/par.rs:151-160 | the join at one border moves the progress invariant one border to the left, with the points carried unchanged |
| RustPrimePar.TilesClustered | 2_benchmark_rust/src/raster/prime/par.rs:107-169 | a clustering of the slices' key sets whose maps take their entries from the slices is a map clustering of all entries |
| RustPrimePar.ClusterTiles | 2_benchmark_rust/src/raster/prime/par.rs:107-169 | delegates for fewer than 2 slices; the assertions fail exactly as in the set version; on success the result is a map clustering of all entries |
| RustPrimePar.PrimeGlobe | 2_benchmark_rust/src/benchmark_lib.rs:178-183 | under the globe bounds the map slices are valid, hold the projection's entries and meet the assertions |
| RustPrimePar.ParRasterPrime | 2_benchmark_rust/src/benchmark_lib.rs:178-188 | succeeds only with 1 to `len` cores; under the globe bounds the key sets cluster the dense tiles and every tile carries exactly its points |
| RustDual.SumCounters | 2_benchmark_rust/src/raster/par/dual_clustering.rs:38-47 | the last worker's counter plus the others gives the counts of all batches together |
| RustDual.MapToTileSlices | 2_benchmark_rust/src/raster/par/dual_clustering.rs:21-60 | panics exactly as `batch_data` does; otherwise the two sets split the sequential dense tiles at `x = 0`, left strictly negative |
| RustDual.ClusterSlice | 2_benchmark_rust/src/raster/par/dual_clustering.rs:128-160 | components with a tile in the edge column (-1 for `Left`, 0 for `Right`) are set aside whatever their size; the others are filtered by size |
| RustDual.FillCluster | 2_benchmark_rust/src/raster/par/dual_clustering.rs:135-150 | from one popped tile, the cluster grown is its whole component among the tiles left; the flag is true exactly when it has a tile in the border column |
| RustDual.FillPop | 2_benchmark_rust/src/raster/par/dual_clustering.rs:142-149 | one pop keeps the flood fill sound and the border flag exact, and shrinks unvisited plus stacked tiles |
| RustDual.PushExtend | 2_benchmark_rust/src/raster/par/dual_clustering.rs:96-99 | pushes every neighbour with its direction and adds its tiles to the cluster |
| RustDual.Search | 2_benchmark_rust/src/raster/par/dual_clustering.rs:87-109 | one stitching search keeps the join invariant and takes every reached piece out of the side lists |
| RustDual.SwapSides | 2_benchmark_rust/src/raster/par/dual_clustering.rs:82-120 | the join of two sides is symmetric, so starting from the left pieces gives the same specification |
| RustDual.JoinClusters | 2_benchmark_rust/src/raster/par/dual_clustering.rs:82-120 | emitted clusters reach the floor; under the join precondition the result stitches every piece into exactly one whole component |
| RustDual.SearchRound | 2_benchmark_rust/src/raster/par/dual_clustering.rs:87-113 | one search from the last left piece keeps the join invariant, emits only clusters that reach the floor, and pops a left piece |
| RustDual.KeepLarge | 2_benchmark_rust/src/raster/par/dual_clustering.rs:114-118 | appends to the clusters exactly the unreached right pieces that reach the floor, in order |
| RustDual.ClusterTiles | 2_benchmark_rust/src/raster/par/dual_clustering.rs:63-80 | for left tiles with negative x and right tiles with non-negative x, the result is a clustering of their union |
| RustDual.DualRaster | 2_benchmark_rust/src/data.rs:135-153 | succeeds exactly with 1 to `len` cores, and then returns a clustering of the sequential dense tiles |
| RustDual.ZipReady | 2_benchmark_rust/src/raster/par/dual_clustering.rs:170-186 | the pieces of `zip_the_clusters` meet the join's precondition |
| RustDual.ZipTheClusters | 2_benchmark_rust/src/raster/par/dual_clustering.rs:170-186 | the join of those pieces with floor 4 is three clusters, the three of the test, in any order |
| JavaRaster.MapToTiles | 4_benchmark_java/java-raster/raster/src/main/java/fcc/raster/Raster.java:28-48 | after `merge` and `removeIf`, the keys are exactly the dense tiles and each value is the tile's point count |
| JavaRaster.GetNeighbors | 4_benchmark_java/java-raster/raster/src/main/java/fcc/raster/Raster.java:50-72 | returns the present 8-neighbours in candidate order and removes exactly those keys from `tiles` |
| JavaRaster.ClusteringTiles | 4_benchmark_java/java-raster/raster/src/main/java/fcc/raster/Raster.java:74-101 | consumes `tiles` and returns a clustering of its keys, with the worklist used as a queue |
| JavaRasterPrime.MapToTiles | 4_benchmark_java/java-raster-prime/raster-prime/src/main/java/fcc/raster/prime/RasterPrime.java:24-49 | the key set equals that of `Raster.mapToTiles`, and each tile maps to its points in input order |
| JavaRasterPrime.GetNeighbors | 4_benchmark_java/java-raster-prime/raster-prime/src/main/java/fcc/raster/prime/RasterPrime.java:51-72 | returns a `Tile(coordinate, points)` for each present neighbour, with the map's own points, and removes exactly those keys |
| JavaRasterPrime.ClusteringTiles | 4_benchmark_java/java-raster-prime/raster-prime/src/main/java/fcc/raster/prime/RasterPrime.java:74-102 | empties `projection`; the key sets of the result are a clustering of its keys, and every tile keeps its points |

## Left out

- File and CSV input, printing, and `main` methods are I/O. This covers `data_loader.load`, `Raster.printClusters`, `main` in both Java classes, the `print` in the plots `fit`, and the `__main__` block of `raster.py`.
- Timing harnesses, CLIQUE wrappers, data generators and plotting scripts are outside the algorithm.
- Concurrency is modelled as a sequential map over batches or slices followed by a fold in a fixed order. This covers threads, channels, rayon, `multiprocessing` queues, pools and executors.
  - Python and Rust count merges are order-independent: `ParProjections.MergeOrderIrrelevant` and `Projection.AddCountsCommutative`.
  - The prime merges are modelled in batch order.
- ParProjections.ProcessPrime: the results are concatenated in batch order. The source takes them in queue-arrival order, which can reorder a tile's points.
- RustPrimePar.ReduceMaps: `reduce_with` is modelled as a left-to-right fold. Rayon may group the chunks differently; list concatenation is associative, so only the order of reduction is fixed.
- RustDual.SumCounters: the last worker's counter comes first, as in the source; the other workers follow in order.
- Floating point is modelled as exact reals. `10**precision`, `powf`, `x * scalar` and the truncating casts become `Grid.Scalar` and `Grid.Trunc` on reals (toward zero). The float step of `split_vertically` is `Trunc` of an exact quotient, and the `as i32` cast of a split is `RustPar.CastI32`, which saturates.
- JavaRaster.MapToTiles: the precision is a Java `double`. Only whole precisions are modelled, through `Scalar` of an `int`, although `Raster.java:18` and `RasterPrime.java:14` use 3.5. The same holds for JavaRasterPrime.MapToTiles.
- RustLib.MapToTiles: the Rust precision is a `Float`; only whole precisions are modelled, although `main.rs:85,89` benchmark precision 3.5. The same holds for RustPrime.MapToTiles, RustPar.MapToTiles, RustPrimePar.MapToTiles and RustDual.MapToTileSlices.
- Integer widths are left out: tiles and counts are unbounded. This covers `i32` overflow of tile coordinates (`x+1` at `i32::MAX`) and Java `Integer` overflow of counts. `i32::MIN` and `i32::MAX` appear only as slice bounds.
- The order in which `set.pop`, `dict.popitem`, `IndexSet::pop`, a `HashMap` iterator or a key-set iterator picks a tile is an arbitrary choice in the model. The contracts hold for every choice.
- The order in which the Python and Rust flood fills emit clusters is likewise unconstrained. It is left to `IsClustering`, which fixes the clusters up to order.
- RustPar.ParRaster: proved only for points on the globe (longitude and latitude within ±180), precision 0 to 6 and at most 360 cores. The same holds for RustPrimePar.ParRasterPrime. Outside these bounds the float step can be zero, or the scaled splits can leave the `i32` range.
- RustPar.ClusterTiles: its clustering guarantee assumes valid slices. When the step is zero (more slices than degrees), the middle slices have an upper bound below their lower bound, and that case is not covered. The same holds for RustPrimePar.ClusterTiles.
- RustPar.JoinClusters: the join guarantee holds under a precondition. The pieces must be connected, pairwise disjoint and not adjacent within a side. This is what `cluster_slice` delivers and what `cluster_tiles` passes on. The same holds for RustPrimePar.JoinClusters and RustDual.JoinClusters.
- RustPrimePar.JoinClusters: takes the whole entry map as an extra ghost parameter to state that points are carried unchanged. The same holds for RustPrimePar.Flatten and RustPrimePar.JoinBorders.
- `pop_neighbors` in `prime/par.rs` is the same code as in `prime.rs`. Both are modelled by `RustPrime.PopNeighbors`.
- The second dual unit test, `zip_the_clusters2` (16 clusters), is not stated. Its concrete component proof is too large for the verifier. `zip_the_clusters` is stated as RustDual.ZipTheClusters.
- The lib.rs test `map_to_tile_slices2` is not stated as a concrete fact. It follows from RustPar.MapToTiles with RustPar.SlicesCover and RustPar.SlicesDisjoint. `left_right_edge_case` is stated as RustPar.LeftRightEdgeCase.
- The `data.rs` tests on the 100-point CSV file are not stated as concrete facts. They are covered by the all-inputs theorems RustPar.ParRaster, RustDual.DualRaster and RustDual.MapToTileSlices.
- `Tile.java` is modelled as the pair `(Tile, seq<Point>)`.
- numpy arrays are sequences of integers.
- The `isinstance` assertions of `get_neighbors` are type facts in Dafny.
- PyClustering.ParMapToTiles: the batches are built with `DataLoader.BatchedRangesCorrected`, not the as-written `batched_ranges`. The same holds for PyClusteringPrime.ParMapToTiles, PyRaster.ParRaster and PyRaster.ParRasterPrime. The as-written split breaks equality with the sequential projection; see Findings.

## Findings

| source | as written | input that shows it | evidently intended | confidence | as-written member | corrected member |
|---|---|---|---|---|---|---|
| 1_benchmark_sklearn/data_loader.py:23-31 | with one process, both `firstRange` and `finalRange` are `range(0, len)`, so every point is counted twice | `numProcesses = 1`: three points in one tile with threshold 5 give the tile as dense, while sequential projection does not | one range per process, so that one process gives the sequential counts that `test.py:44` compares against | not executed | DataLoader.SingleProcessTwice | DataLoader.CorrectedConsecutive |
| 1_benchmark_sklearn/data_loader.py:27 | the middle ranges use `round(len/numProcesses)` and can run past the end of the data, so a worker indexes past the last point: `pool` and `processPoolExecutor` raise `IndexError`, and `process` and `process_prime` block forever (ParProjections.PastTheEndOutOfBounds) | `len = 3`, `numProcesses = 5`: `batchSize = 1` and the middle ranges reach `range(3, 4)` | every range within `0..len`, together partitioning it | not executed | DataLoader.PastTheEndExample | DataLoader.CorrectedConsecutive |
