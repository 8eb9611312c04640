/**
 * 2_benchmark_python/clustering_prime.py: the variant of RASTER that keeps, for every
 * tile, the list of the points that fell into it, and carries those lists through
 * agglomeration.
 */
module PyClusteringPrime {
  import opened Wrappers
  import opened Grid
  import opened Components
  import opened Projection
  import opened DataLoader
  import opened ParProjections
  import opened Containers

  /** The loop that keeps the tiles whose list reaches the threshold. */
  method FilterLists(allPoints: map<Tile, seq<Point>>, threshold: int) returns (result: map<Tile, seq<Point>>)
    ensures result == LongLists(allPoints, threshold)
  {
    result := map[];
    var items := allPoints.Keys;
    while items != {}
      invariant items <= allPoints.Keys
      invariant result == LongListsAmong(allPoints, threshold, allPoints.Keys - items)
      decreases |items|
    {
      var k :| k in items;
      LongListsAmongStep(allPoints, threshold, items, k);
      if |allPoints[k]| >= threshold {
        result := result[k := allPoints[k]];
      }
      items := items - {k};
    }
    assert allPoints.Keys - items == allPoints.Keys;
  }

  /**
   * `map_to_tiles`: every dense tile with the list of its points in input order;
   * the key set is that of the counting projection.
   */
  method MapToTiles(points: seq<Point>, precision: int, threshold: int)
    returns (result: map<Tile, seq<Point>>, scalar: real)
    ensures scalar == Scalar(precision)
    ensures result.Keys == Dense(points, scalar, threshold)
    ensures forall t :: t in result ==> result[t] == PointsIn(points, scalar, t)
  {
    scalar := Scalar(precision);
    var allPoints: map<Tile, seq<Point>> := map[];
    for i := 0 to |points|
      invariant allPoints == PointMap(points[..i], scalar)
    {
      var point := Quantize(points[i], scalar);
      var pointsInTile := GetPoints(allPoints, point);
      pointsInTile := pointsInTile + [points[i]];
      allPoints := allPoints[point := pointsInTile];
      PointPrefixStep(points, i, scalar);
    }
    assert points[..|points|] == points;
    result := FilterLists(allPoints, threshold);
    LongListsDense(points, scalar, threshold);
  }

  /** `par_map_to_tiles`: the same map, built from the per-batch point lists. */
  method ParMapToTiles(points: seq<Point>, precision: int, threshold: int, numProcesses: nat)
    returns (res: Result<(map<Tile, seq<Point>>, real)>)
    ensures numProcesses == 0 ==> res == Failure("ZeroDivisionError")
    ensures numProcesses > 0 ==> res.Success?
    ensures res.Success? ==>
              && res.value.1 == Scalar(precision)
              && res.value.0.Keys == Dense(points, Scalar(precision), threshold)
              && forall t :: t in res.value.0 ==> res.value.0[t] == PointsIn(points, Scalar(precision), t)
  {
    var scalar := Scalar(precision);
    var ranges := BatchedRangesCorrected(|points|, numProcesses);
    if ranges.Failure? {
      return Failure(ranges.error);
    }
    var batches := ranges.value;
    CorrectedConsecutive(|points|, numProcesses);
    MergedPointsSequential(points, batches, scalar);
    var merged := ProcessPrime(points, batches, scalar);
    var result := FilterLists(merged.value, threshold);
    LongListsDense(points, scalar, threshold);
    return Success((result, scalar));
  }

  /**
   * `get_neighbors`: the neighbours of `coordinate` present in `squares`, in candidate
   * order and each with its point list; exactly those keys are deleted.
   */
  method GetNeighbors(coordinate: Tile, squares: TileMap<seq<Point>>) returns (result: seq<(Tile, seq<Point>)>)
    modifies squares
    ensures Firsts(result) == PresentNeighbors(coordinate, old(squares.entries).Keys)
    ensures PairsFrom(result, old(squares.entries))
    ensures squares.entries == old(squares.entries) - Elems(Firsts(result))
  {
    var neighbors := Candidates(coordinate);
    result := [];
    for i := 0 to |neighbors|
      invariant Firsts(result) == Present(neighbors[..i], old(squares.entries).Keys)
      invariant PairsFrom(result, old(squares.entries))
      invariant squares.entries == old(squares.entries) - Elems(Firsts(result))
    {
      var n := neighbors[i];
      assert neighbors[..i + 1] == neighbors[..i] + [n];
      PresentSnoc(neighbors[..i], n, old(squares.entries).Keys);
      if n in squares.entries {
        PairsSnoc(result, old(squares.entries), squares.entries, n);
        result := result + [(n, squares.entries[n])];
        squares.Delete(n);
      }
    }
    assert neighbors[..|neighbors|] == neighbors;
  }

  /**
   * `raster_clustering_tiles`: consumes `squares` and returns its 8-connected
   * components of at least `minSize` tiles, each tile with its point list.
   */
  method RasterClusteringTiles(squares: TileMap<seq<Point>>, minSize: int) returns (clusters: seq<map<Tile, seq<Point>>>)
    modifies squares
    ensures squares.entries == map[]
    ensures IsMapClustering(old(squares.entries), minSize, clusters)
  {
    ghost var s := squares.entries;
    clusters := [];
    MapSweepStart(s, minSize);
    while squares.entries != map[]
      invariant MapSweepInv(s, minSize, squares.entries, clusters)
      decreases |squares.entries|
    {
      ghost var w := squares.entries;
      var k, v := squares.PopItem();
      var visited := map[k := v];
      var toCheck := GetNeighbors(k, squares);
      MapFillBegin(s, w, k, toCheck);
      while toCheck != []
        invariant MapFillInv(s, w.Keys, k, visited, toCheck, squares.entries)
        decreases |squares.entries| + |toCheck|
      {
        ghost var stack, seen, rest := toCheck, visited, squares.entries;
        var (neighK, neighV) := toCheck[|toCheck| - 1];
        toCheck := toCheck[..|toCheck| - 1];
        visited := visited[neighK := neighV];
        var found := GetNeighbors(neighK, squares);
        MapFillAdvance(s, w.Keys, k, seen, stack, rest, found);
        toCheck := toCheck + found;
      }
      MapSweepStep(s, minSize, w, clusters, k, visited, squares.entries);
      if |visited| >= minSize {
        clusters := clusters + [visited];
      }
    }
    MapSweepDone(s, minSize, clusters);
  }
}
