/**
 * 1_benchmark_sklearn/clustering.py: the projection and agglomeration used by the
 * scikit-learn style estimator.
 */
module SkClustering {
  import opened Grid
  import opened Components
  import opened Projection
  import opened Containers

  /** `map_to_tiles`: the tiles holding at least `threshold` points, and the scalar used. */
  method MapToTiles(points: seq<Point>, precision: int, threshold: int) returns (result: set<Tile>, scalar: real)
    ensures scalar == Scalar(precision)
    ensures result == Dense(points, scalar, threshold)
  {
    scalar := Scalar(precision);
    var allPoints: map<Tile, nat> := map[];
    for i := 0 to |points|
      invariant allPoints == CountMap(TilesOf(points[..i], scalar))
    {
      var point := Quantize(points[i], scalar);
      var numPointsInTile := Get(allPoints, point);
      allPoints := allPoints[point := numPointsInTile + 1];
      CountPrefixStep(points, i, scalar);
    }
    assert points[..|points|] == points;
    result := {};
    var items := allPoints.Keys;
    while items != {}
      invariant items <= allPoints.Keys
      invariant result == SignificantAmong(allPoints, threshold, allPoints.Keys - items)
      decreases |items|
    {
      var k :| k in items;
      SignificantAmongStep(allPoints, threshold, items, k);
      if allPoints[k] >= threshold {
        result := result + {k};
      }
      items := items - {k};
    }
    assert allPoints.Keys - items == allPoints.Keys;
    SignificantCounts(points, scalar, threshold);
  }

  /** `get_neighbors`: removes and returns the neighbours of `coordinate` present in `squares`. */
  method GetNeighbors(coordinate: Tile, squares: TileSet) returns (result: seq<Tile>)
    modifies squares
    ensures result == PresentNeighbors(coordinate, old(squares.elems))
    ensures squares.elems == old(squares.elems) - Elems(result)
  {
    var neighbors := Candidates(coordinate);
    result := [];
    for i := 0 to |neighbors|
      invariant result == Present(neighbors[..i], old(squares.elems))
      invariant squares.elems == old(squares.elems) - Elems(result)
    {
      var n := neighbors[i];
      assert neighbors[..i + 1] == neighbors[..i] + [n];
      PresentSnoc(neighbors[..i], n, old(squares.elems));
      if n in squares.elems {
        squares.Remove(n);
        result := result + [n];
      }
    }
    assert neighbors[..|neighbors|] == neighbors;
  }

  /** `clustering_tiles`: consumes `squares` and returns its components of at least `minSize` tiles. */
  method ClusteringTiles(squares: TileSet, minSize: int) returns (clusters: seq<set<Tile>>)
    modifies squares
    ensures squares.elems == {}
    ensures IsClustering(old(squares.elems), minSize, clusters)
  {
    ghost var s := squares.elems;
    clusters := [];
    SweepStart(s, minSize);
    while squares.elems != {}
      invariant SweepInv(s, minSize, squares.elems, clusters)
      decreases |squares.elems|
    {
      ghost var w0 := squares.elems;
      var x := squares.Pop();
      var visited := {x};
      var toCheck := GetNeighbors(x, squares);
      FillBegin(w0, x, toCheck);
      while toCheck != []
        invariant FillInv(w0, x, visited, Elems(toCheck), squares.elems)
        invariant Distinct(toCheck)
        decreases |squares.elems| + |toCheck|
      {
        ghost var stack, seen, rest := toCheck, visited, squares.elems;
        var val := toCheck[|toCheck| - 1];
        toCheck := toCheck[..|toCheck| - 1];
        visited := visited + {val};
        var found := GetNeighbors(val, squares);
        FillAdvance(w0, x, seen, stack, rest, found);
        toCheck := toCheck + found;
      }
      SweepStep(s, minSize, w0, clusters, x, visited, squares.elems);
      if |visited| >= minSize {
        clusters := clusters + [visited];
      }
    }
    SweepDone(s, minSize, clusters);
  }
}
