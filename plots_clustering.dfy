/**
 * 3_plots_sklearn/clustering.py: the projection and agglomeration behind the plotting
 * estimator. Projection keeps the counts of the dense tiles; agglomeration works on
 * its own copy of the tiles.
 */
module PlotsClustering {
  import opened Grid
  import opened Components
  import opened Projection
  import opened Containers

  /**
   * `mapToTiles_Tiles`: the dense tiles with their number of points, and the scalar
   * used.
   */
  method MapToTilesTiles(points: seq<Point>, precision: int, threshold: int)
    returns (result: map<Tile, nat>, scalar: real)
    ensures scalar == Scalar(precision)
    ensures result.Keys == Dense(points, scalar, threshold)
    ensures forall t :: t in result ==> result[t] == multiset(TilesOf(points, scalar))[t]
  {
    scalar := Scalar(precision);
    var allPoints: map<Tile, nat> := map[];
    for i := 0 to |points|
      invariant allPoints == CountMap(TilesOf(points[..i], scalar))
    {
      var (lat, lon) := Quantize(points[i], scalar);
      CountPrefixStep(points, i, scalar);
      if (lat, lon) in allPoints.Keys {
        allPoints := allPoints[(lat, lon) := allPoints[(lat, lon)] + 1];
      } else {
        allPoints := allPoints[(lat, lon) := 1];
      }
    }
    assert points[..|points|] == points;
    result := map[];
    var keys := allPoints.Keys;
    while keys != {}
      invariant keys <= allPoints.Keys
      invariant result == CountsAtLeastAmong(allPoints, threshold, allPoints.Keys - keys)
      decreases |keys|
    {
      var k :| k in keys;
      CountsAtLeastAmongStep(allPoints, threshold, keys, k);
      var vals := allPoints[k];
      if vals >= threshold {
        result := result[k := vals];
      }
      keys := keys - {k};
    }
    assert allPoints.Keys - keys == allPoints.Keys;
    CountsAtLeastDense(points, scalar, threshold);
  }

  /** `getNeighbors`: removes and returns the neighbours of `coordinate` present in `squares`. */
  method GetNeighbors(coordinate: Tile, squares: TileSet) returns (result: seq<Tile>)
    modifies squares
    ensures result == PresentNeighbors(coordinate, old(squares.elems))
    ensures squares.elems == old(squares.elems) - Elems(result)
  {
    var neighbors := Candidates(coordinate);
    result := [];
    for i := 0 to |neighbors|
      invariant result == Present(neighbors[..i], old(squares.elems))
      invariant squares.elems == old(squares.elems) - Elems(result)
    {
      var n := neighbors[i];
      assert neighbors[..i + 1] == neighbors[..i] + [n];
      PresentSnoc(neighbors[..i], n, old(squares.elems));
      if n in squares.elems {
        squares.Remove(n);
        result := result + [n];
      }
    }
    assert neighbors[..|neighbors|] == neighbors;
  }

  /**
   * `raster_clustering_tiles`: the components of at least `minSize` tiles. The tiles are
   * first copied into a fresh set, so the caller's collection is left as it was.
   */
  method RasterClusteringTiles(tiles: set<Tile>, minSize: int) returns (clusters: seq<set<Tile>>)
    ensures IsClustering(tiles, minSize, clusters)
  {
    var squares := new TileSet(tiles);
    clusters := [];
    SweepStart(tiles, minSize);
    while squares.elems != {}
      invariant SweepInv(tiles, minSize, squares.elems, clusters)
      decreases |squares.elems|
    {
      ghost var w0 := squares.elems;
      var x := squares.Pop();
      var visited := {x};
      var toCheck := GetNeighbors(x, squares);
      FillBegin(w0, x, toCheck);
      while toCheck != []
        invariant FillInv(w0, x, visited, Elems(toCheck), squares.elems)
        invariant Distinct(toCheck)
        decreases |squares.elems| + |toCheck|
      {
        ghost var stack, seen, rest := toCheck, visited, squares.elems;
        var val := toCheck[|toCheck| - 1];
        toCheck := toCheck[..|toCheck| - 1];
        visited := visited + {val};
        var found := GetNeighbors(val, squares);
        FillAdvance(w0, x, seen, stack, rest, found);
        toCheck := toCheck + found;
      }
      SweepStep(tiles, minSize, w0, clusters, x, visited, squares.elems);
      if |visited| >= minSize {
        clusters := clusters + [visited];
      }
    }
    SweepDone(tiles, minSize, clusters);
  }
}
