/**
 * 4_benchmark_java/java-raster/raster/src/main/java/fcc/raster/Raster.java: RASTER over
 * a `HashMap` from tile to point count. The map returned by the projection is handed to
 * the agglomeration, whose neighbour search drains it in place; the list of tiles still
 * to check is a queue (`remove(0)`, `addAll`).
 */
module JavaRaster {
  import opened Wrappers
  import opened Grid
  import opened Components
  import opened Projection
  import opened Containers

  /**
   * `mapToTiles`: every tile that received at least `threshold` points, mapped to its
   * number of points. The counting loop is `merge(tile, 1, +)`; the filter is
   * `values().removeIf(v -> v < threshold)`.
   */
  method MapToTiles(points: seq<Point>, precision: int, threshold: int) returns (result: map<Tile, nat>)
    ensures result.Keys == Dense(points, Scalar(precision), threshold)
    ensures forall t :: t in result ==> result[t] == multiset(TilesOf(points, Scalar(precision)))[t]
  {
    var scalar := Scalar(precision);
    var allPoints: map<Tile, nat> := map[];
    for i := 0 to |points|
      invariant allPoints == CountMap(TilesOf(points[..i], scalar))
    {
      var tile := Quantize(points[i], scalar);
      allPoints := allPoints[tile := if tile in allPoints then allPoints[tile] + 1 else 1];
      CountPrefixStep(points, i, scalar);
    }
    assert points[..|points|] == points;
    result := RemoveIf(allPoints, (v: nat) => v < threshold);
    SignificantCounts(points, scalar, threshold);
    assert result.Keys == Significant(allPoints, threshold);
  }

  /**
   * `getNeighbors`: the neighbours of `coordinate` present in `tiles`, in candidate
   * order; `tiles.remove` takes exactly those out of the caller's map.
   */
  method GetNeighbors(coordinate: Tile, tiles: TileMap<nat>) returns (result: seq<Tile>)
    modifies tiles
    ensures result == PresentNeighbors(coordinate, old(tiles.entries).Keys)
    ensures tiles.entries == old(tiles.entries) - Elems(result)
  {
    var neighbors := Candidates(coordinate);
    result := [];
    for i := 0 to |neighbors|
      invariant result == Present(neighbors[..i], old(tiles.entries).Keys)
      invariant tiles.entries == old(tiles.entries) - Elems(result)
    {
      var n := neighbors[i];
      assert neighbors[..i + 1] == neighbors[..i] + [n];
      PresentSnoc(neighbors[..i], n, old(tiles.entries).Keys);
      var inTiles := tiles.Remove(n);
      if inTiles.Some? {
        result := result + [n];
      }
    }
    assert neighbors[..|neighbors|] == neighbors;
  }

  /**
   * `clusteringTiles`: consumes `tiles` and returns its 8-connected components of at
   * least `minSize` tiles.
   */
  method ClusteringTiles(tiles: TileMap<nat>, minSize: int) returns (clusters: seq<set<Tile>>)
    modifies tiles
    ensures tiles.entries == map[]
    ensures IsClustering(old(tiles.entries).Keys, minSize, clusters)
  {
    ghost var s := tiles.entries.Keys;
    clusters := [];
    SweepStart(s, minSize);
    while tiles.entries != map[]
      invariant SweepInv(s, minSize, tiles.entries.Keys, clusters)
      decreases |tiles.entries.Keys|
    {
      ghost var w0 := tiles.entries.Keys;
      var x, count := tiles.PopItem();
      assert tiles.entries.Keys == w0 - {x};
      var visited := {x};
      var toCheck := GetNeighbors(x, tiles);
      FillBegin(w0, x, toCheck);
      while toCheck != []
        invariant FillInv(w0, x, visited, Elems(toCheck), tiles.entries.Keys)
        invariant Distinct(toCheck)
        decreases |tiles.entries.Keys| + |toCheck|
      {
        ghost var queue, seen, rest := toCheck, visited, tiles.entries.Keys;
        var value := toCheck[0];
        toCheck := toCheck[1..];
        visited := visited + {value};
        var found := GetNeighbors(value, tiles);
        assert tiles.entries.Keys == rest - Elems(found);
        FillAdvanceFront(w0, x, seen, queue, rest, found);
        toCheck := toCheck + found;
      }
      SweepStep(s, minSize, w0, clusters, x, visited, tiles.entries.Keys);
      if |visited| >= minSize {
        clusters := clusters + [visited];
      }
    }
    SweepDone(s, minSize, clusters);
  }
}
