/**
 * 4_benchmark_java/java-raster-prime/raster-prime/src/main/java/fcc/raster/prime/RasterPrime.java:
 * RASTER' over a `HashMap` from tile to the list of its points. The record
 * `Tile(tile_coordinate, points)` of Tile.java is the pair `(Tile, seq<Point>)` here.
 */
module JavaRasterPrime {
  import opened Wrappers
  import opened Grid
  import opened Components
  import opened Projection
  import opened Containers

  /**
   * `mapToTiles`: every tile that received at least `threshold` points, mapped to those
   * points in input order. The key set is the one `Raster.mapToTiles` computes, since
   * both quantise alike.
   */
  method MapToTiles(points: seq<Point>, precision: int, threshold: int) returns (result: map<Tile, seq<Point>>)
    ensures result.Keys == Dense(points, Scalar(precision), threshold)
    ensures forall t :: t in result ==> result[t] == PointsIn(points, Scalar(precision), t)
  {
    var scalar := Scalar(precision);
    var allPoints: map<Tile, seq<Point>> := map[];
    for i := 0 to |points|
      invariant allPoints == PointMap(points[..i], scalar)
    {
      var tile := Quantize(points[i], scalar);
      var lookup := if tile in allPoints then allPoints[tile] else [];
      lookup := lookup + [points[i]];
      allPoints := allPoints[tile := lookup];
      PointPrefixStep(points, i, scalar);
    }
    assert points[..|points|] == points;
    result := RemoveIf(allPoints, (v: seq<Point>) => |v| < threshold);
    assert result == LongLists(allPoints, threshold);
    LongListsDense(points, scalar, threshold);
  }

  /**
   * `getNeighbors`: a `Tile` record for each neighbour of `coordinate` present in
   * `tiles`, in candidate order and with its points; `tiles.remove` takes exactly
   * those keys out of the caller's map.
   */
  method GetNeighbors(coordinate: Tile, tiles: TileMap<seq<Point>>) returns (result: seq<(Tile, seq<Point>)>)
    modifies tiles
    ensures Firsts(result) == PresentNeighbors(coordinate, old(tiles.entries).Keys)
    ensures PairsFrom(result, old(tiles.entries))
    ensures tiles.entries == old(tiles.entries) - Elems(Firsts(result))
  {
    var neighbors := Candidates(coordinate);
    result := [];
    for i := 0 to |neighbors|
      invariant Firsts(result) == Present(neighbors[..i], old(tiles.entries).Keys)
      invariant PairsFrom(result, old(tiles.entries))
      invariant tiles.entries == old(tiles.entries) - Elems(Firsts(result))
    {
      var n := neighbors[i];
      assert neighbors[..i + 1] == neighbors[..i] + [n];
      PresentSnoc(neighbors[..i], n, old(tiles.entries).Keys);
      if n in tiles.entries {
        PairsSnoc(result, old(tiles.entries), tiles.entries, n);
      }
      var inTiles := tiles.Remove(n);
      if inTiles.Some? {
        result := result + [(n, inTiles.value)];
      }
    }
    assert neighbors[..|neighbors|] == neighbors;
  }

  /**
   * `clusteringTiles`: empties `projection` and returns its 8-connected components of
   * at least `minSize` tiles, each tile with its points unchanged.
   */
  method ClusteringTiles(projection: TileMap<seq<Point>>, minSize: int) returns (clusters: seq<map<Tile, seq<Point>>>)
    modifies projection
    ensures projection.entries == map[]
    ensures IsMapClustering(old(projection.entries), minSize, clusters)
  {
    ghost var s := projection.entries;
    clusters := [];
    MapSweepStart(s, minSize);
    while projection.entries != map[]
      invariant MapSweepInv(s, minSize, projection.entries, clusters)
      decreases |projection.entries|
    {
      ghost var w := projection.entries;
      var key, value := projection.PopItem();
      var visited := map[key := value];
      var toCheck := GetNeighbors(key, projection);
      MapFillBegin(s, w, key, toCheck);
      while toCheck != []
        invariant MapFillInv(s, w.Keys, key, visited, toCheck, projection.entries)
        decreases |projection.entries| + |toCheck|
      {
        ghost var queue, seen, rest := toCheck, visited, projection.entries;
        var next := toCheck[0];
        toCheck := toCheck[1..];
        visited := visited[next.0 := next.1];
        var found := GetNeighbors(next.0, projection);
        MapFillAdvanceFront(s, w.Keys, key, seen, queue, rest, found);
        toCheck := toCheck + found;
      }
      MapSweepStep(s, minSize, w, clusters, key, visited, projection.entries);
      if |visited| >= minSize {
        clusters := clusters + [visited];
      }
    }
    MapSweepDone(s, minSize, clusters);
  }
}
