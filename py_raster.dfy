/**
 * 2_benchmark_python/raster.py: the four RASTER pipelines, each a projection followed
 * by agglomeration. Sequential and batched projection, with or without point lists,
 * yield the same clusters.
 */
module PyRaster {
  import opened Wrappers
  import opened Grid
  import opened Components
  import opened Projection
  import opened Containers
  import PyClustering
  import PyClusteringPrime
  import ParProjections

  /** `raster`: the clusters of the dense tiles, and the projection's scalar. */
  method Raster(allPoints: seq<Point>, precision: int, threshold: int, minSize: int)
    returns (clusters: seq<set<Tile>>, scalar: real)
    ensures scalar == Scalar(precision)
    ensures IsClustering(Dense(allPoints, scalar, threshold), minSize, clusters)
    ensures forall cs :: IsClustering(Dense(allPoints, scalar, threshold), minSize, cs) ==>
              multiset(cs) == multiset(clusters)
  {
    var tiles;
    tiles, scalar := PyClustering.MapToTiles(allPoints, precision, threshold);
    var squares := new TileSet(tiles);
    clusters := PyClustering.RasterClusteringTiles(squares, minSize);
    forall cs | IsClustering(Dense(allPoints, scalar, threshold), minSize, cs)
      ensures multiset(cs) == multiset(clusters)
    {
      ClusteringUnique(Dense(allPoints, scalar, threshold), minSize, cs, clusters);
    }
  }

  /**
   * `par_raster`: batched projection with the default variant, then the same
   * agglomeration; for every positive process count the clusters are those of `raster`.
   */
  method ParRaster(allPoints: seq<Point>, precision: int, threshold: int, minSize: int, numProcesses: nat)
    returns (res: Result<(seq<set<Tile>>, real)>)
    ensures numProcesses == 0 ==> res == Failure("ZeroDivisionError")
    ensures numProcesses > 0 ==> res.Success?
    ensures res.Success? ==>
              && res.value.1 == Scalar(precision)
              && IsClustering(Dense(allPoints, Scalar(precision), threshold), minSize, res.value.0)
              && forall cs :: IsClustering(Dense(allPoints, Scalar(precision), threshold), minSize, cs) ==>
                   multiset(cs) == multiset(res.value.0)
  {
    var projection := PyClustering.ParMapToTiles(allPoints, precision, threshold, numProcesses,
                                                 PyClustering.Parallel(ParProjections.MpProcess));
    if projection.Failure? {
      return Failure(projection.error);
    }
    var (tiles, scalar) := projection.value;
    var squares := new TileSet(tiles);
    var clusters := PyClustering.RasterClusteringTiles(squares, minSize);
    forall cs | IsClustering(Dense(allPoints, scalar, threshold), minSize, cs)
      ensures multiset(cs) == multiset(clusters)
    {
      ClusteringUnique(Dense(allPoints, scalar, threshold), minSize, cs, clusters);
    }
    return Success((clusters, scalar));
  }

  /**
   * `raster_prime`: the clusters as maps from tile to its points; their key sets are
   * the clusters of `raster`.
   */
  method RasterPrime(allPoints: seq<Point>, precision: int, threshold: int, minSize: int)
    returns (clusters: seq<map<Tile, seq<Point>>>, scalar: real)
    ensures scalar == Scalar(precision)
    ensures IsClustering(Dense(allPoints, scalar, threshold), minSize, KeySets(clusters))
    ensures forall i, t :: 0 <= i < |clusters| && t in clusters[i] ==> clusters[i][t] == PointsIn(allPoints, scalar, t)
    ensures forall cs :: IsClustering(Dense(allPoints, scalar, threshold), minSize, cs) ==>
              multiset(cs) == multiset(KeySets(clusters))
  {
    var tiles;
    tiles, scalar := PyClusteringPrime.MapToTiles(allPoints, precision, threshold);
    var squares := new TileMap(tiles);
    clusters := PyClusteringPrime.RasterClusteringTiles(squares, minSize);
    PrimeOutcome(allPoints, scalar, threshold, minSize, tiles, clusters);
  }

  /** `par_raster_prime`: as `raster_prime`, over batched projection. */
  method ParRasterPrime(allPoints: seq<Point>, precision: int, threshold: int, minSize: int, numProcesses: nat)
    returns (res: Result<(seq<map<Tile, seq<Point>>>, real)>)
    ensures numProcesses == 0 ==> res == Failure("ZeroDivisionError")
    ensures numProcesses > 0 ==> res.Success?
    ensures res.Success? ==>
              && res.value.1 == Scalar(precision)
              && IsClustering(Dense(allPoints, Scalar(precision), threshold), minSize, KeySets(res.value.0))
              && (forall i, t :: 0 <= i < |res.value.0| && t in res.value.0[i] ==>
                    res.value.0[i][t] == PointsIn(allPoints, Scalar(precision), t))
              && forall cs :: IsClustering(Dense(allPoints, Scalar(precision), threshold), minSize, cs) ==>
                   multiset(cs) == multiset(KeySets(res.value.0))
  {
    var projection := PyClusteringPrime.ParMapToTiles(allPoints, precision, threshold, numProcesses);
    if projection.Failure? {
      return Failure(projection.error);
    }
    var (tiles, scalar) := projection.value;
    var squares := new TileMap(tiles);
    var clusters := PyClusteringPrime.RasterClusteringTiles(squares, minSize);
    PrimeOutcome(allPoints, scalar, threshold, minSize, tiles, clusters);
    return Success((clusters, scalar));
  }

  /**
   * Agglomerating the prime projection: the key sets are the unique clustering of the
   * dense tiles, and every tile keeps its points.
   */
  lemma PrimeOutcome(allPoints: seq<Point>, scalar: real, threshold: int, minSize: int,
                     tiles: map<Tile, seq<Point>>, clusters: seq<map<Tile, seq<Point>>>)
    requires tiles.Keys == Dense(allPoints, scalar, threshold)
    requires forall t :: t in tiles ==> tiles[t] == PointsIn(allPoints, scalar, t)
    requires IsMapClustering(tiles, minSize, clusters)
    ensures IsClustering(Dense(allPoints, scalar, threshold), minSize, KeySets(clusters))
    ensures forall i, t :: 0 <= i < |clusters| && t in clusters[i] ==> clusters[i][t] == PointsIn(allPoints, scalar, t)
    ensures forall cs :: IsClustering(Dense(allPoints, scalar, threshold), minSize, cs) ==>
              multiset(cs) == multiset(KeySets(clusters))
  {
    forall i, t | 0 <= i < |clusters| && t in clusters[i]
      ensures clusters[i][t] == PointsIn(allPoints, scalar, t)
    {
      assert SubMap(clusters[i], tiles);
    }
    forall cs | IsClustering(Dense(allPoints, scalar, threshold), minSize, cs)
      ensures multiset(cs) == multiset(KeySets(clusters))
    {
      ClusteringUnique(Dense(allPoints, scalar, threshold), minSize, cs, KeySets(clusters));
    }
  }
}
