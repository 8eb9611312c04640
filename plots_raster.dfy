/**
 * 3_plots_sklearn/raster.py: the estimator used for the plots. All points start as
 * noise (-1); a point is relabelled only when its tile belongs to a cluster.
 */
module PlotsRaster {
  import opened Grid
  import opened Components
  import opened Projection
  import opened Labels
  import PlotsClustering

  /**
   * The loop of `fit` over the points: an array of -1 in which a point's entry is
   * overwritten when its tile is a key of `full`.
   */
  method MarkLabels(X: seq<Point>, scalar: real, clusters: seq<set<Tile>>, full: map<Tile, int>)
    returns (labels: seq<int>)
    requires forall t :: GetLabel(full, t) == LabelOf(clusters, t)
    ensures |labels| == |X|
    ensures forall i :: 0 <= i < |X| ==> labels[i] == LabelOf(clusters, Quantize(X[i], scalar))
  {
    var labelArray := new int[|X|](_ => -1);
    var allKeys := full.Keys;
    for i := 0 to |X|
      invariant forall j :: 0 <= j < i ==> labelArray[j] == LabelOf(clusters, Quantize(X[j], scalar))
      invariant forall j :: i <= j < |X| ==> labelArray[j] == -1
    {
      var (a, b) := Quantize(X[i], scalar);
      if (a, b) !in allKeys {
        continue;
      } else {
        labelArray[i] := full[(a, b)];
      }
    }
    labels := labelArray[..];
  }

  class Raster {
    var threshold: int
    var minSize: int
    var precision: int
    /** `labels_`: one label per point of the last `fit`; empty before the first. */
    var labels: seq<int>
    /** The clusters the last `fit` found, in the order it numbered them. */
    ghost var clusters: seq<set<Tile>>

    constructor (threshold: int, minSize: int, precision: int)
      ensures this.threshold == threshold && this.minSize == minSize && this.precision == precision
      ensures labels == [] && clusters == []
    {
      this.threshold := threshold;
      this.minSize := minSize;
      this.precision := precision;
      labels := [];
      clusters := [];
    }

    /**
     * `fit`: clusters the dense tiles of `X`, numbers the clusters from 0 and labels
     * every point with its tile's cluster number; the remaining points keep -1.
     */
    method Fit(X: seq<Point>)
      modifies this
      ensures precision == old(precision) && threshold == old(threshold) && minSize == old(minSize)
      ensures IsClustering(Dense(X, Scalar(precision), threshold), minSize, clusters)
      ensures |labels| == |X|
      ensures forall i :: 0 <= i < |X| ==> labels[i] == LabelOf(clusters, Quantize(X[i], Scalar(precision)))
      ensures forall i :: 0 <= i < |X| ==>
                (labels[i] == -1 <==> var t := Quantize(X[i], Scalar(precision));
                   t !in Dense(X, Scalar(precision), threshold) || InSmall(Dense(X, Scalar(precision), threshold), minSize, t))
    {
      var tilesDict, scalar := PlotsClustering.MapToTilesTiles(X, precision, threshold);
      var tiles := tilesDict.Keys;
      var found := PlotsClustering.RasterClusteringTiles(tiles, minSize);
      var full := TileToLabel(found);
      labels := MarkLabels(X, scalar, found, full);
      clusters := found;
      OutlierLabels(tiles, minSize, found, X, scalar, labels);
    }
  }
}
