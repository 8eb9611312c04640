/**
 * 1_benchmark_sklearn/raster_label.py: RASTER as a scikit-learn style estimator whose
 * `fit` labels every input point with the index of its tile's cluster, or -1.
 */
module SkRasterLabel {
  import opened Grid
  import opened Components
  import opened Projection
  import opened Containers
  import opened Labels
  import SkClustering

  /**
   * The loop of `fit` that looks up the label of every point's tile, -1 for a tile
   * without one, in a fresh array of one entry per point.
   */
  method AssignLabels(X: seq<Point>, scalar: real, clusters: seq<set<Tile>>, tileToLabel: map<Tile, int>)
    returns (labels: seq<int>)
    requires forall t :: GetLabel(tileToLabel, t) == LabelOf(clusters, t)
    ensures |labels| == |X|
    ensures forall i :: 0 <= i < |X| ==> labels[i] == LabelOf(clusters, Quantize(X[i], scalar))
  {
    var labelArray := new int[|X|];
    for i := 0 to |X|
      invariant forall j :: 0 <= j < i ==> labelArray[j] == LabelOf(clusters, Quantize(X[j], scalar))
    {
      var (a, b) := Quantize(X[i], scalar);
      labelArray[i] := GetLabel(tileToLabel, (a, b));
    }
    labels := labelArray[..];
  }

  class Raster {
    var precision: int
    var threshold: int
    var minSize: int
    /** `labels_`: one label per point of the last `fit`; empty before the first. */
    var labels: seq<int>
    /** The clusters the last `fit` found, in the order it labelled them. */
    ghost var clusters: seq<set<Tile>>

    constructor (precision: int := 1, threshold: int := 1, minSize: int := 1)
      ensures this.precision == precision && this.threshold == threshold && this.minSize == minSize
      ensures labels == [] && clusters == []
    {
      this.precision := precision;
      this.threshold := threshold;
      this.minSize := minSize;
      labels := [];
      clusters := [];
    }

    /**
     * `fit`: clusters the dense tiles of `X` and gives every point the label of its
     * tile. A point is an outlier (-1) exactly when its tile is not dense or lies in a
     * component too small to be kept.
     */
    method Fit(X: seq<Point>)
      modifies this
      ensures precision == old(precision) && threshold == old(threshold) && minSize == old(minSize)
      ensures IsClustering(Dense(X, Scalar(precision), threshold), minSize, clusters)
      ensures |labels| == |X|
      ensures forall i :: 0 <= i < |X| ==> labels[i] == LabelOf(clusters, Quantize(X[i], Scalar(precision)))
      ensures forall i :: 0 <= i < |X| ==>
                (labels[i] == -1 <==> var t := Quantize(X[i], Scalar(precision));
                   t !in Dense(X, Scalar(precision), threshold) || InSmall(Dense(X, Scalar(precision), threshold), minSize, t))
    {
      var tiles, scalar := SkClustering.MapToTiles(X, precision, threshold);
      var squares := new TileSet(tiles);
      var found := SkClustering.ClusteringTiles(squares, minSize);
      var tileToLabel := TileToLabel(found);
      labels := AssignLabels(X, scalar, found, tileToLabel);
      clusters := found;
      OutlierLabels(tiles, minSize, found, X, scalar, labels);
    }
  }
}
