/**
 * Cluster labels in the scikit-learn style: the tiles of the i-th cluster get label i,
 * every other tile the outlier label -1.
 */
module Labels {
  import opened Grid
  import opened Components

  /**
   * The label a tile receives when every cluster in turn writes its index over the
   * labels of its tiles: the last cluster holding the tile, or -1 for none.
   */
  function LabelOf(cs: seq<set<Tile>>, t: Tile): (l: int)
    ensures -1 <= l < |cs|
    ensures l >= 0 ==> t in cs[l]
    ensures l >= 0 ==> forall j :: l < j < |cs| ==> t !in cs[j]
    ensures l == -1 <==> forall i :: 0 <= i < |cs| ==> t !in cs[i]
  {
    if cs == [] then -1
    else if t in cs[|cs| - 1] then |cs| - 1
    else LabelOf(cs[..|cs| - 1], t)
  }

  lemma LabelOfSnoc(cs: seq<set<Tile>>, c: set<Tile>, t: Tile)
    ensures LabelOf(cs + [c], t) == if t in c then |cs| else LabelOf(cs, t)
  {
    assert (cs + [c])[..|cs|] == cs;
  }

  /** With disjoint clusters, every tile of the i-th cluster is labelled i. */
  lemma LabelOfDisjoint(cs: seq<set<Tile>>, i: int, t: Tile)
    requires Disjoint(cs)
    requires 0 <= i < |cs| && t in cs[i]
    ensures LabelOf(cs, t) == i
  {
  }

  /**
   * For the clusters of a tile set, the outliers are exactly the tiles outside the set
   * and those in a component too small to be kept.
   */
  lemma OutlierLabel(s: set<Tile>, m: int, cs: seq<set<Tile>>, t: Tile)
    requires IsClustering(s, m, cs)
    ensures LabelOf(cs, t) == -1 <==> t !in s || InSmall(s, m, t)
  {
    var l := LabelOf(cs, t);
    if l >= 0 && InSmall(s, m, t) {
      var d :| t in d && IsComponent(d, s) && |d| < m;
      assert t in d * cs[l];
      ComponentsMeet(d, cs[l], s);
      assert false;
    }
  }

  /** Labels looked up for every point: -1 marks exactly the outliers. */
  lemma OutlierLabels(s: set<Tile>, m: int, cs: seq<set<Tile>>, X: seq<Point>, scalar: real, labels: seq<int>)
    requires IsClustering(s, m, cs)
    requires |labels| == |X|
    requires forall i :: 0 <= i < |X| ==> labels[i] == LabelOf(cs, Quantize(X[i], scalar))
    ensures forall i :: 0 <= i < |X| ==>
              (labels[i] == -1 <==> var t := Quantize(X[i], scalar); t !in s || InSmall(s, m, t))
  {
    forall i | 0 <= i < |X|
      ensures labels[i] == -1 <==> var t := Quantize(X[i], scalar); t !in s || InSmall(s, m, t)
    {
      OutlierLabel(s, m, cs, Quantize(X[i], scalar));
    }
  }

  /** `dict.get(t, -1)` on a tile-to-label map. */
  function GetLabel(tileToLabel: map<Tile, int>, t: Tile): int
  {
    if t in tileToLabel then tileToLabel[t] else -1
  }

  /**
   * The loop that writes, for every cluster in turn, its index as the label of each of
   * its tiles.
   */
  method TileToLabel(clusters: seq<set<Tile>>) returns (tileToLabel: map<Tile, int>)
    ensures forall t :: GetLabel(tileToLabel, t) == LabelOf(clusters, t)
    ensures forall t :: t in tileToLabel ==> 0 <= tileToLabel[t] < |clusters|
  {
    tileToLabel := map[];
    for count := 0 to |clusters|
      invariant forall t :: GetLabel(tileToLabel, t) == LabelOf(clusters[..count], t)
      invariant forall t :: t in tileToLabel ==> 0 <= tileToLabel[t] < count
    {
      var cluster := clusters[count];
      var remaining := cluster;
      while remaining != {}
        invariant remaining <= cluster
        invariant forall t :: GetLabel(tileToLabel, t) == if t in cluster - remaining then count else LabelOf(clusters[..count], t)
        invariant forall t :: t in tileToLabel ==> 0 <= tileToLabel[t] <= count
        decreases |remaining|
      {
        var t :| t in remaining;
        tileToLabel := tileToLabel[t := count];
        remaining := remaining - {t};
      }
      forall t ensures LabelOf(clusters[..count + 1], t) == if t in cluster then count else LabelOf(clusters[..count], t) {
        assert clusters[..count + 1] == clusters[..count] + [cluster];
        LabelOfSnoc(clusters[..count], cluster, t);
      }
    }
    assert clusters[..|clusters|] == clusters;
  }
}
