/**
 * 2_benchmark_rust/src/raster/par/dual_clustering.rs: the two-way parallel RASTER. The
 * dense tiles are split at longitude zero into a left half (x < 0) and a right half
 * (x >= 0); each half is clustered on its own, setting aside the clusters at the border
 * column of its side, and those are then joined across the border. The two threads
 * become two calls in sequence.
 */
module RustDual {
  import opened Wrappers
  import opened Grid
  import opened Components
  import opened Pieces
  import opened Slices
  import opened Projection
  import RustLib
  import RustPar
  import ParProjections

  /** The side of the border a half lies on; its discriminant is its border column. */
  datatype Edge = Left | Right

  /** `y_edge as i32`: the column of the half next to the border. */
  function EdgeColumn(e: Edge): int
  {
    match e
    case Left => -1
    case Right => 0
  }

  // ---------------------------------------------------------------------------
  // Projection into two halves
  // ---------------------------------------------------------------------------

  /** Counts of one piece of input in front of another are the counts of both the other way. */
  lemma CountMapSwap(a: seq<Tile>, b: seq<Tile>)
    ensures CountMap(a + b) == CountMap(b + a)
  {
    CountMapAppend(a, b);
    CountMapAppend(b, a);
    AddCountsCommutative(CountMap(a), CountMap(b));
  }

  /** The counts of the last batch and of the batches before `j`. */
  ghost function LastAndFirst(bs: seq<seq<Point>>, j: int, scalar: real): map<Tile, nat>
    requires 0 <= j < |bs|
  {
    CountMap(TilesOf(bs[|bs| - 1], scalar) + TilesOf(RustPar.Concat(bs[..j]), scalar))
  }

  /** Adding one more batch after the last one and the batches before `j`. */
  lemma SumStep(bs: seq<seq<Point>>, j: int, scalar: real)
    requires 0 <= j < |bs| - 1
    ensures LastAndFirst(bs, j + 1, scalar) == AddCounts(LastAndFirst(bs, j, scalar), CountMap(TilesOf(bs[j], scalar)))
  {
    var last := TilesOf(bs[|bs| - 1], scalar);
    RustPar.ConcatSnoc(bs, j);
    TilesOfAppend(RustPar.Concat(bs[..j]), bs[j], scalar);
    assert last + TilesOf(RustPar.Concat(bs[..j + 1]), scalar)
           == (last + TilesOf(RustPar.Concat(bs[..j]), scalar)) + TilesOf(bs[j], scalar);
    CountMapAppend(last + TilesOf(RustPar.Concat(bs[..j]), scalar), TilesOf(bs[j], scalar));
  }

  lemma SumFirst(bs: seq<seq<Point>>, scalar: real)
    requires 1 <= |bs|
    ensures LastAndFirst(bs, 0, scalar) == CountMap(TilesOf(bs[|bs| - 1], scalar))
  {
    assert bs[..0] == [];
    assert TilesOf(bs[|bs| - 1], scalar) + TilesOf([], scalar) == TilesOf(bs[|bs| - 1], scalar);
  }

  /** The last batch counted first and all others after it: the counts of all batches. */
  lemma SumLast(bs: seq<seq<Point>>, scalar: real)
    requires 1 <= |bs|
    ensures LastAndFirst(bs, |bs| - 1, scalar) == CountMap(TilesOf(RustPar.Concat(bs), scalar))
  {
    var n := |bs|;
    RustPar.ConcatSnoc(bs, n - 1);
    TilesOfAppend(RustPar.Concat(bs[..n - 1]), bs[n - 1], scalar);
    CountMapSwap(TilesOf(bs[n - 1], scalar), TilesOf(RustPar.Concat(bs[..n - 1]), scalar));
    assert bs[..n] == bs;
  }

  /**
   * The receiving loop of `map_to_tile_slices`: the counter of the last worker first,
   * then those of the others in order added into it. The sum counts all batches.
   */
  method SumCounters(bs: seq<seq<Point>>, counters: seq<map<Tile, nat>>, scalar: real)
    returns (accumulateTiles: map<Tile, nat>)
    requires 1 <= |bs| == |counters|
    requires forall k :: 0 <= k < |bs| ==> counters[k] == CountMap(TilesOf(bs[k], scalar))
    ensures accumulateTiles == CountMap(TilesOf(RustPar.Concat(bs), scalar))
  {
    var n := |bs|;
    accumulateTiles := counters[n - 1];
    SumFirst(bs, scalar);
    for j := 0 to n - 1
      invariant accumulateTiles == LastAndFirst(bs, j, scalar)
    {
      SumStep(bs, j, scalar);
      accumulateTiles := ParProjections.MergeCounts(accumulateTiles, counters[j]);
    }
    SumLast(bs, scalar);
  }

  /**
   * `map_to_tile_slices`: the tile counts of every batch summed, the tiles with at least
   * `threshold` points kept and partitioned at column zero. The two halves are apart and
   * together the sequential projection; an input `batch_data` refuses, or an empty one,
   * makes the source panic.
   */
  method MapToTileSlices(points: seq<Point>, precision: int, threshold: nat, nrThreads: nat)
    returns (r: Result<(set<Tile>, set<Tile>, real)>)
    ensures r.Success? <==> 1 <= nrThreads <= |points|
    ensures r.Success? ==> r.value.2 == Scalar(precision)
    ensures r.Success? ==> r.value.0 + r.value.1 == Dense(points, Scalar(precision), threshold)
    ensures r.Success? ==> (forall t :: t in r.value.0 ==> t.0 < 0) && (forall t :: t in r.value.1 ==> t.0 >= 0)
  {
    var scalar := Scalar(precision);
    var batches := RustPar.BatchData(points, nrThreads);
    if batches.Failure? {
      return Failure(batches.error);
    }
    var bs := batches.value;
    var counters := RustPar.CountBatches(bs, scalar);
    var accumulateTiles := SumCounters(bs, counters, scalar);
    var dense := Significant(accumulateTiles, threshold);
    SignificantCounts(points, scalar, threshold);
    var tilesLeft := set t | t in dense && t.0 < 0;
    var tilesRight := set t | t in dense && !(t.0 < 0);
    return Success((tilesLeft, tilesRight, scalar));
  }

  // ---------------------------------------------------------------------------
  // Clustering one half
  // ---------------------------------------------------------------------------

  /**
   * A correct clustering of the half `s` with border column `e`: every component of `s`
   * that has a tile in column `e` is in `edges`; every other one is in `clusters` when it
   * has at least `m` tiles and dropped otherwise; no tile is in two of them.
   */
  ghost predicate EdgeSplit(s: set<Tile>, m: int, e: int, clusters: seq<set<Tile>>, edges: seq<set<Tile>>)
  {
    SliceSplit(s, m, e, e, Split(clusters, [], edges, []))
  }

  /** For the left half, the border is the right edge of a slice whose left edge is empty. */
  lemma EdgeSplitLeft(s: set<Tile>, m: int, lo: int, e: int, clusters: seq<set<Tile>>, edges: seq<set<Tile>>)
    requires EdgeSplit(s, m, e, clusters, edges)
    requires forall t :: t in s ==> t.0 != lo
    ensures SliceSplit(s, m, lo, e, Split(clusters, [], [], edges))
  {
    assert All(Split(clusters, [], [], edges)) == All(Split(clusters, [], edges, []));
    forall p | p in All(Split(clusters, [], edges, [])) ensures !Touches(p, lo) {
      assert p <= s;
    }
    forall t | t in s && SmallInner(s, m, e, e, t) ensures SmallInner(s, m, lo, e, t) {
      var d :| t in d && IsComponent(d, s) && |d| < m && !Touches(d, e);
    }
  }

  /** For the right half, the border is the left edge of a slice whose right edge is empty. */
  lemma EdgeSplitRight(s: set<Tile>, m: int, e: int, hi: int, clusters: seq<set<Tile>>, edges: seq<set<Tile>>)
    requires EdgeSplit(s, m, e, clusters, edges)
    requires forall t :: t in s ==> t.0 != hi
    ensures SliceSplit(s, m, e, hi, Split(clusters, edges, [], []))
  {
    assert All(Split(clusters, edges, [], [])) == All(Split(clusters, [], edges, []));
    forall p | p in All(Split(clusters, [], edges, [])) ensures !Touches(p, hi) {
      assert p <= s;
    }
    forall t | t in s && SmallInner(s, m, e, e, t) ensures SmallInner(s, m, e, hi, t) {
      var d :| t in d && IsComponent(d, s) && |d| < m && !Touches(d, e);
    }
  }

  /**
   * One round of the inner loop of `cluster_slice`: pops the last tile off the stack,
   * adds it to the cluster, notes whether it lies in the border column, and pushes its
   * neighbours still to visit.
   */
  method FillPop(ghost w0: set<Tile>, ghost x: Tile, cluster: set<Tile>, toCheck: seq<Tile>, rest: set<Tile>,
                 edge: int, isEdgeCluster: bool)
    returns (cluster': set<Tile>, toCheck': seq<Tile>, rest': set<Tile>, isEdge': bool)
    requires FillInv(w0, x, cluster, Elems(toCheck), rest) && Distinct(toCheck) && toCheck != []
    requires isEdgeCluster == Touches(cluster, edge)
    ensures FillInv(w0, x, cluster', Elems(toCheck'), rest') && Distinct(toCheck')
    ensures isEdge' == Touches(cluster', edge)
    ensures |rest'| + |toCheck'| < |rest| + |toCheck|
  {
    var p := toCheck[|toCheck| - 1];
    isEdge' := isEdgeCluster || p.0 == edge;
    TouchesPlus(cluster, p, edge);
    cluster' := cluster + {p};
    var newNeighbors;
    newNeighbors, rest' := RustLib.PopNeighbors(p, rest);
    FillAdvance(w0, x, cluster, toCheck, rest, newNeighbors);
    toCheck' := toCheck[..|toCheck| - 1] + newNeighbors;
  }

  /**
   * The inner loop of `cluster_slice`: the whole component of `x` in `toVisit + {x}`,
   * what is left of `toVisit`, and whether the component has a tile in the border
   * column `edge`.
   */
  method FillCluster(x: Tile, toVisit: set<Tile>, edge: int)
    returns (cluster: set<Tile>, rest: set<Tile>, isEdgeCluster: bool)
    requires x !in toVisit
    ensures FillInv(toVisit + {x}, x, cluster, {}, rest)
    ensures isEdgeCluster == Touches(cluster, edge)
  {
    ghost var w0 := toVisit + {x};
    assert toVisit == w0 - {x};
    isEdgeCluster := false;
    isEdgeCluster := isEdgeCluster || x.0 == edge;
    TouchesOne(x, edge);
    cluster := {x};
    var toCheck;
    toCheck, rest := RustLib.PopNeighbors(x, toVisit);
    FillBegin(w0, x, toCheck);
    while toCheck != []
      invariant FillInv(w0, x, cluster, Elems(toCheck), rest)
      invariant Distinct(toCheck)
      invariant isEdgeCluster == Touches(cluster, edge)
      decreases |rest| + |toCheck|
    {
      cluster, toCheck, rest, isEdgeCluster := FillPop(w0, x, cluster, toCheck, rest, edge, isEdgeCluster);
    }
    assert Elems(toCheck) == {};
  }

  /**
   * `cluster_slice`: the components of `tiles`, found by the destructive flood fill, with
   * those that have a tile in the border column of `yEdge` set aside whatever their size.
   */
  method ClusterSlice(tiles: set<Tile>, minClusterSize: nat, yEdge: Edge)
    returns (clusters: seq<set<Tile>>, edgeClusters: seq<set<Tile>>)
    ensures EdgeSplit(tiles, minClusterSize, EdgeColumn(yEdge), clusters, edgeClusters)
  {
    var m, edge := minClusterSize, EdgeColumn(yEdge);
    var toVisit := tiles;
    clusters, edgeClusters := [], [];
    SliceStart(tiles, m, edge, edge);
    while toVisit != {}
      invariant SliceInv(tiles, m, edge, edge, toVisit, Split(clusters, [], edgeClusters, []))
      decreases |toVisit|
    {
      ghost var w0 := toVisit;
      var x :| x in toVisit;
      toVisit := toVisit - {x};
      assert toVisit + {x} == w0;
      var cluster, isEdgeCluster;
      cluster, toVisit, isEdgeCluster := FillCluster(x, toVisit, edge);
      SliceStep(tiles, m, edge, edge, w0, Split(clusters, [], edgeClusters, []), x, cluster, toVisit);
      if isEdgeCluster {
        edgeClusters := edgeClusters + [cluster];
      } else if |cluster| >= m {
        clusters := clusters + [cluster];
      }
    }
    SliceDone(tiles, m, edge, edge, Split(clusters, [], edgeClusters, []));
  }

  // ---------------------------------------------------------------------------
  // Joining across the border
  // ---------------------------------------------------------------------------

  /**
   * The search stack with the marks of the general join: there `true` marks a piece whose
   * search goes to the other side from the left, here it marks a piece whose search goes
   * right, which is a left piece; the marks are opposite because the searches here start
   * from the left pieces.
   */
  function Flip(tv: seq<(bool, set<Tile>)>): (r: seq<(bool, set<Tile>)>)
    ensures |r| == |tv|
    ensures forall i :: 0 <= i < |tv| ==> r[i] == (!tv[i].0, tv[i].1)
  {
    seq(|tv|, i requires 0 <= i < |tv| => (!tv[i].0, tv[i].1))
  }

  lemma FlipPush(tv: seq<(bool, set<Tile>)>, ps: seq<set<Tile>>, goRight: bool)
    requires tv != []
    ensures Flip(tv[..|tv| - 1] + Tag(ps, goRight)) == Flip(tv)[..|tv| - 1] + Tag(ps, !goRight)
  {
  }

  /**
   * `for n in neighbors { to_visit.push((go_right, n.clone())); cluster.extend(n); }`:
   * every neighbour stacked with its mark and taken into the cluster.
   */
  method PushExtend(toVisit: seq<(bool, set<Tile>)>, cluster: set<Tile>, neighbors: seq<set<Tile>>, goRight: bool)
    returns (toVisit': seq<(bool, set<Tile>)>, cluster': set<Tile>)
    ensures toVisit' == toVisit + Tag(neighbors, goRight)
    ensures cluster' == cluster + Union(neighbors)
  {
    toVisit', cluster' := toVisit, cluster;
    for i := 0 to |neighbors|
      invariant toVisit' == toVisit + Tag(neighbors[..i], goRight)
      invariant cluster' == cluster + Union(neighbors[..i])
    {
      var n := neighbors[i];
      assert neighbors[..i + 1] == neighbors[..i] + [n];
      UnionAppend(neighbors[..i], [n]);
      UnionSingle(n);
      toVisit' := toVisit' + [(goRight, n)];
      cluster' := cluster' + n;
    }
    assert neighbors[..|neighbors|] == neighbors;
  }

  /** Both ways of a search step keep the cluster the visited and the stacked pieces. */
  lemma ReachedStep(tv: seq<(bool, set<Tile>)>, cluster: set<Tile>, visited: set<Tile>,
                    neighbors: seq<set<Tile>>, goRight: bool)
    requires tv != [] && cluster == visited + Union(Visits(tv))
    ensures cluster + Union(neighbors)
            == (visited + tv[|tv| - 1].1) + Union(Visits(tv[..|tv| - 1] + Tag(neighbors, goRight)))
  {
    VisitsPop(tv);
    VisitsTag(tv[..|tv| - 1], neighbors, goRight);
  }

  /** A search step from a left piece: the right pieces it touches are stacked. */
  lemma DualGoRight(o: Sides, m: int, ys: seq<set<Tile>>, xs: seq<set<Tile>>, cs: seq<set<Tile>>,
                    visited: set<Tile>, tv: seq<(bool, set<Tile>)>)
    requires JoinReady(o) && BfsInv(o, m, ys, [], xs, cs, [], visited, Flip(tv), false)
    requires tv != [] && tv[|tv| - 1].0
    ensures var x := tv[|tv| - 1].1;
            BfsInv(o, m, Apart(ys, x), [], xs, cs, [], visited + x,
                   Flip(tv[..|tv| - 1] + Tag(Meeting(ys, x), false)), false)
  {
    var x := tv[|tv| - 1].1;
    var none: seq<set<Tile>> := [];
    assert Meeting(none, x) == [] && Apart(none, x) == [];
    assert Tag(none, true) == [];
    BfsGoLeft(o, m, ys, none, xs, cs, none, visited, Flip(tv), false);
    FlipPush(tv, Meeting(ys, x), false);
    assert Flip(tv)[..|tv| - 1] + Tag(Meeting(ys, x), true) + Tag(Meeting(none, x), true)
           == Flip(tv[..|tv| - 1] + Tag(Meeting(ys, x), false));
  }

  /** A search step from a right piece: the left pieces it touches are stacked. */
  lemma DualGoLeft(o: Sides, m: int, ys: seq<set<Tile>>, xs: seq<set<Tile>>, cs: seq<set<Tile>>,
                   visited: set<Tile>, tv: seq<(bool, set<Tile>)>)
    requires JoinReady(o) && BfsInv(o, m, ys, [], xs, cs, [], visited, Flip(tv), false)
    requires tv != [] && !tv[|tv| - 1].0
    ensures var x := tv[|tv| - 1].1;
            BfsInv(o, m, ys, [], Apart(xs, x), cs, [], visited + x,
                   Flip(tv[..|tv| - 1] + Tag(Meeting(xs, x), true)), false)
  {
    var x := tv[|tv| - 1].1;
    BfsGoRight(o, m, ys, [], xs, cs, [], visited, Flip(tv), false);
    FlipPush(tv, Meeting(xs, x), true);
  }

  /**
   * The inner loop of `join_clusters`: the search from the left piece `start` through the
   * pieces that touch, taking each piece it reaches out of its list. `o` is the border
   * with the right pieces as its left side (`Sides(ys, xs, [])`), which is how the general
   * join sees a search from the left.
   */
  method Search(ghost o: Sides, ghost m: int, ghost ready: bool, ghost cs: seq<set<Tile>>,
                start: set<Tile>, xs: seq<set<Tile>>, ys: seq<set<Tile>>)
    returns (cluster: set<Tile>, xs': seq<set<Tile>>, ys': seq<set<Tile>>)
    requires ready ==> JoinReady(o) && BfsInv(o, m, ys, [], xs, cs, [], {}, [(false, start)], false)
    ensures ready ==> BfsInv(o, m, ys', [], xs', cs, [], cluster, [], false)
    ensures |xs'| <= |xs|
  {
    xs', ys' := xs, ys;
    var toVisit := [(true, start)];
    cluster := start;
    ghost var visited: set<Tile> := {};
    assert Flip(toVisit) == [(false, start)];
    UnionSingle(start);
    assert Visits(toVisit) == [start];
    while toVisit != []
      invariant ready ==> BfsInv(o, m, ys', [], xs', cs, [], visited, Flip(toVisit), false)
      invariant cluster == visited + Union(Visits(toVisit))
      invariant |xs'| <= |xs|
      decreases |xs'| + |ys'| + |toVisit|
    {
      ghost var tv := toVisit;
      var (goRight, x) := toVisit[|toVisit| - 1];
      if goRight {
        if ready {
          DualGoRight(o, m, ys', xs', cs, visited, tv);
        }
        SplitCovers(ys', x);
        toVisit := toVisit[..|toVisit| - 1];
        var neighbors, leftovers := RustPar.Partition(ys', x);
        ReachedStep(tv, cluster, visited, neighbors, false);
        ys' := leftovers;
        toVisit, cluster := PushExtend(toVisit, cluster, neighbors, false);
      } else {
        if ready {
          DualGoLeft(o, m, ys', xs', cs, visited, tv);
        }
        SplitCovers(xs', x);
        toVisit := toVisit[..|toVisit| - 1];
        var neighbors, leftovers := RustPar.Partition(xs', x);
        ReachedStep(tv, cluster, visited, neighbors, true);
        xs' := leftovers;
        toVisit, cluster := PushExtend(toVisit, cluster, neighbors, true);
      }
      visited := visited + x;
    }
    assert Union(Visits([])) == {};
  }

  /** The two sides of a border without `both` pieces can change places. */
  lemma SwapSides(a: seq<set<Tile>>, b: seq<set<Tile>>, m: int, cs: seq<set<Tile>>)
    ensures Whole(Sides(a, b, [])) == Whole(Sides(b, a, []))
    ensures JoinReady(Sides(a, b, [])) <==> JoinReady(Sides(b, a, []))
    ensures IsJoin(Sides(a, b, []), m, cs, []) <==> IsJoin(Sides(b, a, []), m, cs, [])
  {
    assert a + [] + b == a + b && b + [] + a == b + a;
    assert a + [] == a && b + [] == b;
    UnionAppend(a, b);
    UnionAppend(b, a);
    if Disjoint(a + b) {
      DisjointParts(a, b);
      DisjointAppend(b, a);
    }
    if Disjoint(b + a) {
      DisjointParts(b, a);
      DisjointAppend(a, b);
    }
    forall p ensures p in a + b <==> p in b + a {
    }
  }

  /**
   * One round of the outer loop of `join_clusters`: the last left piece popped, its
   * search run, and the cluster found kept when it is large enough.
   */
  method SearchRound(ghost o: Sides, ghost ready: bool, m: nat, clusters: seq<set<Tile>>,
                     xs: seq<set<Tile>>, ys: seq<set<Tile>>)
    returns (clusters': seq<set<Tile>>, xs': seq<set<Tile>>, ys': seq<set<Tile>>)
    requires xs != []
    requires ready ==> JoinReady(o) && JoinInv(o, m, ys, [], xs, clusters, [])
    requires forall c :: c in clusters ==> |c| >= m
    ensures ready ==> JoinInv(o, m, ys', [], xs', clusters', [])
    ensures forall c :: c in clusters' ==> |c| >= m
    ensures |xs'| < |xs|
  {
    if ready {
      BfsStart(o, m, ys, [], xs, clusters, []);
    }
    var start := xs[|xs| - 1];
    var cluster;
    cluster, xs', ys' := Search(o, m, ready, clusters, start, xs[..|xs| - 1], ys);
    if ready {
      BfsEnd(o, m, ys', [], xs', clusters, [], cluster, false);
    }
    clusters' := clusters;
    if |cluster| >= m {
      clusters' := clusters + [cluster];
    }
  }

  /** The loop `for c in ys { if c.len() >= min_cluster_size { clusters.push(c) } }`. */
  method KeepLarge(clusters: seq<set<Tile>>, ys: seq<set<Tile>>, m: nat) returns (r: seq<set<Tile>>)
    ensures r == clusters + Large(ys, m)
  {
    r := clusters;
    for i := 0 to |ys|
      invariant r == clusters + Large(ys[..i], m)
    {
      assert ys[..i + 1][..i] == ys[..i];
      if |ys[i]| >= m {
        r := r + [ys[i]];
      }
    }
    assert ys[..|ys|] == ys;
  }

  /**
   * `join_clusters`: every left piece starts a search that alternates between the sides;
   * a search's cluster is kept when it has at least `minClusterSize` tiles, as is every
   * right piece no search reached. For pieces as clustering of the two halves leaves them,
   * the result is a correct join of the border.
   */
  method JoinClusters(leftClusters: seq<set<Tile>>, rightClusters: seq<set<Tile>>, minClusterSize: nat)
    returns (clusters: seq<set<Tile>>)
    ensures forall c :: c in clusters ==> |c| >= minClusterSize
    ensures JoinReady(Sides(leftClusters, rightClusters, [])) ==>
              IsJoin(Sides(leftClusters, rightClusters, []), minClusterSize, clusters, [])
  {
    ghost var o := Sides(rightClusters, leftClusters, []);
    SwapSides(leftClusters, rightClusters, minClusterSize, []);
    ghost var ready := JoinReady(o);
    var m := minClusterSize;
    clusters := [];
    var xs, ys := leftClusters, rightClusters;
    ghost var none: seq<set<Tile>> := [];
    if ready {
      JoinStart(o, m);
    }
    while xs != []
      invariant ready ==> JoinInv(o, m, ys, [], xs, clusters, [])
      invariant forall c :: c in clusters ==> |c| >= m
      decreases |xs|
    {
      clusters, xs, ys := SearchRound(o, ready, m, clusters, xs, ys);
    }
    ghost var found := clusters;
    clusters := KeepLarge(clusters, ys, m);
    if ready {
      JoinDone(o, m, ys, [], found, []);
      assert none + [] == none;
      SwapSides(leftClusters, rightClusters, m, clusters);
    }
  }

  // ---------------------------------------------------------------------------
  // The whole clustering
  // ---------------------------------------------------------------------------

  /** A column left of every tile of `s` and of column zero. */
  lemma {:induction false} FarLeft(s: set<Tile>) returns (lo: int)
    ensures lo <= -1 && forall t :: t in s ==> lo < t.0
    decreases |s|
  {
    if s == {} {
      lo := -1;
    } else {
      var t :| t in s;
      var lo' := FarLeft(s - {t});
      lo := if t.0 - 1 < lo' then t.0 - 1 else lo';
    }
  }

  /** A column right of every tile of `s` and of column zero. */
  lemma {:induction false} FarRight(s: set<Tile>) returns (hi: int)
    ensures hi >= 0 && forall t :: t in s ==> t.0 < hi
    decreases |s|
  {
    if s == {} {
      hi := 0;
    } else {
      var t :| t in s;
      var hi' := FarRight(s - {t});
      hi := if t.0 + 1 > hi' then t.0 + 1 else hi';
    }
  }

  /** A clustering stays one when two groups of its clusters change places. */
  lemma ClusteringSwap(s: set<Tile>, m: int, a: seq<set<Tile>>, b: seq<set<Tile>>, c: seq<set<Tile>>)
    requires IsClustering(s, m, a + b + c)
    ensures IsClustering(s, m, a + c + b)
  {
    DisjointParts(a + b, c);
    DisjointParts(a, b);
    UnionAppend(a, b);
    UnionAppend(a, c);
    UnionAppend(a + c, b);
    UnionAppend(a + b, c);
    DisjointAppend(a, c);
    DisjointAppend(a + c, b);
    UnionInSome(a + b + c);
    UnionInSome(a + c + b);
    var x, y := a + b + c, a + c + b;
    forall i | 0 <= i < |y| ensures IsComponent(y[i], s) && |y[i]| >= m {
      assert y[i] in x;
    }
  }

  /** Two slices with nothing at their outer edges, and a correct join at their border. */
  lemma OneBorder(sl: seq<Slice>, sps: seq<Split>, m: int, mid: seq<set<Tile>>)
    requires ValidSlices(sl) && SplitsOf(sl, sps, m) && |sl| == 2
    requires sps[0].left == [] && sps[1].both == [] && sps[1].right == []
    requires JoinReady(Sides(sps[0].right, sps[1].left, sps[0].both)) ==>
               IsJoin(Sides(sps[0].right, sps[1].left, sps[0].both), m, mid, [])
    ensures IsClustering(Tiles(sl, 0), m, Inner(sps) + mid)
  {
    var none: seq<set<Tile>> := [];
    StageStart(sl, sps, m);
    assert sps[1].left + none == sps[1].left;
    StageReady(sl, sps, m, 1, none, none);
    StageStep(sl, sps, m, 1, none, none, mid, none);
    assert none + mid == mid;
    StageDone(sl, sps, m, none, mid);
    assert Large(none, m) == [];
    assert Inner(sps) + mid + [] == Inner(sps) + mid;
  }

  /**
   * The two halves are two slices side by side, at columns up to -1 and from 0; their
   * clusterings and a correct join of their border clusters make a clustering of all
   * tiles: the staged join over slices, with one border.
   */
  lemma HalvesClustered(left: set<Tile>, right: set<Tile>, m: int,
                        lc: seq<set<Tile>>, lj: seq<set<Tile>>, rc: seq<set<Tile>>, rj: seq<set<Tile>>,
                        mid: seq<set<Tile>>)
    requires (forall t :: t in left ==> t.0 < 0) && (forall t :: t in right ==> t.0 >= 0)
    requires EdgeSplit(left, m, -1, lc, lj) && EdgeSplit(right, m, 0, rc, rj)
    requires JoinReady(Sides(lj, rj, [])) ==> IsJoin(Sides(lj, rj, []), m, mid, [])
    ensures IsClustering(left + right, m, lc + mid + rc)
  {
    var lo := FarLeft(left);
    var hi := FarRight(right);
    EdgeSplitLeft(left, m, lo, -1, lc, lj);
    EdgeSplitRight(right, m, 0, hi, rc, rj);
    var sl := [Slice(lo, left, -1), Slice(0, right, hi)];
    var sps := [Split(lc, [], [], lj), Split(rc, rj, [], [])];
    assert ValidSlices(sl);
    assert SplitsOf(sl, sps, m);
    assert rj + [] == rj;
    OneBorder(sl, sps, m, mid);
    assert Tiles(sl, 2) == {};
    assert Tiles(sl, 0) == left + right;
    assert sps[..1] == [sps[0]] && sps[..1][..0] == [];
    assert Inner(sps[..1]) == lc;
    assert Inner(sps) == lc + rc;
    ClusteringSwap(left + right, m, lc, rc, mid);
  }

  /**
   * `cluster_tiles`: both halves clustered, their border clusters joined, and the left
   * clusters, the joined ones and the right clusters returned in that order. For halves
   * on their own sides of column zero this is a clustering of all their tiles, and so
   * the sequential result.
   */
  method ClusterTiles(leftTiles: set<Tile>, rightTiles: set<Tile>, minClusterSize: nat)
    returns (clusters: seq<set<Tile>>)
    ensures (forall t :: t in leftTiles ==> t.0 < 0) && (forall t :: t in rightTiles ==> t.0 >= 0) ==>
              IsClustering(leftTiles + rightTiles, minClusterSize, clusters)
  {
    var leftClusters, leftJoin := ClusterSlice(leftTiles, minClusterSize, Left);
    var rightClusters, rightJoin := ClusterSlice(rightTiles, minClusterSize, Right);
    var midClusters := JoinClusters(leftJoin, rightJoin, minClusterSize);
    if (forall t :: t in leftTiles ==> t.0 < 0) && (forall t :: t in rightTiles ==> t.0 >= 0) {
      HalvesClustered(leftTiles, rightTiles, minClusterSize, leftClusters, leftJoin, rightClusters, rightJoin, midClusters);
    }
    clusters := leftClusters;
    clusters := clusters + midClusters;
    clusters := clusters + rightClusters;
  }

  /**
   * The test `test_total_duo_raster`: the two-way projection and clustering. It fails only
   * where `batch_data` does, and otherwise returns a clustering of the dense tiles, which
   * is what sequential `cluster_tiles` returns up to order.
   */
  method DualRaster(points: seq<Point>, precision: int, threshold: nat, nrCores: nat, minClusterSize: nat)
    returns (r: Result<seq<set<Tile>>>)
    ensures r.Success? <==> 1 <= nrCores <= |points|
    ensures r.Success? ==> IsClustering(Dense(points, Scalar(precision), threshold), minClusterSize, r.value)
  {
    var projected := MapToTileSlices(points, precision, threshold, nrCores);
    if projected.Failure? {
      return Failure(projected.error);
    }
    var (leftTiles, rightTiles, _) := projected.value;
    var clusters := ClusterTiles(leftTiles, rightTiles, minClusterSize);
    return Success(clusters);
  }

  // ---------------------------------------------------------------------------
  // The pieces of the unit test `zip_the_clusters`
  // ---------------------------------------------------------------------------

  /** The left pieces: all in column -1. */
  function ZipLeft(): seq<set<Tile>>
  {
    [{(-1, 4), (-1, 3)}, {(-1, -1)}, {(-1, -3)}, {(-1, -5)}]
  }

  /** The right pieces, starting in column 0. */
  function ZipRight(): seq<set<Tile>>
  {
    [{(0, 5), (0, 4)}, {(0, 1), (1, 1), (1, 0), (1, -1)}, {(0, -3), (0, -4), (0, -5)}]
  }

  /** The components of all fourteen tiles with at least four tiles. */
  function ZipClusters(): seq<set<Tile>>
  {
    [{(-1, 4), (-1, 3), (0, 5), (0, 4)},
     {(0, 1), (1, 1), (1, 0), (1, -1)},
     {(-1, -3), (0, -3), (0, -4), (0, -5), (-1, -5)}]
  }

  lemma UnionThree(a: set<Tile>, b: set<Tile>, c: set<Tile>)
    ensures Union([a, b, c]) == a + b + c
  {
    UnionAppend([a], [b, c]);
    UnionAppend([b], [c]);
    UnionSingle(a);
    UnionSingle(b);
    UnionSingle(c);
    assert [a] + [b, c] == [a, b, c] && [b] + [c] == [b, c];
  }

  lemma UnionFour(a: set<Tile>, b: set<Tile>, c: set<Tile>, d: set<Tile>)
    ensures Union([a, b, c, d]) == a + b + c + d
  {
    UnionAppend([a], [b, c, d]);
    UnionSingle(a);
    UnionThree(b, c, d);
    assert [a] + [b, c, d] == [a, b, c, d];
  }

  /** All tiles of the example. */
  lemma ZipWhole()
    ensures Whole(Sides(ZipLeft(), ZipRight(), [])) == Union(ZipClusters()) + {(-1, -1)}
  {
    var l, r := ZipLeft(), ZipRight();
    assert l + [] + r == l + r;
    UnionAppend(l, r);
    UnionFour(l[0], l[1], l[2], l[3]);
    UnionThree(r[0], r[1], r[2]);
    var z := ZipClusters();
    UnionThree(z[0], z[1], z[2]);
  }

  /** The pieces are connected; so are the three clusters, glued across the border. */
  lemma ZipConnected()
    ensures forall p :: p in ZipLeft() + ZipRight() ==> Connected(p)
    ensures forall c :: c in ZipClusters() ==> Connected(c)
  {
    SingletonConnected((-1, 4));
    SingletonConnected((-1, 3));
    SingletonConnected((-1, -1));
    SingletonConnected((-1, -3));
    SingletonConnected((-1, -5));
    SingletonConnected((0, 5));
    SingletonConnected((0, 4));
    SingletonConnected((0, 1));
    SingletonConnected((1, 1));
    SingletonConnected((1, 0));
    SingletonConnected((1, -1));
    SingletonConnected((0, -3));
    SingletonConnected((0, -4));
    SingletonConnected((0, -5));
    var a0, a1 := {(-1, 4)} + {(-1, 3)}, {(0, 5)} + {(0, 4)};
    Glue({(-1, 4)}, {(-1, 3)}, (-1, 4), (-1, 3));
    Glue({(0, 5)}, {(0, 4)}, (0, 5), (0, 4));
    Glue(a0, a1, (-1, 4), (0, 4));
    var b0 := {(0, 1)} + {(1, 1)};
    Glue({(0, 1)}, {(1, 1)}, (0, 1), (1, 1));
    Glue(b0, {(1, 0)}, (1, 1), (1, 0));
    Glue(b0 + {(1, 0)}, {(1, -1)}, (1, 0), (1, -1));
    var c0 := {(0, -3)} + {(0, -4)};
    Glue({(0, -3)}, {(0, -4)}, (0, -3), (0, -4));
    Glue(c0, {(0, -5)}, (0, -4), (0, -5));
    Glue({(-1, -3)}, c0 + {(0, -5)}, (-1, -3), (0, -3));
    Glue({(-1, -3)} + (c0 + {(0, -5)}), {(-1, -5)}, (0, -5), (-1, -5));
    assert {(-1, 4), (-1, 3)} == a0 && {(0, 5), (0, 4)} == a1;
    assert {(-1, 4), (-1, 3), (0, 5), (0, 4)} == a0 + a1;
    assert {(0, 1), (1, 1), (1, 0), (1, -1)} == b0 + {(1, 0)} + {(1, -1)};
    assert {(0, -3), (0, -4), (0, -5)} == c0 + {(0, -5)};
    assert {(-1, -3), (0, -3), (0, -4), (0, -5), (-1, -5)} == {(-1, -3)} + (c0 + {(0, -5)}) + {(-1, -5)};
  }

  /** Two sets of tiles two rows or more apart neither touch nor overlap. */
  lemma RowsApart(p: set<Tile>, q: set<Tile>, hi: int, lo: int)
    requires forall t :: t in p ==> t.1 <= hi
    requires forall t :: t in q ==> lo <= t.1
    requires hi + 2 <= lo
    ensures !Touching(p, q) && !Touching(q, p) && p !! q
  {
  }

  /** A connected set that touches nothing else of `s` is a component of `s`. */
  lemma ComponentApart(c: set<Tile>, rest: set<Tile>, s: set<Tile>)
    requires c != {} && Connected(c) && s == c + rest && !Touching(c, rest)
    ensures IsComponent(c, s)
  {
  }

  lemma ZipLeftApart()
    ensures SideApart(ZipLeft()) && Disjoint(ZipLeft())
  {
    var l := ZipLeft();
    RowsApart(l[1], l[0], -1, 3);
    RowsApart(l[2], l[0], -3, 3);
    RowsApart(l[3], l[0], -5, 3);
    RowsApart(l[2], l[1], -3, -1);
    RowsApart(l[3], l[1], -5, -1);
    RowsApart(l[3], l[2], -5, -3);
  }

  lemma ZipRightApart()
    ensures SideApart(ZipRight()) && Disjoint(ZipRight())
  {
    var r := ZipRight();
    RowsApart(r[1], r[0], 1, 4);
    RowsApart(r[2], r[0], -3, 4);
    RowsApart(r[2], r[1], -3, -1);
  }

  /** The left pieces lie in column -1, the right ones in columns 0 and 1. */
  lemma ZipAcross()
    ensures Union(ZipLeft()) !! Union(ZipRight())
  {
    var l, r := ZipLeft(), ZipRight();
    UnionFour(l[0], l[1], l[2], l[3]);
    UnionThree(r[0], r[1], r[2]);
    assert forall t :: t in Union(l) ==> t.0 == -1;
    assert forall t :: t in Union(r) ==> t.0 >= 0;
  }

  /** The pieces of the example meet what `JoinClusters` relies on. */
  lemma ZipReady()
    ensures JoinReady(Sides(ZipLeft(), ZipRight(), []))
  {
    var l, r := ZipLeft(), ZipRight();
    assert l + [] + r == l + r && l + [] == l;
    ZipConnected();
    ZipLeftApart();
    ZipRightApart();
    ZipAcross();
    DisjointAppend(l, r);
  }

  /** The three clusters and the lone tile (-1, -1) keep apart. */
  lemma ZipApart()
    ensures var z, lone := ZipClusters(), {(-1, -1)};
      && Disjoint(z)
      && !Touching(z[0], z[1] + z[2] + lone)
      && !Touching(z[1], z[0] + z[2] + lone)
      && !Touching(z[2], z[0] + z[1] + lone)
      && !Touching(lone, z[0] + z[1] + z[2])
  {
    var z, lone := ZipClusters(), {(-1, -1)};
    RowsApart(z[1], z[0], 1, 3);
    RowsApart(z[2], z[1], -3, -1);
    RowsApart(z[2], z[0], -3, 3);
    RowsApart(lone, z[0], -1, 3);
    RowsApart(z[2], lone, -3, -1);
    assert !Touching(z[1], lone) && !Touching(lone, z[1]);
  }

  /** Large disjoint components and one small component that make up `s` cluster it. */
  lemma ClusteringOfParts(s: set<Tile>, m: int, z: seq<set<Tile>>, lone: set<Tile>)
    requires s == Union(z) + lone
    requires forall i :: 0 <= i < |z| ==> IsComponent(z[i], s) && |z[i]| >= m
    requires Disjoint(z) && IsComponent(lone, s) && |lone| < m
    ensures IsClustering(s, m, z)
  {
    UnionInSome(z);
    forall t | t in s ensures InSome(z, t) || InSmall(s, m, t) {
      if t in lone {
        assert t in lone && IsComponent(lone, s) && |lone| < m;
      }
    }
  }

  lemma ZipDisjoint()
    ensures Disjoint(ZipClusters())
  {
    ZipApart();
  }

  lemma ZipSizes()
    ensures forall i :: 0 <= i < |ZipClusters()| ==> |ZipClusters()[i]| >= 4
    ensures |{(-1, -1)}| < 4
  {
    var z := ZipClusters();
    assert z[0] == {(-1, 4), (-1, 3)} + {(0, 5), (0, 4)};
    assert z[1] == {(0, 1), (1, 1)} + {(1, 0), (1, -1)};
    assert z[2] == {(-1, -3), (0, -3), (0, -4)} + {(0, -5), (-1, -5)};
    assert |z[0]| == 4 && |z[1]| == 4 && |z[2]| == 5;
  }

  lemma ZipComponents(s: set<Tile>)
    requires s == Union(ZipClusters()) + {(-1, -1)}
    ensures forall i :: 0 <= i < |ZipClusters()| ==> IsComponent(ZipClusters()[i], s)
    ensures IsComponent({(-1, -1)}, s)
  {
    var z, lone := ZipClusters(), {(-1, -1)};
    UnionThree(z[0], z[1], z[2]);
    ZipConnected();
    ZipApart();
    SingletonConnected((-1, -1));
    assert z[0] in z && z[1] in z && z[2] in z;
    ComponentApart(z[0], z[1] + z[2] + lone, s);
    ComponentApart(z[1], z[0] + z[2] + lone, s);
    ComponentApart(z[2], z[0] + z[1] + lone, s);
    ComponentApart(lone, z[0] + z[1] + z[2], s);
  }

  /** The three clusters, and the lone tile (-1, -1), are the components of the example. */
  lemma ZipClustering()
    ensures IsClustering(Union(ZipClusters()) + {(-1, -1)}, 4, ZipClusters())
  {
    var z, lone := ZipClusters(), {(-1, -1)};
    var s := Union(z) + lone;
    ZipSizes();
    ZipComponents(s);
    ZipDisjoint();
    ClusteringOfParts(s, 4, z, lone);
  }

  /** A join with no piece reaching a further border is a clustering of all its tiles. */
  lemma JoinIsClustering(o: Sides, m: int, cs: seq<set<Tile>>)
    requires o.both == [] && IsJoin(o, m, cs, [])
    ensures IsClustering(Whole(o), m, cs)
  {
    assert Union(o.both) == {};
    assert cs + [] == cs;
  }

  /**
   * `zip_the_clusters`: every correct join of the example pieces with a minimum cluster
   * size of four, and so the one `JoinClusters` returns, consists of the three clusters
   * of `ZipClusters` in some order.
   */
  lemma ZipTheClusters(cs: seq<set<Tile>>)
    requires IsJoin(Sides(ZipLeft(), ZipRight(), []), 4, cs, [])
    ensures multiset(cs) == multiset(ZipClusters())
    ensures |cs| == 3
  {
    var o := Sides(ZipLeft(), ZipRight(), []);
    JoinIsClustering(o, 4, cs);
    ZipWhole();
    ZipClustering();
    ClusteringUnique(Whole(o), 4, cs, ZipClusters());
    assert |multiset(cs)| == |multiset(ZipClusters())|;
  }
}
