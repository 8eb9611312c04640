/**
 * 2_benchmark_rust/src/raster/prime/par.rs: the concurrent RASTER', where every tile keeps
 * its points. The routines are those of the concurrent RASTER over tile maps; each is
 * proved correct by showing that the key sets follow the set-based routine's invariants
 * while every value stays the one its tile has in the input.
 */
module RustPrimePar {
  import opened Wrappers
  import opened Grid
  import opened Components
  import opened Pieces
  import opened Slices
  import opened Projection
  import RustPrime
  import RustPar
  import ParProjections

  type Entries = map<Tile, seq<Point>>

  // ---------------------------------------------------------------------------
  // Projection
  // ---------------------------------------------------------------------------

  /** The closure a worker runs on its batch: every point pushed onto its tile's list. */
  method CollectPoints(data: seq<Point>, scalar: real) returns (allPoints: Entries)
    ensures allPoints == PointMap(data, scalar)
  {
    allPoints := map[];
    for i := 0 to |data|
      invariant allPoints == PointMap(data[..i], scalar)
    {
      var pInt := Quantize(data[i], scalar);
      var collection := GetPoints(allPoints, pInt);
      allPoints := allPoints[pInt := collection + [data[i]]];
      PointPrefixStep(data, i, scalar);
    }
    assert data[..|data|] == data;
  }

  /** The workers of `map_to_tiles`: one point map per batch, in batch order. */
  method CollectBatches(bs: seq<seq<Point>>, scalar: real) returns (maps: seq<Entries>)
    ensures |maps| == |bs|
    ensures forall k :: 0 <= k < |bs| ==> maps[k] == PointMap(bs[k], scalar)
  {
    maps := [];
    for j := 0 to |bs|
      invariant |maps| == j
      invariant forall k :: 0 <= k < j ==> maps[k] == PointMap(bs[k], scalar)
    {
      var m := CollectPoints(bs[j], scalar);
      maps := maps + [m];
    }
  }

  /** Extending the lists with one more batch's gives the lists of the longer prefix. */
  lemma ExtendStep(bs: seq<seq<Point>>, j: int, scalar: real)
    requires 0 <= j < |bs|
    ensures PointMap(RustPar.Concat(bs[..j + 1]), scalar)
            == ExtendPoints(PointMap(RustPar.Concat(bs[..j]), scalar), PointMap(bs[j], scalar))
  {
    RustPar.ConcatSnoc(bs, j);
    PointMapAppend(RustPar.Concat(bs[..j]), bs[j], scalar);
  }

  lemma ExtendStart(bs: seq<seq<Point>>, scalar: real)
    requires 1 <= |bs|
    ensures PointMap(RustPar.Concat(bs[..1]), scalar) == PointMap(bs[0], scalar)
  {
    RustPar.ConcatSnoc(bs, 0);
    assert RustPar.Concat(bs[..1]) == bs[0];
  }

  /**
   * `reduce_with` of `map_to_tiles`: the first map, with every later map's lists
   * appended tile by tile. The result holds the points of all batches, in input order.
   */
  method ReduceMaps(bs: seq<seq<Point>>, maps: seq<Entries>, scalar: real) returns (acc: Entries)
    requires 1 <= |bs| == |maps|
    requires forall k :: 0 <= k < |bs| ==> maps[k] == PointMap(bs[k], scalar)
    ensures acc == PointMap(RustPar.Concat(bs), scalar)
  {
    acc := maps[0];
    ExtendStart(bs, scalar);
    for j := 1 to |bs|
      invariant acc == PointMap(RustPar.Concat(bs[..j]), scalar)
    {
      ExtendStep(bs, j, scalar);
      acc := ParProjections.MergePoints(acc, maps[j]);
    }
    assert bs[..|bs|] == bs;
  }

  /**
   * `map_to_tiles`: the batches of `batch_data` projected by workers of their own, the
   * maps reduced in batch order, and the lists with at least `threshold` points kept.
   * It fails exactly where `par_chunks` or `reduce_with` panic; otherwise it returns the
   * sequential RASTER' projection: the dense tiles, each with its points in input order.
   */
  method MapToTiles(points: seq<Point>, precision: int, threshold: nat, nrThreads: nat)
    returns (r: Result<(Entries, real)>)
    ensures r.Success? <==> 1 <= nrThreads <= |points|
    ensures r.Success? ==> r.value.1 == Scalar(precision)
    ensures r.Success? ==> r.value.0.Keys == Dense(points, Scalar(precision), threshold)
    ensures r.Success? ==> forall t :: t in r.value.0 ==> r.value.0[t] == PointsIn(points, Scalar(precision), t)
  {
    var scalar := Scalar(precision);
    var batches := RustPar.BatchData(points, nrThreads);
    if batches.Failure? {
      return Failure(batches.error);
    }
    var bs := batches.value;
    var maps := CollectBatches(bs, scalar);
    var accumulateTiles := ReduceMaps(bs, maps, scalar);
    LongListsDense(points, scalar, threshold);
    return Success((LongLists(accumulateTiles, threshold), scalar));
  }

  // ---------------------------------------------------------------------------
  // Vertical slicing
  // ---------------------------------------------------------------------------

  /** A slice of a tile map: the entries with columns from `lo` to `hi`. */
  datatype MapSlice = MapSlice(lo: int, tiles: Entries, hi: int)

  /** The slices with their key sets in place of their maps. */
  function KeySlices(sl: seq<MapSlice>): (r: seq<Slice>)
    ensures |r| == |sl|
    ensures forall i :: 0 <= i < |sl| ==> r[i] == Slice(sl[i].lo, sl[i].tiles.Keys, sl[i].hi)
  {
    seq(|sl|, i requires 0 <= i < |sl| => Slice(sl[i].lo, sl[i].tiles.Keys, sl[i].hi))
  }

  /** The entries of `s` whose tiles land in slice `i`. */
  ghost function MapBucket(s: Entries, splits: seq<int>, i: int): Entries
    requires |splits| >= 1
  {
    map t | t in s && RustPar.Lands(t.0, splits, i) :: s[t]
  }

  /** `r` holds the entries of `s` split at `splits`, each slice with the bounds of the source. */
  ghost predicate MapSliced(r: seq<MapSlice>, s: Entries, splits: seq<int>)
    requires |splits| >= 1
  {
    && |r| == |splits| + 1
    && (forall i :: 0 <= i < |r| ==> r[i].lo == RustPar.LoBound(splits, i) && r[i].hi == RustPar.HiBound(splits, i))
    && (forall i :: 0 <= i < |r| ==> r[i].tiles == MapBucket(s, splits, i))
  }

  /** The key sets of the map slices are the set slices of the keys. */
  lemma MapSlicedKeys(r: seq<MapSlice>, s: Entries, splits: seq<int>)
    requires |splits| >= 1 && MapSliced(r, s, splits)
    ensures RustPar.Sliced(KeySlices(r), s.Keys, splits)
    ensures forall i :: 0 <= i < |r| ==> SubMap(r[i].tiles, s)
  {
    var k := KeySlices(r);
    forall i | 0 <= i < |k| ensures k[i].tiles == RustPar.Bucket(s.Keys, splits, i) {
    }
  }

  /** Inserting one entry into the slice it lands in, as the inner loop does. */
  method PlaceEntry(tileSlices: seq<MapSlice>, k: Tile, v: seq<Point>, splits: seq<int>) returns (r: seq<MapSlice>)
    requires |splits| >= 1 && |tileSlices| == |splits| + 1
    ensures |r| == |tileSlices|
    ensures forall i :: 0 <= i < |r| ==>
              r[i] == tileSlices[i].(tiles := if RustPar.Lands(k.0, splits, i) then tileSlices[i].tiles[k := v]
                                              else tileSlices[i].tiles)
  {
    r := tileSlices;
    for i := 0 to |splits|
      invariant forall j :: 0 <= j < i ==> k.0 >= splits[j]
      invariant r == tileSlices
    {
      if k.0 < splits[i] {
        r := r[i := r[i].(tiles := r[i].tiles[k := v])];
        break;
      }
    }
    if k.0 >= splits[|splits| - 1] {
      r := r[|splits| := r[|splits|].(tiles := r[|splits|].tiles[k := v])];
    }
  }

  /** The entries of `s` at the tiles of `d`. */
  ghost function Restrict(s: Entries, d: set<Tile>): Entries
  {
    map t | t in d && t in s :: s[t]
  }

  /** Inserting an entry of `s` into where it lands keeps the slices those of the entries so far. */
  lemma MapBucketAdd(s: Entries, done: set<Tile>, x: Tile, splits: seq<int>, i: int)
    requires |splits| >= 1 && x in s && done <= s.Keys
    ensures var d, d' := Restrict(s, done), Restrict(s, done + {x});
            MapBucket(d', splits, i) == if RustPar.Lands(x.0, splits, i) then MapBucket(d, splits, i)[x := s[x]]
                                          else MapBucket(d, splits, i)
  {
  }

  /** One more entry placed where it lands: the slices are those of one more entry. */
  lemma SlicedAdd(s: Entries, done: set<Tile>, x: Tile, splits: seq<int>, r: seq<MapSlice>, r': seq<MapSlice>)
    requires |splits| >= 1 && x in s && done <= s.Keys
    requires MapSliced(r, Restrict(s, done), splits)
    requires |r'| == |r|
    requires forall i :: 0 <= i < |r| ==>
               r'[i] == r[i].(tiles := if RustPar.Lands(x.0, splits, i) then r[i].tiles[x := s[x]] else r[i].tiles)
    ensures MapSliced(r', Restrict(s, done + {x}), splits)
  {
    forall i | 0 <= i < |r'| ensures r'[i].tiles == MapBucket(Restrict(s, done + {x}), splits, i) {
      MapBucketAdd(s, done, x, splits, i);
    }
  }

  /** The empty slices with the bounds of the source, before any entry is placed. */
  method EmptySlices(splits: seq<int>) returns (tileSlices: seq<MapSlice>)
    requires |splits| >= 1
    ensures MapSliced(tileSlices, map[], splits)
  {
    tileSlices := [];
    for i := 0 to |splits| + 1
      invariant |tileSlices| == i
      invariant forall j :: 0 <= j < i ==> tileSlices[j] == MapSlice(RustPar.LoBound(splits, j), map[], RustPar.HiBound(splits, j))
    {
      tileSlices := tileSlices + [MapSlice(RustPar.LoBound(splits, i), map[], RustPar.HiBound(splits, i))];
    }
  }

  /**
   * `split_vertically`: one unbounded slice of all entries when fewer than two slices
   * are asked for; otherwise the split columns of the concurrent RASTER, and every entry
   * inserted, with its points, into the slice its column lands in.
   */
  method SplitVertically(allTiles: Entries, min: int, max: int, scalar: real, nrSlices: nat)
    returns (r: seq<MapSlice>)
    ensures nrSlices < 2 ==> r == [MapSlice(I32Min, allTiles, I32Max)]
    ensures nrSlices >= 2 ==> MapSliced(r, allTiles, RustPar.SplitPoints(min, max, scalar, nrSlices))
  {
    if nrSlices < 2 {
      return [MapSlice(I32Min, allTiles, I32Max)];
    }
    var splits := RustPar.Splits(min, max, scalar, nrSlices);
    r := EmptySlices(splits);
    var todo := allTiles;
    ghost var done: set<Tile> := {};
    assert Restrict(allTiles, done) == map[];
    while todo != map[]
      invariant done == allTiles.Keys - todo.Keys
      invariant SubMap(todo, allTiles)
      invariant MapSliced(r, Restrict(allTiles, done), splits)
      decreases |todo|
    {
      var k :| k in todo;
      var v := todo[k];
      ghost var before := r;
      r := PlaceEntry(r, k, v, splits);
      SlicedAdd(allTiles, done, k, splits, before, r);
      done := done + {k};
      todo := todo - {k};
    }
    assert Restrict(allTiles, done) == allTiles;
  }

  // ---------------------------------------------------------------------------
  // Lists of tile maps and their key sets
  // ---------------------------------------------------------------------------

  /** Every map of `ps` carries the values `s` has for its tiles. */
  ghost predicate AllFrom(ps: seq<Entries>, s: Entries)
  {
    forall p :: p in ps ==> SubMap(p, s)
  }

  lemma KeySetsAppend(a: seq<Entries>, b: seq<Entries>)
    ensures KeySets(a + b) == KeySets(a) + KeySets(b)
  {
  }

  lemma KeySetsPrefix(ps: seq<Entries>, n: int)
    requires 0 <= n <= |ps|
    ensures KeySets(ps[..n]) == KeySets(ps)[..n]
  {
  }

  lemma AllFromAppend(a: seq<Entries>, b: seq<Entries>, s: Entries)
    requires AllFrom(a, s) && AllFrom(b, s)
    ensures AllFrom(a + b, s)
  {
  }

  /** The maps of `ps` whose tiles touch `v`, in list order. */
  ghost function MeetingMaps(ps: seq<Entries>, v: set<Tile>): seq<Entries>
  {
    if ps == [] then []
    else MeetingMaps(ps[..|ps| - 1], v) + (if Touching(ps[|ps| - 1].Keys, v) then [ps[|ps| - 1]] else [])
  }

  /** The maps of `ps` whose tiles do not touch `v`, in list order. */
  ghost function ApartMaps(ps: seq<Entries>, v: set<Tile>): seq<Entries>
  {
    if ps == [] then []
    else ApartMaps(ps[..|ps| - 1], v) + (if Touching(ps[|ps| - 1].Keys, v) then [] else [ps[|ps| - 1]])
  }

  /** Splitting a list of maps splits their key sets the same way, and keeps only maps of the list. */
  lemma {:induction false} KeysPartition(ps: seq<Entries>, v: set<Tile>)
    ensures KeySets(MeetingMaps(ps, v)) == Meeting(KeySets(ps), v)
    ensures KeySets(ApartMaps(ps, v)) == Apart(KeySets(ps), v)
    ensures forall p :: p in MeetingMaps(ps, v) ==> p in ps
    ensures forall p :: p in ApartMaps(ps, v) ==> p in ps
    decreases |ps|
  {
    if ps != [] {
      var n := |ps|;
      var init, last := ps[..n - 1], ps[n - 1];
      KeysPartition(init, v);
      KeySetsPrefix(ps, n - 1);
      var ks := KeySets(ps);
      assert ks[..n - 1] == KeySets(init) && ks[n - 1] == last.Keys;
      var a := if Touching(last.Keys, v) then [last] else [];
      var b := if Touching(last.Keys, v) then [] else [last];
      KeySetsAppend(MeetingMaps(init, v), a);
      KeySetsAppend(ApartMaps(init, v), b);
      assert KeySets(a) == if Touching(ks[n - 1], v) then [ks[n - 1]] else [];
      assert KeySets(b) == if Touching(ks[n - 1], v) then [] else [ks[n - 1]];
      forall p | p in init ensures p in ps {
      }
    }
  }

  /** The search stack with key sets in place of maps. */
  function KeyTags(tv: seq<(bool, Entries)>): (r: seq<(bool, set<Tile>)>)
    ensures |r| == |tv|
    ensures forall i :: 0 <= i < |tv| ==> r[i] == (tv[i].0, tv[i].1.Keys)
  {
    seq(|tv|, i requires 0 <= i < |tv| => (tv[i].0, tv[i].1.Keys))
  }

  /** Maps marked with the side their search goes to. */
  function TagMaps(ps: seq<Entries>, goRight: bool): (r: seq<(bool, Entries)>)
    ensures |r| == |ps|
    ensures forall i :: 0 <= i < |ps| ==> r[i] == (goRight, ps[i])
  {
    seq(|ps|, i requires 0 <= i < |ps| => (goRight, ps[i]))
  }

  /** Every map on the search stack carries the values of `s`. */
  ghost predicate StackFrom(tv: seq<(bool, Entries)>, s: Entries)
  {
    forall i :: 0 <= i < |tv| ==> SubMap(tv[i].1, s)
  }

  lemma KeyTagsPush(tv: seq<(bool, Entries)>, ps: seq<Entries>, goRight: bool)
    ensures KeyTags(tv + TagMaps(ps, goRight)) == KeyTags(tv) + Tag(KeySets(ps), goRight)
  {
  }

  lemma KeyTagsPop(tv: seq<(bool, Entries)>)
    requires tv != []
    ensures KeyTags(tv[..|tv| - 1]) == KeyTags(tv)[..|tv| - 1]
    ensures KeyTags(tv)[|tv| - 1] == (tv[|tv| - 1].0, tv[|tv| - 1].1.Keys)
  {
  }

  // ---------------------------------------------------------------------------
  // Neighbour predicates
  // ---------------------------------------------------------------------------

  /** `is_neighbors`: some neighbour candidate of `t` is a key of `tiles`. */
  function IsNeighbors(t: Tile, tiles: Entries): (r: bool)
    ensures r <==> exists n :: n in tiles && Adjacent(t, n)
  {
    exists c :: c in Candidates(t) && c in tiles
  }

  /** `is_cluster_neighbors`: some tile of `c1` neighbours some tile of `c2`. */
  method IsClusterNeighbors(c1: Entries, c2: Entries) returns (r: bool)
    ensures r <==> Touching(c1.Keys, c2.Keys)
  {
    var rest := c1.Keys;
    while rest != {}
      invariant rest <= c1.Keys
      invariant !Touching(c1.Keys - rest, c2.Keys)
      decreases |rest|
    {
      var tile :| tile in rest;
      if IsNeighbors(tile, c2) {
        var n :| n in c2 && Adjacent(tile, n);
        return true;
      }
      rest := rest - {tile};
    }
    assert c1.Keys - rest == c1.Keys;
    return false;
  }

  /** `Iterator::partition` by `is_cluster_neighbors(c, visit)`, in list order. */
  method Partition(ps: seq<Entries>, visit: Entries) returns (neighbors: seq<Entries>, leftovers: seq<Entries>)
    ensures neighbors == MeetingMaps(ps, visit.Keys) && leftovers == ApartMaps(ps, visit.Keys)
  {
    neighbors, leftovers := [], [];
    for i := 0 to |ps|
      invariant neighbors == MeetingMaps(ps[..i], visit.Keys) && leftovers == ApartMaps(ps[..i], visit.Keys)
    {
      assert ps[..i + 1][..i] == ps[..i];
      var near := IsClusterNeighbors(ps[i], visit);
      if near {
        neighbors := neighbors + [ps[i]];
      } else {
        leftovers := leftovers + [ps[i]];
      }
    }
    assert ps[..|ps|] == ps;
  }

  /** `to_visit.push((goRight, n))` for every `n` of `ps`, in order. */
  method PushAll(toVisit: seq<(bool, Entries)>, ps: seq<Entries>, goRight: bool)
    returns (r: seq<(bool, Entries)>)
    ensures r == toVisit + TagMaps(ps, goRight)
  {
    r := toVisit;
    for i := 0 to |ps|
      invariant r == toVisit + TagMaps(ps[..i], goRight)
    {
      assert TagMaps(ps[..i + 1], goRight) == TagMaps(ps[..i], goRight) + [(goRight, ps[i])];
      r := r + [(goRight, ps[i])];
    }
    assert ps[..|ps|] == ps;
  }

  // ---------------------------------------------------------------------------
  // Clustering one slice
  // ---------------------------------------------------------------------------

  /** The clusters of one slice as tile maps, in the four lists of `Split`. */
  datatype MapSplit = MapSplit(inner: seq<Entries>, left: seq<Entries>, both: seq<Entries>, right: seq<Entries>)

  /** The split of the key sets. */
  function KeySplit(sp: MapSplit): Split
  {
    Split(KeySets(sp.inner), KeySets(sp.left), KeySets(sp.both), KeySets(sp.right))
  }

  /** Every cluster of `sp` carries the values `s` has for its tiles. */
  ghost predicate SplitFrom(sp: MapSplit, s: Entries)
  {
    AllFrom(sp.inner, s) && AllFrom(sp.left, s) && AllFrom(sp.both, s) && AllFrom(sp.right, s)
  }

  /** Where `cluster_slice` puts a finished cluster map `c`. */
  function PlaceMap(sp: MapSplit, c: Entries, m: int, le: int, re: int): (r: MapSplit)
    ensures KeySplit(r) == Place(KeySplit(sp), c.Keys, m, le, re)
  {
    KeySetsSnoc(sp.inner, c);
    KeySetsSnoc(sp.left, c);
    KeySetsSnoc(sp.both, c);
    KeySetsSnoc(sp.right, c);
    if Touches(c.Keys, le) && Touches(c.Keys, re) then sp.(both := sp.both + [c])
    else if Touches(c.Keys, le) then sp.(left := sp.left + [c])
    else if Touches(c.Keys, re) then sp.(right := sp.right + [c])
    else if |c| >= m then sp.(inner := sp.inner + [c])
    else sp
  }

  /** Placing a cluster map drawn from `s` keeps every cluster drawn from `s`. */
  lemma PlaceMapFrom(sp: MapSplit, c: Entries, m: int, le: int, re: int, s: Entries)
    requires SplitFrom(sp, s) && SubMap(c, s)
    ensures SplitFrom(PlaceMap(sp, c, m, le, re), s)
  {
  }

  /**
   * One round of the inner loop of `cluster_slice` over a tile map: pops the last entry
   * off the stack, adds it to the cluster, notes the edge columns its tile lies on, and
   * pushes the entries of its neighbours still to visit.
   */
  method FillPop(ghost tiles: Entries, ghost w0: set<Tile>, ghost x: Tile, cluster: Entries,
                 toCheck: seq<(Tile, seq<Point>)>, rest: Entries,
                 le: int, re: int, isLeftEdgeCluster: bool, isRightEdgeCluster: bool)
    returns (cluster': Entries, toCheck': seq<(Tile, seq<Point>)>, rest': Entries, isLeft': bool, isRight': bool)
    requires MapFillInv(tiles, w0, x, cluster, toCheck, rest) && toCheck != []
    requires isLeftEdgeCluster == Touches(cluster.Keys, le) && isRightEdgeCluster == Touches(cluster.Keys, re)
    ensures MapFillInv(tiles, w0, x, cluster', toCheck', rest')
    ensures isLeft' == Touches(cluster'.Keys, le) && isRight' == Touches(cluster'.Keys, re)
    ensures |rest'| + |toCheck'| < |rest| + |toCheck|
  {
    var (p, v) := toCheck[|toCheck| - 1];
    isLeft' := isLeftEdgeCluster || p.0 == le;
    isRight' := isRightEdgeCluster || p.0 == re;
    assert cluster[p := v].Keys == cluster.Keys + {p};
    TouchesPlus(cluster.Keys, p, le);
    TouchesPlus(cluster.Keys, p, re);
    cluster' := cluster[p := v];
    var newNeighbors;
    newNeighbors, rest' := RustPrime.PopNeighbors(p, rest);
    MapFillAdvance(tiles, w0, x, cluster, toCheck, rest, newNeighbors);
    toCheck' := toCheck[..|toCheck| - 1] + newNeighbors;
  }

  /**
   * The inner loop of `cluster_slice` over a tile map: from the entry `x := val` of
   * `w0`, already taken out of `toVisit`, the entries of the whole component of `x`,
   * what is left of `toVisit`, and whether the component has a tile in the left or the
   * right edge column.
   */
  method FillCluster(ghost tiles: Entries, ghost w0: Entries, x: Tile, val: seq<Point>, toVisit: Entries,
                     le: int, re: int)
    returns (cluster: Entries, rest: Entries, isLeftEdgeCluster: bool, isRightEdgeCluster: bool)
    requires SubMap(w0, tiles) && x in w0 && val == w0[x] && toVisit == w0 - {x}
    ensures MapFillInv(tiles, w0.Keys, x, cluster, [], rest)
    ensures isLeftEdgeCluster == Touches(cluster.Keys, le)
    ensures isRightEdgeCluster == Touches(cluster.Keys, re)
  {
    isLeftEdgeCluster := x.0 == le;
    isRightEdgeCluster := x.0 == re;
    cluster := map[x := val];
    assert cluster.Keys == {x};
    TouchesOne(x, le);
    TouchesOne(x, re);
    var toCheck;
    toCheck, rest := RustPrime.PopNeighbors(x, toVisit);
    MapFillBegin(tiles, w0, x, toCheck);
    while toCheck != []
      invariant MapFillInv(tiles, w0.Keys, x, cluster, toCheck, rest)
      invariant isLeftEdgeCluster == Touches(cluster.Keys, le)
      invariant isRightEdgeCluster == Touches(cluster.Keys, re)
      decreases |rest| + |toCheck|
    {
      cluster, toCheck, rest, isLeftEdgeCluster, isRightEdgeCluster :=
        FillPop(tiles, w0.Keys, x, cluster, toCheck, rest, le, re, isLeftEdgeCluster, isRightEdgeCluster);
    }
  }

  /**
   * `cluster_slice` over a tile map: the key sets are the correct clustering of the
   * slice's tiles between its edge columns, and every cluster keeps the points each of
   * its tiles has in the slice.
   */
  method ClusterSlice(tiles: Entries, minClusterSize: nat, leftEdge: int, rightEdge: int)
    returns (sp: MapSplit)
    ensures SliceSplit(tiles.Keys, minClusterSize, leftEdge, rightEdge, KeySplit(sp))
    ensures SplitFrom(sp, tiles)
  {
    var m, le, re := minClusterSize, leftEdge, rightEdge;
    var toVisit := tiles;
    var clusters, leftClusters, rightClusters, leftRightClusters := [], [], [], [];
    SliceStart(tiles.Keys, m, le, re);
    while toVisit != map[]
      invariant SubMap(toVisit, tiles)
      invariant SliceInv(tiles.Keys, m, le, re, toVisit.Keys,
                         KeySplit(MapSplit(clusters, leftClusters, leftRightClusters, rightClusters)))
      invariant SplitFrom(MapSplit(clusters, leftClusters, leftRightClusters, rightClusters), tiles)
      decreases |toVisit|
    {
      ghost var w0 := toVisit;
      ghost var before := MapSplit(clusters, leftClusters, leftRightClusters, rightClusters);
      var x :| x in toVisit;
      var val := toVisit[x];
      toVisit := toVisit - {x};
      var cluster, isLeftEdgeCluster, isRightEdgeCluster;
      cluster, toVisit, isLeftEdgeCluster, isRightEdgeCluster := FillCluster(tiles, w0, x, val, toVisit, le, re);
      SliceStep(tiles.Keys, m, le, re, w0.Keys, KeySplit(before), x, cluster.Keys, toVisit.Keys);
      ghost var after := PlaceMap(before, cluster, m, le, re);
      PlaceMapFrom(before, cluster, m, le, re, tiles);
      if isLeftEdgeCluster && isRightEdgeCluster {
        leftRightClusters := leftRightClusters + [cluster];
      } else if isLeftEdgeCluster {
        leftClusters := leftClusters + [cluster];
      } else if isRightEdgeCluster {
        rightClusters := rightClusters + [cluster];
      } else if |cluster| >= m {
        clusters := clusters + [cluster];
      }
      assert MapSplit(clusters, leftClusters, leftRightClusters, rightClusters) == after;
    }
    sp := MapSplit(clusters, leftClusters, leftRightClusters, rightClusters);
    SliceDone(tiles.Keys, m, le, re, KeySplit(sp));
  }

  // ---------------------------------------------------------------------------
  // Joining at one border
  // ---------------------------------------------------------------------------

  /** The pieces at a border, with key sets in place of maps. */
  function KeySides(leftClusters: seq<Entries>, rightClusters: seq<Entries>, leftRightClusters: seq<Entries>): Sides
  {
    Sides(KeySets(leftClusters), KeySets(rightClusters), KeySets(leftRightClusters))
  }

  /** The maps of `ps` with at least `m` tiles, in list order. */
  function LargeMaps(ps: seq<Entries>, m: int): (r: seq<Entries>)
    ensures forall p :: p in r ==> p in ps && |p| >= m
  {
    if ps == [] then []
    else
      var n := |ps|;
      var r := LargeMaps(ps[..n - 1], m);
      assert forall p :: p in ps[..n - 1] ==> p in ps;
      if |ps[n - 1]| >= m then r + [ps[n - 1]] else r
  }

  /** On key sets, `LargeMaps` is `Large`. */
  lemma {:induction false} LargeMapsKeys(ps: seq<Entries>, m: int)
    ensures KeySets(LargeMaps(ps, m)) == Large(KeySets(ps), m)
  {
    if ps != [] {
      var n := |ps|;
      LargeMapsKeys(ps[..n - 1], m);
      KeySetsPrefix(ps, n - 1);
      KeySetsSnoc(LargeMaps(ps[..n - 1], m), ps[n - 1]);
    }
  }

  /** Splitting a list of maps by touching takes every map once. */
  lemma PartitionSizes(ps: seq<Entries>, v: set<Tile>)
    ensures |MeetingMaps(ps, v)| + |ApartMaps(ps, v)| == |ps|
  {
    KeysPartition(ps, v);
    SplitCovers(KeySets(ps), v);
  }

  /** One search of `join_clusters` over tile maps: `BfsInv` on the key sets, values from `s`. */
  ghost predicate SearchState(o: Sides, m: int, cs: seq<set<Tile>>, tr: seq<set<Tile>>, s: Entries,
                              left: seq<Entries>, lr: seq<Entries>, right: seq<Entries>,
                              cluster: Entries, tv: seq<(bool, Entries)>, joinedBoth: bool)
  {
    && BfsInv(o, m, KeySets(left), KeySets(lr), KeySets(right), cs, tr, cluster.Keys, KeyTags(tv), joinedBoth)
    && SubMap(cluster, s) && StackFrom(tv, s)
    && AllFrom(left, s) && AllFrom(lr, s) && AllFrom(right, s)
  }

  lemma SearchStart(o: Sides, m: int, cs: seq<set<Tile>>, tr: seq<set<Tile>>, s: Entries,
                    start: Entries, left: seq<Entries>, lr: seq<Entries>, right: seq<Entries>)
    requires BfsInv(o, m, KeySets(left), KeySets(lr), KeySets(right), cs, tr, {}, [(false, start.Keys)], false)
    requires SubMap(start, s) && AllFrom(left, s) && AllFrom(lr, s) && AllFrom(right, s)
    ensures SearchState(o, m, cs, tr, s, left, lr, right, map[], [(false, start)], false)
  {
    assert KeyTags([(false, start)]) == [(false, start.Keys)];
    var empty: Entries := map[];
    assert empty.Keys == {};
  }

  /** The key sets after visiting a left piece `v`: those `BfsGoRight` speaks of. */
  lemma RightKeys(right: seq<Entries>, cluster: Entries, tv: seq<(bool, Entries)>)
    requires tv != []
    ensures var v := tv[|tv| - 1].1;
            && KeySets(ApartMaps(right, v.Keys)) == Apart(KeySets(right), KeyTags(tv)[|tv| - 1].1)
            && KeyTags(tv[..|tv| - 1] + TagMaps(MeetingMaps(right, v.Keys), false))
               == KeyTags(tv)[..|tv| - 1] + Tag(Meeting(KeySets(right), KeyTags(tv)[|tv| - 1].1), false)
            && (cluster + v).Keys == cluster.Keys + KeyTags(tv)[|tv| - 1].1
  {
    var v := tv[|tv| - 1].1;
    KeyTagsPop(tv);
    KeysPartition(right, v.Keys);
    KeyTagsPush(tv[..|tv| - 1], MeetingMaps(right, v.Keys), false);
  }

  /** The values after visiting a left piece `v` are still those of `s`. */
  lemma RightValues(s: Entries, right: seq<Entries>, cluster: Entries, tv: seq<(bool, Entries)>)
    requires tv != [] && SubMap(cluster, s) && StackFrom(tv, s) && AllFrom(right, s)
    ensures var v := tv[|tv| - 1].1;
            && SubMap(cluster + v, s) && AllFrom(ApartMaps(right, v.Keys), s)
            && StackFrom(tv[..|tv| - 1] + TagMaps(MeetingMaps(right, v.Keys), false), s)
  {
    var v := tv[|tv| - 1].1;
    KeysPartition(right, v.Keys);
    var tv2 := tv[..|tv| - 1] + TagMaps(MeetingMaps(right, v.Keys), false);
    forall i | 0 <= i < |tv2| ensures SubMap(tv2[i].1, s) {
      if i < |tv| - 1 {
        assert tv2[i] == tv[i];
      } else {
        assert tv2[i].1 in MeetingMaps(right, v.Keys);
      }
    }
  }

  /** Visiting a left piece over maps: `BfsGoRight` on the key sets. */
  lemma SearchRight(o: Sides, m: int, cs: seq<set<Tile>>, tr: seq<set<Tile>>, s: Entries,
                    left: seq<Entries>, lr: seq<Entries>, right: seq<Entries>,
                    cluster: Entries, tv: seq<(bool, Entries)>, joinedBoth: bool)
    requires JoinReady(o) && SearchState(o, m, cs, tr, s, left, lr, right, cluster, tv, joinedBoth)
    requires tv != [] && tv[|tv| - 1].0
    ensures var v := tv[|tv| - 1].1;
            SearchState(o, m, cs, tr, s, left, lr, ApartMaps(right, v.Keys), cluster + v,
                        tv[..|tv| - 1] + TagMaps(MeetingMaps(right, v.Keys), false), joinedBoth)
  {
    assert KeyTags(tv)[|tv| - 1].0;
    BfsGoRight(o, m, KeySets(left), KeySets(lr), KeySets(right), cs, tr, cluster.Keys, KeyTags(tv), joinedBoth);
    RightKeys(right, cluster, tv);
    RightValues(s, right, cluster, tv);
  }

  /** The key sets after visiting a right piece `v`: those `BfsGoLeft` speaks of. */
  lemma LeftKeys(left: seq<Entries>, lr: seq<Entries>, cluster: Entries, tv: seq<(bool, Entries)>)
    requires tv != []
    ensures var v, p := tv[|tv| - 1].1, KeyTags(tv)[|tv| - 1].1;
            && KeySets(ApartMaps(left, v.Keys)) == Apart(KeySets(left), p)
            && KeySets(ApartMaps(lr, v.Keys)) == Apart(KeySets(lr), p)
            && KeyTags(tv[..|tv| - 1] + TagMaps(MeetingMaps(left, v.Keys), true) + TagMaps(MeetingMaps(lr, v.Keys), true))
               == KeyTags(tv)[..|tv| - 1] + Tag(Meeting(KeySets(left), p), true) + Tag(Meeting(KeySets(lr), p), true)
            && (MeetingMaps(lr, v.Keys) != [] <==> Meeting(KeySets(lr), p) != [])
            && (cluster + v).Keys == cluster.Keys + p
  {
    var v := tv[|tv| - 1].1;
    KeyTagsPop(tv);
    KeysPartition(left, v.Keys);
    KeysPartition(lr, v.Keys);
    var nl, nb := MeetingMaps(left, v.Keys), MeetingMaps(lr, v.Keys);
    KeyTagsPush(tv[..|tv| - 1], nl, true);
    KeyTagsPush(tv[..|tv| - 1] + TagMaps(nl, true), nb, true);
  }

  /** The values after visiting a right piece `v` are still those of `s`. */
  lemma LeftValues(s: Entries, left: seq<Entries>, lr: seq<Entries>, cluster: Entries, tv: seq<(bool, Entries)>)
    requires tv != [] && SubMap(cluster, s) && StackFrom(tv, s) && AllFrom(left, s) && AllFrom(lr, s)
    ensures var v := tv[|tv| - 1].1;
            && SubMap(cluster + v, s) && AllFrom(ApartMaps(left, v.Keys), s) && AllFrom(ApartMaps(lr, v.Keys), s)
            && StackFrom(tv[..|tv| - 1] + TagMaps(MeetingMaps(left, v.Keys), true) + TagMaps(MeetingMaps(lr, v.Keys), true), s)
  {
    var v := tv[|tv| - 1].1;
    KeysPartition(left, v.Keys);
    KeysPartition(lr, v.Keys);
    var nl, nb := MeetingMaps(left, v.Keys), MeetingMaps(lr, v.Keys);
    var tv2 := tv[..|tv| - 1] + TagMaps(nl, true) + TagMaps(nb, true);
    forall i | 0 <= i < |tv2| ensures SubMap(tv2[i].1, s) {
      if i < |tv| - 1 {
        assert tv2[i] == tv[i];
      } else if i < |tv| - 1 + |nl| {
        assert tv2[i].1 in nl;
      } else {
        assert tv2[i].1 in nb;
      }
    }
  }

  /** Visiting a right piece over maps: `BfsGoLeft` on the key sets. */
  lemma SearchLeft(o: Sides, m: int, cs: seq<set<Tile>>, tr: seq<set<Tile>>, s: Entries,
                   left: seq<Entries>, lr: seq<Entries>, right: seq<Entries>,
                   cluster: Entries, tv: seq<(bool, Entries)>, joinedBoth: bool)
    requires JoinReady(o) && SearchState(o, m, cs, tr, s, left, lr, right, cluster, tv, joinedBoth)
    requires tv != [] && !tv[|tv| - 1].0
    ensures var v := tv[|tv| - 1].1;
            SearchState(o, m, cs, tr, s, ApartMaps(left, v.Keys), ApartMaps(lr, v.Keys), right, cluster + v,
                        tv[..|tv| - 1] + TagMaps(MeetingMaps(left, v.Keys), true) + TagMaps(MeetingMaps(lr, v.Keys), true),
                        joinedBoth || MeetingMaps(lr, v.Keys) != [])
  {
    assert !KeyTags(tv)[|tv| - 1].0;
    BfsGoLeft(o, m, KeySets(left), KeySets(lr), KeySets(right), cs, tr, cluster.Keys, KeyTags(tv), joinedBoth);
    LeftKeys(left, lr, cluster, tv);
    LeftValues(s, left, lr, cluster, tv);
  }

  /**
   * The inner loop of `join_clusters` over tile maps: the search from `start`, the
   * visited pieces merged into `cluster` by `extend`.
   */
  method Search(ghost o: Sides, ghost m: int, ghost ready: bool, ghost cs: seq<set<Tile>>, ghost tr: seq<set<Tile>>,
                ghost s: Entries, start: Entries, left: seq<Entries>, lr: seq<Entries>, right: seq<Entries>)
    returns (cluster: Entries, isLeftAndRight: bool, left': seq<Entries>, lr': seq<Entries>, right': seq<Entries>)
    requires ready ==> JoinReady(o) && BfsInv(o, m, KeySets(left), KeySets(lr), KeySets(right), cs, tr,
                                              {}, [(false, start.Keys)], false)
    requires ready ==> SubMap(start, s) && AllFrom(left, s) && AllFrom(lr, s) && AllFrom(right, s)
    ensures ready ==> SearchState(o, m, cs, tr, s, left', lr', right', cluster, [], isLeftAndRight)
    ensures |right'| <= |right|
  {
    left', lr', right' := left, lr, right;
    isLeftAndRight := false;
    var toVisit := [(false, start)];
    cluster := map[];
    if ready {
      SearchStart(o, m, cs, tr, s, start, left, lr, right);
    }
    while toVisit != []
      invariant ready ==> JoinReady(o) && SearchState(o, m, cs, tr, s, left', lr', right', cluster, toVisit, isLeftAndRight)
      invariant |right'| <= |right|
      decreases |left'| + |lr'| + |right'| + |toVisit|
    {
      var (goRight, visit) := toVisit[|toVisit| - 1];
      if goRight {
        if ready {
          SearchRight(o, m, cs, tr, s, left', lr', right', cluster, toVisit, isLeftAndRight);
        }
        PartitionSizes(right', visit.Keys);
        toVisit := toVisit[..|toVisit| - 1];
        var neighbors, leftovers := Partition(right', visit);
        right' := leftovers;
        toVisit := PushAll(toVisit, neighbors, false);
      } else {
        if ready {
          SearchLeft(o, m, cs, tr, s, left', lr', right', cluster, toVisit, isLeftAndRight);
        }
        PartitionSizes(left', visit.Keys);
        PartitionSizes(lr', visit.Keys);
        toVisit := toVisit[..|toVisit| - 1];
        var neighbors, leftovers := Partition(left', visit);
        left' := leftovers;
        toVisit := PushAll(toVisit, neighbors, true);
        var joined, rest := Partition(lr', visit);
        lr' := rest;
        ghost var before := isLeftAndRight;
        for i := 0 to |joined|
          invariant isLeftAndRight == (before || i > 0)
        {
          isLeftAndRight := true;
        }
        toVisit := PushAll(toVisit, joined, true);
      }
      cluster := cluster + visit;
    }
  }

  /** Between two searches of `join_clusters` over tile maps: `JoinInv` on the key sets, values from `s`. */
  ghost predicate JoinState(o: Sides, m: int, s: Entries, left: seq<Entries>, lr: seq<Entries>, right: seq<Entries>,
                            clusters: seq<Entries>, newLeftRight: seq<Entries>)
  {
    && JoinInv(o, m, KeySets(left), KeySets(lr), KeySets(right), KeySets(clusters), KeySets(newLeftRight))
    && AllFrom(left, s) && AllFrom(lr, s) && AllFrom(right, s)
    && AllFrom(clusters, s) && AllFrom(newLeftRight, s)
  }

  /** A finished search over maps: its cluster goes where `BfsEnd` says. */
  lemma SearchEnd(o: Sides, m: int, s: Entries, left: seq<Entries>, lr: seq<Entries>, right: seq<Entries>,
                  clusters: seq<Entries>, newLeftRight: seq<Entries>, cluster: Entries, joinedBoth: bool,
                  clusters': seq<Entries>, newLeftRight': seq<Entries>)
    requires SearchState(o, m, KeySets(clusters), KeySets(newLeftRight), s, left, lr, right, cluster, [], joinedBoth)
    requires AllFrom(clusters, s) && AllFrom(newLeftRight, s)
    requires newLeftRight' == if joinedBoth then newLeftRight + [cluster] else newLeftRight
    requires clusters' == if !joinedBoth && |cluster| >= m then clusters + [cluster] else clusters
    ensures JoinState(o, m, s, left, lr, right, clusters', newLeftRight')
  {
    EndKeys(o, m, KeySets(left), KeySets(lr), KeySets(right), clusters, newLeftRight, cluster, [], joinedBoth,
            clusters', newLeftRight');
    EndValues(s, clusters, newLeftRight, cluster, clusters', newLeftRight');
  }

  /** `BfsEnd` on the key sets, with each kind of cluster stored in its list of maps. */
  lemma EndKeys(o: Sides, m: int, left: seq<set<Tile>>, lr: seq<set<Tile>>, right: seq<set<Tile>>,
                clusters: seq<Entries>, newLeftRight: seq<Entries>, cluster: Entries, tv: seq<(bool, Entries)>,
                joinedBoth: bool, clusters': seq<Entries>, newLeftRight': seq<Entries>)
    requires BfsInv(o, m, left, lr, right, KeySets(clusters), KeySets(newLeftRight), cluster.Keys, KeyTags(tv), joinedBoth)
    requires tv == []
    requires newLeftRight' == if joinedBoth then newLeftRight + [cluster] else newLeftRight
    requires clusters' == if !joinedBoth && |cluster| >= m then clusters + [cluster] else clusters
    ensures JoinInv(o, m, left, lr, right, KeySets(clusters'), KeySets(newLeftRight'))
  {
    assert KeyTags(tv) == [];
    BfsEnd(o, m, left, lr, right, KeySets(clusters), KeySets(newLeftRight), cluster.Keys, joinedBoth);
    KeySetsSnoc(newLeftRight, cluster);
    KeySetsSnoc(clusters, cluster);
  }

  /** Storing a cluster drawn from `s` keeps both lists drawn from `s`. */
  lemma EndValues(s: Entries, clusters: seq<Entries>, newLeftRight: seq<Entries>, cluster: Entries,
                  clusters': seq<Entries>, newLeftRight': seq<Entries>)
    requires SubMap(cluster, s) && AllFrom(clusters, s) && AllFrom(newLeftRight, s)
    requires newLeftRight' == newLeftRight + [cluster] || newLeftRight' == newLeftRight
    requires clusters' == clusters + [cluster] || clusters' == clusters
    ensures AllFrom(clusters', s) && AllFrom(newLeftRight', s)
  {
  }

  /** Before a search: `BfsStart` on the key sets, with the last right piece as the start. */
  lemma RoundStart(o: Sides, m: int, s: Entries, left: seq<Entries>, lr: seq<Entries>, right: seq<Entries>,
                   clusters: seq<Entries>, newLeftRight: seq<Entries>)
    requires JoinReady(o) && JoinState(o, m, s, left, lr, right, clusters, newLeftRight) && right != []
    ensures BfsInv(o, m, KeySets(left), KeySets(lr), KeySets(right[..|right| - 1]), KeySets(clusters),
                   KeySets(newLeftRight), {}, [(false, right[|right| - 1].Keys)], false)
    ensures SubMap(right[|right| - 1], s) && AllFrom(right[..|right| - 1], s)
  {
    BfsStart(o, m, KeySets(left), KeySets(lr), KeySets(right), KeySets(clusters), KeySets(newLeftRight));
    KeySetsPrefix(right, |right| - 1);
    assert right[|right| - 1] in right;
  }

  /** The right pieces run out: the join is done, as `JoinDone` says for the key sets. */
  lemma JoinEnd(o: Sides, m: int, s: Entries, left: seq<Entries>, lr: seq<Entries>,
                clusters: seq<Entries>, newLeftRight: seq<Entries>)
    requires JoinReady(o) && JoinState(o, m, s, left, lr, [], clusters, newLeftRight)
    ensures IsJoin(o, m, KeySets(clusters + LargeMaps(left, m)), KeySets(lr + newLeftRight))
    ensures AllFrom(clusters + LargeMaps(left, m), s) && AllFrom(lr + newLeftRight, s)
  {
    assert KeySets<seq<Point>>([]) == [];
    JoinDone(o, m, KeySets(left), KeySets(lr), KeySets(clusters), KeySets(newLeftRight));
    KeySetsAppend(clusters, LargeMaps(left, m));
    LargeMapsKeys(left, m);
    KeySetsAppend(lr, newLeftRight);
  }

  /**
   * One round of the outer loop of `join_clusters`: the last right piece popped, its
   * search run, and the cluster found stored as its kind says.
   */
  method SearchRound(ghost o: Sides, ghost ready: bool, ghost s: Entries, m: nat,
                     left: seq<Entries>, lr: seq<Entries>, right: seq<Entries>,
                     clusters: seq<Entries>, newLeftRight: seq<Entries>)
    returns (left': seq<Entries>, lr': seq<Entries>, right': seq<Entries>,
             clusters': seq<Entries>, newLeftRight': seq<Entries>)
    requires right != []
    requires ready ==> JoinReady(o) && JoinState(o, m, s, left, lr, right, clusters, newLeftRight)
    requires forall c :: c in clusters ==> |c| >= m
    ensures ready ==> JoinReady(o) && JoinState(o, m, s, left', lr', right', clusters', newLeftRight')
    ensures forall c :: c in clusters' ==> |c| >= m
    ensures |right'| < |right|
  {
    if ready {
      RoundStart(o, m, s, left, lr, right, clusters, newLeftRight);
    }
    var start := right[|right| - 1];
    var cluster, isLeftAndRight;
    cluster, isLeftAndRight, left', lr', right' :=
      Search(o, m, ready, KeySets(clusters), KeySets(newLeftRight), s, start, left, lr, right[..|right| - 1]);
    clusters', newLeftRight' := clusters, newLeftRight;
    if isLeftAndRight {
      newLeftRight' := newLeftRight + [cluster];
    } else if |cluster| >= m {
      clusters' := clusters + [cluster];
    }
    if ready {
      SearchEnd(o, m, s, left', lr', right', clusters, newLeftRight, cluster, isLeftAndRight, clusters', newLeftRight');
    }
  }

  /** One more map of `ps` considered by `LargeMaps`. */
  lemma LargeMapsNext(ps: seq<Entries>, i: int, m: int)
    requires 0 <= i < |ps|
    ensures LargeMaps(ps[..i + 1], m) == LargeMaps(ps[..i], m) + if |ps[i]| >= m then [ps[i]] else []
  {
    assert ps[..i + 1][..i] == ps[..i];
  }

  /** The loop `for c in left { if c.len() >= min_cluster_size { clusters.push(c) } }`. */
  method KeepLarge(clusters: seq<Entries>, left: seq<Entries>, m: nat) returns (r: seq<Entries>)
    ensures r == clusters + LargeMaps(left, m)
  {
    r := clusters;
    for i := 0 to |left|
      invariant r == clusters + LargeMaps(left[..i], m)
    {
      LargeMapsNext(left, i, m);
      if |left[i]| >= m {
        r := r + [left[i]];
      }
    }
    assert left[..|left|] == left;
  }

  /**
   * `join_clusters` over tile maps: when the pieces are as slice clustering leaves them,
   * the key sets are a correct join, and every joined map keeps the points its tiles
   * have in the pieces.
   */
  method JoinClusters(leftClusters: seq<Entries>, rightClusters: seq<Entries>, leftRightClusters: seq<Entries>,
                      minClusterSize: nat, ghost s: Entries)
    returns (clusters: seq<Entries>, leftRight: seq<Entries>)
    ensures forall c :: c in clusters ==> |c| >= minClusterSize
    ensures JoinReady(KeySides(leftClusters, rightClusters, leftRightClusters)) &&
            AllFrom(leftClusters, s) && AllFrom(rightClusters, s) && AllFrom(leftRightClusters, s) ==>
              && IsJoin(KeySides(leftClusters, rightClusters, leftRightClusters), minClusterSize,
                        KeySets(clusters), KeySets(leftRight))
              && AllFrom(clusters, s) && AllFrom(leftRight, s)
  {
    ghost var o := KeySides(leftClusters, rightClusters, leftRightClusters);
    ghost var ready := JoinReady(o) && AllFrom(leftClusters, s) && AllFrom(rightClusters, s) && AllFrom(leftRightClusters, s);
    var m := minClusterSize;
    clusters := [];
    var newLeftRight: seq<Entries> := [];
    var lr, left, right := leftRightClusters, leftClusters, rightClusters;
    if ready {
      JoinStart(o, m);
      assert KeySets<seq<Point>>([]) == [];
    }
    while right != []
      invariant ready ==> JoinReady(o) && JoinState(o, m, s, left, lr, right, clusters, newLeftRight)
      invariant forall c :: c in clusters ==> |c| >= m
      decreases |right|
    {
      left, lr, right, clusters, newLeftRight := SearchRound(o, ready, s, m, left, lr, right, clusters, newLeftRight);
    }
    ghost var found := clusters;
    clusters := KeepLarge(clusters, left, m);
    if ready {
      JoinEnd(o, m, s, left, lr, found, newLeftRight);
    }
    leftRight := lr + newLeftRight;
  }

  // ---------------------------------------------------------------------------
  // Clustering all slices
  // ---------------------------------------------------------------------------

  /** The splits of the key sets. */
  function KeySplits(sps: seq<MapSplit>): (r: seq<Split>)
    ensures |r| == |sps|
    ensures forall i :: 0 <= i < |sps| ==> r[i] == KeySplit(sps[i])
  {
    seq(|sps|, i requires 0 <= i < |sps| => KeySplit(sps[i]))
  }

  /** Every cluster of every split carries the values of `s`. */
  ghost predicate SplitsFrom(sps: seq<MapSplit>, s: Entries)
  {
    forall i :: 0 <= i < |sps| ==> SplitFrom(sps[i], s)
  }

  /** All entries of the slices from `k` on; on slices side by side no two share a tile. */
  ghost function AllEntries(sl: seq<MapSlice>, k: nat): Entries
    decreases |sl| - k
  {
    if k >= |sl| then map[] else sl[k].tiles + AllEntries(sl, k + 1)
  }

  lemma {:induction false} AllEntriesKeys(sl: seq<MapSlice>, k: nat)
    ensures AllEntries(sl, k).Keys == Tiles(KeySlices(sl), k)
    decreases |sl| - k
  {
    if k < |sl| {
      AllEntriesKeys(sl, k + 1);
    }
  }

  /** On slices side by side, every slice's entries are entries of the whole. */
  lemma {:induction false} AllEntriesHold(sl: seq<MapSlice>, k: nat, j: nat)
    requires ValidSlices(KeySlices(sl)) && k <= j < |sl|
    ensures SubMap(sl[j].tiles, AllEntries(sl, k))
    decreases j - k
  {
    if k < j {
      AllEntriesHold(sl, k + 1, j);
    } else {
      var ks := KeySlices(sl);
      AllEntriesKeys(sl, k + 1);
      forall t | t in sl[k].tiles ensures t !in Tiles(ks, k + 1) {
        if k + 1 < |sl| {
          TilesPlace(ks, k + 1, t);
          assert ks[k + 1].lo == ks[k].hi + 1;
        }
      }
    }
  }

  /** Slices made from `s` hold only entries of `s`. */
  lemma {:induction false} AllEntriesFrom(sl: seq<MapSlice>, k: nat, s: Entries)
    requires forall i :: 0 <= i < |sl| ==> SubMap(sl[i].tiles, s)
    ensures SubMap(AllEntries(sl, k), s)
    decreases |sl| - k
  {
    if k < |sl| {
      AllEntriesFrom(sl, k + 1, s);
    }
  }

  lemma SplitFromTrans(sp: MapSplit, a: Entries, b: Entries)
    requires SplitFrom(sp, a) && SubMap(a, b)
    ensures SplitFrom(sp, b)
  {
  }

  /** The workers of `cluster_tiles`: every slice clustered on its own, in slice order. */
  method ClusterSlices(slices: seq<MapSlice>, minClusterSize: nat) returns (sps: seq<MapSplit>)
    ensures SplitsOf(KeySlices(slices), KeySplits(sps), minClusterSize)
    ensures forall i :: 0 <= i < |sps| ==> SplitFrom(sps[i], slices[i].tiles)
  {
    sps := [];
    for i := 0 to |slices|
      invariant SplitsOf(KeySlices(slices[..i]), KeySplits(sps), minClusterSize)
      invariant forall j :: 0 <= j < |sps| ==> SplitFrom(sps[j], slices[j].tiles)
    {
      var sp := ClusterSlice(slices[i].tiles, minClusterSize, slices[i].lo, slices[i].hi);
      var sl := slices[i];
      SplitsSnoc(KeySlices(slices[..i]), KeySplits(sps), minClusterSize, Slice(sl.lo, sl.tiles.Keys, sl.hi), KeySplit(sp));
      assert KeySlices(slices[..i + 1]) == KeySlices(slices[..i]) + [Slice(sl.lo, sl.tiles.Keys, sl.hi)];
      assert KeySplits(sps + [sp]) == KeySplits(sps) + [KeySplit(sp)];
      sps := sps + [sp];
    }
    assert slices[..|slices|] == slices;
  }

  /** The finished clusters of all slices, one slice after the other. */
  method Flatten(sps: seq<MapSplit>, ghost s: Entries) returns (clusters: seq<Entries>)
    ensures KeySets(clusters) == Inner(KeySplits(sps))
    ensures SplitsFrom(sps, s) ==> AllFrom(clusters, s)
  {
    clusters := [];
    for i := 0 to |sps|
      invariant KeySets(clusters) == Inner(KeySplits(sps[..i]))
      invariant SplitsFrom(sps, s) ==> AllFrom(clusters, s)
    {
      var kp := KeySplits(sps[..i + 1]);
      assert kp[..i] == KeySplits(sps[..i]);
      assert kp[i] == KeySplit(sps[i]);
      KeySetsAppend(clusters, sps[i].inner);
      clusters := clusters + sps[i].inner;
    }
    assert sps[..|sps|] == sps;
  }

  /** The join at border `k`, over maps: `StageStep` on the key sets. */
  lemma BorderStep(sl: seq<MapSlice>, sps: seq<MapSplit>, m: nat, s: Entries, k: nat,
                   trans: seq<Entries>, joined: seq<Entries>)
    requires ValidSlices(KeySlices(sl)) && SplitsOf(KeySlices(sl), KeySplits(sps), m) && SplitsFrom(sps, s) && 1 <= k
    requires Stage(KeySlices(sl), KeySplits(sps), m, k, KeySets(trans), KeySets(joined))
    requires AllFrom(trans, s)
    ensures JoinReady(KeySides(sps[k - 1].right, sps[k].left + trans, sps[k - 1].both))
    ensures AllFrom(sps[k - 1].right, s) && AllFrom(sps[k].left + trans, s) && AllFrom(sps[k - 1].both, s)
  {
    var ks, kp := KeySlices(sl), KeySplits(sps);
    StageReady(ks, kp, m, k, KeySets(trans), KeySets(joined));
    KeySetsAppend(sps[k].left, trans);
    assert KeySides(sps[k - 1].right, sps[k].left + trans, sps[k - 1].both)
           == AtBorder(kp[k - 1], kp[k].left + KeySets(trans));
    AllFromAppend(sps[k].left, trans, s);
  }

  /** A correct join at border `k` over maps moves the stage one border to the left. */
  lemma BorderJoined(sl: seq<MapSlice>, sps: seq<MapSplit>, m: nat, k: nat,
                     trans: seq<Entries>, joined: seq<Entries>, cs: seq<Entries>, tr: seq<Entries>)
    requires ValidSlices(KeySlices(sl)) && SplitsOf(KeySlices(sl), KeySplits(sps), m) && 1 <= k
    requires Stage(KeySlices(sl), KeySplits(sps), m, k, KeySets(trans), KeySets(joined))
    requires IsJoin(KeySides(sps[k - 1].right, sps[k].left + trans, sps[k - 1].both), m, KeySets(cs), KeySets(tr))
    ensures Stage(KeySlices(sl), KeySplits(sps), m, k - 1, KeySets(tr), KeySets(joined + cs))
  {
    var ks, kp := KeySlices(sl), KeySplits(sps);
    KeySetsAppend(sps[k].left, trans);
    assert KeySides(sps[k - 1].right, sps[k].left + trans, sps[k - 1].both)
           == AtBorder(kp[k - 1], kp[k].left + KeySets(trans));
    StageStep(ks, kp, m, k, KeySets(trans), KeySets(joined), KeySets(cs), KeySets(tr));
    KeySetsAppend(joined, cs);
  }

  /**
   * One round of the loop of `cluster_tiles` over the borders, over tile maps: the join at
   * border `k` of the right-edge clusters of slice `k - 1` with the left-edge clusters of
   * slice `k` and what came through from the right.
   */
  method JoinAt(slices: seq<MapSlice>, sps: seq<MapSplit>, m: nat, ghost s: Entries, k: nat,
                trans: seq<Entries>, joined: seq<Entries>, ghost valid: bool)
    returns (joined': seq<Entries>, trans': seq<Entries>)
    requires 1 <= k < |sps| == |slices|
    requires valid ==> ValidSlices(KeySlices(slices)) && SplitsOf(KeySlices(slices), KeySplits(sps), m) &&
                       SplitsFrom(sps, s) && AllFrom(joined, s) && AllFrom(trans, s) &&
                       Stage(KeySlices(slices), KeySplits(sps), m, k, KeySets(trans), KeySets(joined))
    ensures valid ==> Stage(KeySlices(slices), KeySplits(sps), m, k - 1, KeySets(trans'), KeySets(joined')) &&
                      AllFrom(joined', s) && AllFrom(trans', s)
  {
    if valid {
      BorderStep(slices, sps, m, s, k, trans, joined);
    }
    var cs, tr := JoinClusters(sps[k - 1].right, sps[k].left + trans, sps[k - 1].both, m, s);
    if valid {
      BorderJoined(slices, sps, m, k, trans, joined, cs, tr);
      AllFromAppend(joined, cs, s);
    }
    joined', trans' := joined + cs, tr;
  }

  /**
   * The loop of `cluster_tiles` over the borders, from right to left, over tile maps:
   * the clusters joined at each border and what still reaches the first slice's left edge.
   */
  method JoinBorders(slices: seq<MapSlice>, sps: seq<MapSplit>, minClusterSize: nat, ghost s: Entries)
    returns (joined: seq<Entries>, trans: seq<Entries>)
    requires 1 <= |sps| == |slices|
    ensures ValidSlices(KeySlices(slices)) && SplitsOf(KeySlices(slices), KeySplits(sps), minClusterSize) &&
            SplitsFrom(sps, s) && sps[|sps| - 1].both == [] && sps[|sps| - 1].right == [] ==>
              && Stage(KeySlices(slices), KeySplits(sps), minClusterSize, 0, KeySets(trans), KeySets(joined))
              && AllFrom(joined, s) && AllFrom(trans, s)
  {
    var m, n := minClusterSize, |slices|;
    ghost var ks, kp := KeySlices(slices), KeySplits(sps);
    ghost var valid := ValidSlices(ks) && SplitsOf(ks, kp, m) && SplitsFrom(sps, s) &&
                       sps[n - 1].both == [] && sps[n - 1].right == [];
    trans, joined := [], [];
    if valid {
      StageStart(ks, kp, m);
      assert KeySets(trans) == [] && KeySets(joined) == [];
    }
    var k := n - 1;
    while k > 0
      invariant 0 <= k < n
      invariant valid ==> Stage(ks, kp, m, k, KeySets(trans), KeySets(joined)) && AllFrom(joined, s) && AllFrom(trans, s)
    {
      joined, trans := JoinAt(slices, sps, m, s, k, trans, joined, valid);
      k := k - 1;
    }
  }

  /** On slices side by side, what each slice's clusters carry is in the whole. */
  lemma SlicesFromAll(slices: seq<MapSlice>, sps: seq<MapSplit>)
    requires ValidSlices(KeySlices(slices)) && |sps| == |slices|
    requires forall i :: 0 <= i < |sps| ==> SplitFrom(sps[i], slices[i].tiles)
    ensures SplitsFrom(sps, AllEntries(slices, 0))
  {
    EverySliceInAll(slices);
  }

  /** On slices side by side, every slice's entries are entries of the whole. */
  lemma EverySliceInAll(slices: seq<MapSlice>)
    requires ValidSlices(KeySlices(slices))
    ensures forall i :: 0 <= i < |slices| ==> SubMap(slices[i].tiles, AllEntries(slices, 0))
  {
    forall i | 0 <= i < |slices| ensures SubMap(slices[i].tiles, AllEntries(slices, 0)) {
      AllEntriesHold(slices, 0, i);
    }
  }

  /** `StageDone` with the clusters as maps. */
  lemma KeysClustered(ks: seq<Slice>, kp: seq<Split>, m: nat,
                      inner: seq<Entries>, joined: seq<Entries>, trans: seq<Entries>)
    requires ValidSlices(ks) && SplitsOf(ks, kp, m) && Stage(ks, kp, m, 0, KeySets(trans), KeySets(joined))
    requires kp[0].left == [] && KeySets(inner) == Inner(kp)
    ensures IsClustering(Tiles(ks, 0), m, KeySets(inner + joined + LargeMaps(trans, m)))
  {
    StageDone(ks, kp, m, KeySets(trans), KeySets(joined));
    KeySetsAppend(inner + joined, LargeMaps(trans, m));
    LargeMapsKeys(trans, m);
    KeySetsAppend(inner, joined);
  }

  /** A clustering of the key sets whose clusters carry the slices' values clusters their entries. */
  lemma TilesClustered(slices: seq<MapSlice>, m: nat, cs: seq<Entries>)
    requires IsClustering(Tiles(KeySlices(slices), 0), m, KeySets(cs))
    requires AllFrom(cs, AllEntries(slices, 0))
    ensures IsMapClustering(AllEntries(slices, 0), m, cs)
  {
    AllEntriesKeys(slices, 0);
    forall i | 0 <= i < |cs| ensures SubMap(cs[i], AllEntries(slices, 0)) {
      assert cs[i] in cs;
    }
  }

  /**
   * `cluster_tiles` over tile maps: clusters every slice on its own, then joins border by
   * border from right to left; the source's assertions on the outer slices are
   * `Failure`s. On slices side by side the result clusters all their entries, each tile
   * with its points.
   */
  method ClusterTiles(slices: seq<MapSlice>, minClusterSize: nat) returns (r: Result<seq<Entries>>)
    ensures |slices| < 2 ==> r.Success?
    ensures |slices| >= 2 ==>
      (r.Success? <==>
        && (forall t :: t in slices[|slices| - 1].tiles ==> t.0 != slices[|slices| - 1].hi)
        && (forall c :: IsComponent(c, slices[0].tiles.Keys) && Touches(c, slices[0].lo) ==> Touches(c, slices[0].hi)))
    ensures ValidSlices(KeySlices(slices)) && r.Success? ==> IsMapClustering(AllEntries(slices, 0), minClusterSize, r.value)
  {
    var m := minClusterSize;
    ghost var s := AllEntries(slices, 0);
    if |slices| < 2 {
      if |slices| == 1 {
        var cs := RustPrime.ClusterTiles(slices[0].tiles, m);
        assert AllEntries(slices, 1) == map[];
        assert s == slices[0].tiles;
        return Success(cs);
      }
      assert s == map[];
      assert KeySets<seq<Point>>([]) == [];
      return Success([]);
    }
    var n := |slices|;
    var sps := ClusterSlices(slices, m);
    ghost var ks, kp := KeySlices(slices), KeySplits(sps);
    var clusters := Flatten(sps, s);
    ghost var valid := ValidSlices(ks);
    assert SliceSplit(ks[n - 1].tiles, m, ks[n - 1].lo, ks[n - 1].hi, kp[n - 1]);
    assert SliceSplit(ks[0].tiles, m, ks[0].lo, ks[0].hi, kp[0]);
    LastClear(ks[n - 1].tiles, m, ks[n - 1].lo, ks[n - 1].hi, kp[n - 1]);
    FirstClear(ks[0].tiles, m, ks[0].lo, ks[0].hi, kp[0]);
    if sps[n - 1].right != [] {
      return Failure("a cluster touches the right edge of the last slice");
    }
    if sps[n - 1].both != [] {
      return Failure("a cluster touches both edges of the last slice");
    }
    if valid {
      SlicesFromAll(slices, sps);
    }
    var joined, trans := JoinBorders(slices, sps, m, s);
    ghost var done := clusters + joined;
    clusters := KeepLarge(clusters + joined, trans, m);
    if sps[0].left != [] {
      return Failure("a cluster touches the left edge of the first slice");
    }
    if valid {
      ghost var inner := done[..|done| - |joined|];
      assert inner + joined == done;
      KeysClustered(ks, kp, m, inner, joined, trans);
      AllFromAppend(inner, joined, s);
      AllFromAppend(done, LargeMaps(trans, m), s);
      TilesClustered(slices, m, clusters);
    }
    return Success(clusters);
  }

  // ---------------------------------------------------------------------------
  // The benchmark pipeline
  // ---------------------------------------------------------------------------

  /**
   * For points on the globe, the map slices of `split_vertically` between longitudes -180
   * and 180 lie side by side, no tile touches the outer borders, and together they hold
   * the projected tiles with their points.
   */
  lemma PrimeGlobe(points: seq<Point>, precision: nat, threshold: nat, nrSlices: nat,
                   tiles: Entries, slices: seq<MapSlice>)
    requires RustPar.OnGlobe(points) && precision <= 6 && 1 <= nrSlices <= 360
    requires tiles.Keys == Dense(points, Scalar(precision), threshold)
    requires nrSlices < 2 ==> slices == [MapSlice(I32Min, tiles, I32Max)]
    requires nrSlices >= 2 ==> MapSliced(slices, tiles, RustPar.SplitPoints(-180, 180, Scalar(precision), nrSlices))
    ensures ValidSlices(KeySlices(slices)) && |slices| >= 1
    ensures forall t :: t in slices[|slices| - 1].tiles ==> t.0 != slices[|slices| - 1].hi
    ensures forall c :: IsComponent(c, slices[0].tiles.Keys) ==> !Touches(c, slices[0].lo)
    ensures AllEntries(slices, 0).Keys == tiles.Keys && SubMap(AllEntries(slices, 0), tiles)
  {
    var ks := KeySlices(slices);
    if nrSlices >= 2 {
      MapSlicedKeys(slices, tiles, RustPar.SplitPoints(-180, 180, Scalar(precision), nrSlices));
    } else {
      assert ks == [Slice(I32Min, tiles.Keys, I32Max)];
    }
    RustPar.GlobeSlices(points, precision, threshold, nrSlices, ks);
    AllEntriesKeys(slices, 0);
    AllEntriesFrom(slices, 0, tiles);
  }

  /**
   * `par_raster_prime` of the benchmark: the parallel projection keeping the points,
   * `split_vertically` between longitudes -180 and 180 into `nrCores` slices, and the
   * parallel clustering. For points on the globe, a precision of at most six digits and
   * at most 360 cores it succeeds; the key sets of the clusters are the clustering of
   * the dense tiles, and every tile of a cluster carries exactly the points that fall
   * into it.
   */
  method ParRasterPrime(points: seq<Point>, precision: int, threshold: nat, nrCores: nat, minClusterSize: nat)
    returns (r: Result<seq<Entries>>)
    ensures r.Success? ==> 1 <= nrCores <= |points|
    ensures RustPar.OnGlobe(points) && 0 <= precision <= 6 && 1 <= nrCores <= |points| && nrCores <= 360 ==>
              && r.Success?
              && IsClustering(Dense(points, Scalar(precision), threshold), minClusterSize, KeySets(r.value))
              && (forall i, t :: 0 <= i < |r.value| && t in r.value[i] ==>
                    r.value[i][t] == PointsIn(points, Scalar(precision), t))
  {
    var projected := MapToTiles(points, precision, threshold, nrCores);
    if projected.Failure? {
      return Failure(projected.error);
    }
    var (tiles, scalar) := projected.value;
    var slices := SplitVertically(tiles, -180, 180, scalar, nrCores);
    r := ClusterTiles(slices, minClusterSize);
    ghost var onGlobe := RustPar.OnGlobe(points) && 0 <= precision <= 6 && nrCores <= 360;
    if onGlobe {
      PrimeGlobe(points, precision, threshold, nrCores, tiles, slices);
      assert r.Success?;
      forall i, t | 0 <= i < |r.value| && t in r.value[i]
        ensures r.value[i][t] == PointsIn(points, Scalar(precision), t)
      {
        assert SubMap(r.value[i], AllEntries(slices, 0));
      }
    }
  }
}
