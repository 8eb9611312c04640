/**
 * 2_benchmark_rust/src/raster/prime.rs: sequential RASTER', where every tile keeps the
 * points that fell into it. The `IndexMap`s of the source become maps (their iteration
 * order aside) and, for the frontier, a list of key-value pairs whose keys do not repeat.
 */
module RustPrime {
  import opened Grid
  import opened Components
  import opened Projection

  /**
   * `map_to_tiles`: the dense tiles, each with its points in input order, and the
   * scalar used.
   */
  method MapToTiles(points: seq<Point>, precision: int, threshold: nat)
    returns (significant: map<Tile, seq<Point>>, scalar: real)
    ensures scalar == Scalar(precision)
    ensures significant.Keys == Dense(points, scalar, threshold)
    ensures forall t :: t in significant ==> significant[t] == PointsIn(points, scalar, t)
  {
    scalar := Scalar(precision);
    var tileMap: map<Tile, seq<Point>> := map[];
    for i := 0 to |points|
      invariant tileMap == PointMap(points[..i], scalar)
    {
      var pInt := Quantize(points[i], scalar);
      var ps := GetPoints(tileMap, pInt);
      tileMap := tileMap[pInt := ps + [points[i]]];
      PointPrefixStep(points, i, scalar);
    }
    assert points[..|points|] == points;
    significant := LongLists(tileMap, threshold);
    LongListsDense(points, scalar, threshold);
  }

  /**
   * `pop_neighbors`: the neighbours of `t` present in `tiles`, in candidate order and each
   * with its points, and what is left of `tiles` once exactly those are removed.
   */
  method PopNeighbors(t: Tile, tiles: map<Tile, seq<Point>>)
    returns (found: seq<(Tile, seq<Point>)>, rest: map<Tile, seq<Point>>)
    ensures Firsts(found) == PresentNeighbors(t, tiles.Keys)
    ensures PairsFrom(found, tiles)
    ensures rest == tiles - Elems(Firsts(found))
  {
    var candidates := Candidates(t);
    found, rest := [], tiles;
    for i := 0 to |candidates|
      invariant Firsts(found) == Present(candidates[..i], tiles.Keys)
      invariant PairsFrom(found, tiles)
      invariant rest == tiles - Elems(Firsts(found))
    {
      var n := candidates[i];
      assert candidates[..i + 1] == candidates[..i] + [n];
      PresentSnoc(candidates[..i], n, tiles.Keys);
      if n in rest {
        PairsSnoc(found, tiles, rest, n);
        found := found + [(n, rest[n])];
        rest := rest - {n};
      }
    }
    assert candidates[..|candidates|] == candidates;
  }

  /**
   * `IndexMap::insert` on a map kept as its list of entries: a new key goes to the end,
   * a key already there keeps its place and takes the new value.
   */
  function Insert<V>(ps: seq<(Tile, V)>, k: Tile, v: V): (r: seq<(Tile, V)>)
    ensures k !in Elems(Firsts(ps)) ==> r == ps + [(k, v)]
    ensures k in Elems(Firsts(ps)) ==> Firsts(r) == Firsts(ps)
    ensures forall j :: 0 <= j < |r| && r[j].0 == k ==> r[j].1 == v
    ensures forall j :: 0 <= j < |ps| && ps[j].0 != k ==> ps[j] in r
  {
    if k in Elems(Firsts(ps)) then
      seq(|ps|, j requires 0 <= j < |ps| => if ps[j].0 == k then (k, v) else ps[j])
    else
      ps + [(k, v)]
  }

  /** In a list of entries without repeated keys, no key occurs before its own position. */
  lemma FreshKey<V>(ps: seq<(Tile, V)>, j: int)
    requires 0 <= j < |ps| && Distinct(Firsts(ps))
    ensures ps[j].0 !in Elems(Firsts(ps[..j]))
  {
    var f := Firsts(ps[..j]);
    forall i | 0 <= i < |f| ensures f[i] != ps[j].0 {
      assert f[i] == ps[i].0 == Firsts(ps)[i];
      assert Firsts(ps)[j] == ps[j].0;
    }
  }

  /**
   * The loop `for (kn, vn) in new_neighbors { to_check.insert(kn, vn) }`: as long as no
   * key repeats, the new entries simply follow the old ones.
   */
  method InsertAll<V>(toCheck: seq<(Tile, V)>, found: seq<(Tile, V)>) returns (r: seq<(Tile, V)>)
    ensures Distinct(Firsts(toCheck + found)) ==> r == toCheck + found
  {
    r := toCheck;
    ghost var target := toCheck + found;
    for i := 0 to |found|
      invariant Distinct(Firsts(target)) ==> r == target[..|toCheck| + i]
    {
      var (kn, vn) := found[i];
      assert target[|toCheck| + i] == (kn, vn);
      if Distinct(Firsts(target)) {
        FreshKey(target, |toCheck| + i);
        assert target[..|toCheck| + i + 1] == target[..|toCheck| + i] + [(kn, vn)];
      }
      r := Insert(r, kn, vn);
    }
    assert target[..|target|] == target;
  }

  /**
   * `cluster_tiles`: consumes `tiles` and returns its 8-connected components with at
   * least `minClusterSize` tiles, each tile with its points.
   */
  method ClusterTiles(tiles: map<Tile, seq<Point>>, minClusterSize: nat)
    returns (clusters: seq<map<Tile, seq<Point>>>)
    ensures IsMapClustering(tiles, minClusterSize, clusters)
  {
    var toVisit := tiles;
    clusters := [];
    MapSweepStart(tiles, minClusterSize);
    while toVisit != map[]
      invariant MapSweepInv(tiles, minClusterSize, toVisit, clusters)
      decreases |toVisit|
    {
      ghost var w := toVisit;
      var kx :| kx in toVisit;
      var vx := toVisit[kx];
      toVisit := toVisit - {kx};
      var cluster := map[kx := vx];
      var toCheck;
      toCheck, toVisit := PopNeighbors(kx, toVisit);
      MapFillBegin(tiles, w, kx, toCheck);
      while toCheck != []
        invariant MapFillInv(tiles, w.Keys, kx, cluster, toCheck, toVisit)
        decreases |toVisit| + |toCheck|
      {
        ghost var stack, seen, rest := toCheck, cluster, toVisit;
        var (kc, vc) := toCheck[|toCheck| - 1];
        toCheck := toCheck[..|toCheck| - 1];
        cluster := cluster[kc := vc];
        var newNeighbors;
        newNeighbors, toVisit := PopNeighbors(kc, toVisit);
        MapFillAdvance(tiles, w.Keys, kx, seen, stack, rest, newNeighbors);
        toCheck := InsertAll(toCheck, newNeighbors);
      }
      MapSweepStep(tiles, minClusterSize, w, clusters, kx, cluster, toVisit);
      if |cluster| >= minClusterSize {
        clusters := clusters + [cluster];
      }
    }
    MapSweepDone(tiles, minClusterSize, clusters);
  }
}
