/**
 * 2_benchmark_rust/src/raster/lib.rs: sequential RASTER. The Rust functions own or
 * mutably borrow their collections; here a collection that is consumed or changed
 * is passed in and its new value handed back.
 */
module RustLib {
  import opened Grid
  import opened Components
  import opened Projection

  /** `to_tile_counts`: the number of points in every tile that holds at least one. */
  method ToTileCounts(points: seq<Point>, scalar: real) returns (tileCount: map<Tile, nat>)
    ensures tileCount == CountMap(TilesOf(points, scalar))
    ensures forall t :: t in tileCount ==> tileCount[t] >= 1
    ensures Total(tileCount) == |points|
  {
    tileCount := map[];
    for i := 0 to |points|
      invariant tileCount == CountMap(TilesOf(points[..i], scalar))
    {
      var pInt := Quantize(points[i], scalar);
      var count := Get(tileCount, pInt);
      tileCount := tileCount[pInt := count + 1];
      CountPrefixStep(points, i, scalar);
    }
    assert points[..|points|] == points;
    CountMapPositive(TilesOf(points, scalar));
    CountMapTotal(TilesOf(points, scalar));
  }

  /** `map_to_tiles`: the tiles holding at least `threshold` points, and the scalar used. */
  method MapToTiles(points: seq<Point>, precision: int, threshold: nat) returns (tiles: set<Tile>, scalar: real)
    ensures scalar == Scalar(precision)
    ensures tiles == Dense(points, scalar, threshold)
  {
    scalar := Scalar(precision);
    var allTiles := ToTileCounts(points, scalar);
    tiles := Significant(allTiles, threshold);
    SignificantCounts(points, scalar, threshold);
  }

  /** The two points of the mapping tests share the tile (10, 232) at precision 1. */
  lemma MappingTests()
    ensures Scalar(1) == 10.0
    ensures Dense([Point(1.0, 23.22), Point(1.05, 23.28)], 10.0, 2) == {(10, 232)}
    ensures Dense([Point(1.0, 23.22), Point(1.05, 23.28)], 10.0, 3) == {}
  {
    var points := [Point(1.0, 23.22), Point(1.05, 23.28)];
    assert Pow10(1) == 10;
    assert Trunc(10.0) == 10 && Trunc(232.2) == 232 && Trunc(10.5) == 10 && Trunc(232.8) == 232;
    var tiles := TilesOf(points, 10.0);
    assert tiles == [(10, 232), (10, 232)];
    assert multiset(tiles)[(10, 232)] == 2;
    assert Elems(tiles) == {(10, 232)};
  }

  /**
   * `pop_neighbors`: the neighbours of `t` present in `tiles`, in candidate order, and
   * what is left of `tiles` once exactly those are removed.
   */
  method PopNeighbors(t: Tile, tiles: set<Tile>) returns (found: seq<Tile>, rest: set<Tile>)
    ensures found == PresentNeighbors(t, tiles)
    ensures rest == tiles - Elems(found)
  {
    var candidates := Candidates(t);
    found, rest := [], tiles;
    for i := 0 to |candidates|
      invariant found == Present(candidates[..i], tiles)
      invariant rest == tiles - Elems(found)
    {
      var n := candidates[i];
      assert candidates[..i + 1] == candidates[..i] + [n];
      PresentSnoc(candidates[..i], n, tiles);
      if n in rest {
        rest := rest - {n};
        found := found + [n];
      }
    }
    assert candidates[..|candidates|] == candidates;
  }

  /**
   * The neighbour test: of the four tiles, (3, 5), (2, 4) and (1, 4) neighbour (2, 5)
   * and come out in that order; (0, 5) stays.
   */
  lemma NeighborTest()
    ensures PresentNeighbors((2, 5), {(3, 5), (0, 5), (2, 4), (1, 4)}) == [(3, 5), (2, 4), (1, 4)]
    ensures {(3, 5), (0, 5), (2, 4), (1, 4)} - Elems([(3, 5), (2, 4), (1, 4)]) == {(0, 5)}
  {
    var s := {(3, 5), (0, 5), (2, 4), (1, 4)};
    NeighborTestFound(s);
    FoundElems([(3, 5), (2, 4), (1, 4)]);
  }

  lemma NeighborTestFound(s: set<Tile>)
    requires s == {(3, 5), (0, 5), (2, 4), (1, 4)}
    ensures PresentNeighbors((2, 5), s) == [(3, 5), (2, 4), (1, 4)]
  {
    assert (3, 5) in s && (1, 5) !in s && (2, 6) !in s && (2, 4) in s;
    assert (3, 4) !in s && (3, 6) !in s && (1, 4) in s && (1, 6) !in s;
    NeighborTestHead(s);
    assert Candidates((2, 5)) == [(3, 5), (1, 5), (2, 6), (2, 4), (3, 4), (3, 6), (1, 4), (1, 6)];
  }

  lemma FoundElems(f: seq<Tile>)
    requires f == [(3, 5), (2, 4), (1, 4)]
    ensures Elems(f) == {(3, 5), (2, 4), (1, 4)}
  {
    assert f[0] == (3, 5) && f[1] == (2, 4) && f[2] == (1, 4);
  }

  /** The test without neighbours: an empty set yields nothing. */
  lemma NoNeighborsTest(t: Tile)
    ensures PresentNeighbors(t, {}) == []
  {
    ElemsEmpty(PresentNeighbors(t, {}));
  }

  lemma NeighborTestHead(s: set<Tile>)
    requires (3, 5) in s && (1, 5) !in s && (2, 6) !in s && (2, 4) in s
    requires (3, 4) !in s && (3, 6) !in s && (1, 4) in s && (1, 6) !in s
    ensures Present([(3, 5), (1, 5), (2, 6), (2, 4), (3, 4), (3, 6), (1, 4), (1, 6)], s) == [(3, 5), (2, 4), (1, 4)]
  {
    NeighborTestMiddle(s);
    PresentCons((1, 5), [(2, 6), (2, 4), (3, 4), (3, 6), (1, 4), (1, 6)], s);
    PresentCons((3, 5), [(1, 5), (2, 6), (2, 4), (3, 4), (3, 6), (1, 4), (1, 6)], s);
  }

  lemma NeighborTestMiddle(s: set<Tile>)
    requires (2, 6) !in s && (2, 4) in s
    requires (3, 4) !in s && (3, 6) !in s && (1, 4) in s && (1, 6) !in s
    ensures Present([(2, 6), (2, 4), (3, 4), (3, 6), (1, 4), (1, 6)], s) == [(2, 4), (1, 4)]
  {
    NeighborTestTail(s);
    PresentCons((2, 4), [(3, 4), (3, 6), (1, 4), (1, 6)], s);
    PresentCons((2, 6), [(2, 4), (3, 4), (3, 6), (1, 4), (1, 6)], s);
  }

  lemma NeighborTestTail(s: set<Tile>)
    requires (3, 4) !in s && (3, 6) !in s && (1, 4) in s && (1, 6) !in s
    ensures Present([(3, 4), (3, 6), (1, 4), (1, 6)], s) == [(1, 4)]
  {
    PresentCons((1, 6), [], s);
    assert [(1, 6)] + [] == [(1, 6)];
    PresentCons((1, 4), [(1, 6)], s);
    PresentCons((3, 6), [(1, 4), (1, 6)], s);
    PresentCons((3, 4), [(3, 6), (1, 4), (1, 6)], s);
  }

  /**
   * `cluster_tiles`: consumes `tiles` and returns its 8-connected components with at
   * least `minClusterSize` tiles.
   */
  method ClusterTiles(tiles: set<Tile>, minClusterSize: nat) returns (clusters: seq<set<Tile>>)
    ensures IsClustering(tiles, minClusterSize, clusters)
  {
    var toVisit := tiles;
    clusters := [];
    SweepStart(tiles, minClusterSize);
    while toVisit != {}
      invariant SweepInv(tiles, minClusterSize, toVisit, clusters)
      decreases |toVisit|
    {
      ghost var w0 := toVisit;
      var x :| x in toVisit;
      toVisit := toVisit - {x};
      var cluster := {x};
      var toCheck;
      toCheck, toVisit := PopNeighbors(x, toVisit);
      FillBegin(w0, x, toCheck);
      while toCheck != []
        invariant FillInv(w0, x, cluster, Elems(toCheck), toVisit)
        invariant Distinct(toCheck)
        decreases |toVisit| + |toCheck|
      {
        ghost var stack, seen, rest := toCheck, cluster, toVisit;
        var p := toCheck[|toCheck| - 1];
        toCheck := toCheck[..|toCheck| - 1];
        cluster := cluster + {p};
        var newNeighbors;
        newNeighbors, toVisit := PopNeighbors(p, toVisit);
        FillAdvance(w0, x, seen, stack, rest, newNeighbors);
        toCheck := toCheck + newNeighbors;
      }
      SweepStep(tiles, minClusterSize, w0, clusters, x, cluster, toVisit);
      if |cluster| >= minClusterSize {
        clusters := clusters + [cluster];
      }
    }
    SweepDone(tiles, minClusterSize, clusters);
  }

  /** The seven tiles of the clustering test. */
  function TestTiles(): set<Tile>
  {
    {(0, 0), (-1, 0), (-1, -1), (0, -1), (5, 0), (5, 1), (5, 2)}
  }

  /**
   * The clustering test: with a minimum size of 1 the seven tiles form exactly the
   * square of four and the column of three, in whatever order.
   */
  lemma ClusteringTest(cs: seq<set<Tile>>)
    requires IsClustering(TestTiles(), 1, cs)
    ensures multiset(cs) == multiset{{(0, 0), (-1, 0), (-1, -1), (0, -1)}, {(5, 0), (5, 1), (5, 2)}}
  {
    var ab := [{(0, 0), (-1, 0), (-1, -1), (0, -1)}, {(5, 0), (5, 1), (5, 2)}];
    TestClustering(ab);
    ClusteringUnique(TestTiles(), 1, ab, cs);
  }

  lemma TestClustering(ab: seq<set<Tile>>)
    requires ab == [{(0, 0), (-1, 0), (-1, -1), (0, -1)}, {(5, 0), (5, 1), (5, 2)}]
    ensures IsClustering(TestTiles(), 1, ab)
  {
    var s := TestTiles();
    TestComponents(ab[0], ab[1]);
    forall t | t in s ensures InSome(ab, t) {
      if t in ab[0] {
        assert 0 < |ab|;
      } else {
        assert t in ab[1];
      }
    }
  }

  lemma TestComponents(a: set<Tile>, b: set<Tile>)
    requires a == {(0, 0), (-1, 0), (-1, -1), (0, -1)} && b == {(5, 0), (5, 1), (5, 2)}
    ensures IsComponent(a, TestTiles()) && IsComponent(b, TestTiles())
    ensures a !! b && TestTiles() == a + b
  {
    SquareConnected();
    ColumnConnected();
    ClosedApart(a, TestTiles());
    ClosedApart(b, TestTiles());
  }

  /** A part of `s` two columns away from the rest of `s` has no neighbour outside itself. */
  lemma ClosedApart(c: set<Tile>, s: set<Tile>)
    requires forall u, v :: u in c && v in s - c ==> u.0 - v.0 >= 2 || v.0 - u.0 >= 2
    ensures Closed(c, s)
  {
  }

  lemma SquareConnected()
    ensures Connected({(0, 0), (-1, 0), (-1, -1), (0, -1)})
  {
    SingletonConnected((0, 0));
    SingletonConnected((-1, 0));
    SingletonConnected((-1, -1));
    SingletonConnected((0, -1));
    Glue({(0, 0)}, {(-1, 0)}, (0, 0), (-1, 0));
    assert {(0, 0)} + {(-1, 0)} == {(0, 0), (-1, 0)};
    Glue({(0, 0), (-1, 0)}, {(-1, -1)}, (-1, 0), (-1, -1));
    assert {(0, 0), (-1, 0)} + {(-1, -1)} == {(0, 0), (-1, 0), (-1, -1)};
    Glue({(0, 0), (-1, 0), (-1, -1)}, {(0, -1)}, (0, 0), (0, -1));
    assert {(0, 0), (-1, 0), (-1, -1)} + {(0, -1)} == {(0, 0), (-1, 0), (-1, -1), (0, -1)};
  }

  lemma ColumnConnected()
    ensures Connected({(5, 0), (5, 1), (5, 2)})
  {
    SingletonConnected((5, 0));
    SingletonConnected((5, 1));
    SingletonConnected((5, 2));
    Glue({(5, 0)}, {(5, 1)}, (5, 0), (5, 1));
    assert {(5, 0)} + {(5, 1)} == {(5, 0), (5, 1)};
    Glue({(5, 0), (5, 1)}, {(5, 2)}, (5, 1), (5, 2));
    assert {(5, 0), (5, 1)} + {(5, 2)} == {(5, 0), (5, 1), (5, 2)};
  }
}
