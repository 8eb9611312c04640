/**
 * What projection computes, independently of how any implementation computes it:
 * per-tile point counts, per-tile point lists, the threshold filter, and how
 * partial results over consecutive batches of the input combine.
 */
module Projection {
  import opened Grid

  /** The tile of every point, in input order. */
  function TilesOf(points: seq<Point>, scalar: real): (r: seq<Tile>)
    ensures |r| == |points|
    ensures forall i :: 0 <= i < |points| ==> r[i] == Quantize(points[i], scalar)
  {
    seq(|points|, i requires 0 <= i < |points| => Quantize(points[i], scalar))
  }

  lemma TilesOfAppend(a: seq<Point>, b: seq<Point>, scalar: real)
    ensures TilesOf(a + b, scalar) == TilesOf(a, scalar) + TilesOf(b, scalar)
  {
  }

  /** `dict.get(t, 0)` on a count map. */
  function Get(counts: map<Tile, nat>, t: Tile): nat
  {
    if t in counts then counts[t] else 0
  }

  /** The number of occurrences of every tile occurring in `tiles`. */
  function CountMap(tiles: seq<Tile>): map<Tile, nat>
  {
    map t | t in Elems(tiles) :: multiset(tiles)[t]
  }

  /** Counting one more tile bumps its entry, starting from zero. */
  lemma CountMapSnoc(tiles: seq<Tile>, t: Tile)
    ensures CountMap(tiles + [t]) == CountMap(tiles)[t := Get(CountMap(tiles), t) + 1]
  {
    var l, r := CountMap(tiles + [t]), CountMap(tiles)[t := Get(CountMap(tiles), t) + 1];
    assert Elems(tiles + [t]) == Elems(tiles) + {t};
    assert multiset(tiles + [t]) == multiset(tiles) + multiset{t};
    assert l.Keys == r.Keys;
    forall u | u in l.Keys ensures l[u] == r[u] {
      if u != t && u !in tiles {
        assert false;
      }
    }
  }

  /** Counting the first `i + 1` points bumps the entry of the tile of point `i`. */
  lemma CountPrefixStep(points: seq<Point>, i: int, scalar: real)
    requires 0 <= i < |points|
    ensures CountMap(TilesOf(points[..i + 1], scalar))
         == CountMap(TilesOf(points[..i], scalar))[Quantize(points[i], scalar) := Get(CountMap(TilesOf(points[..i], scalar)), Quantize(points[i], scalar)) + 1]
  {
    var init, t := points[..i], Quantize(points[i], scalar);
    assert points[..i + 1] == init + [points[i]];
    TilesOfAppend(init, [points[i]], scalar);
    assert TilesOf(points[..i + 1], scalar) == TilesOf(init, scalar) + [t];
    CountMapSnoc(TilesOf(init, scalar), t);
  }

  /** Every count is at least one: only tiles that received a point appear. */
  lemma CountMapPositive(tiles: seq<Tile>)
    ensures forall t :: t in CountMap(tiles) ==> CountMap(tiles)[t] >= 1
  {
  }

  /** Key-wise sums of two count maps: `Counter.update`, and the explicit merge loops. */
  function AddCounts(a: map<Tile, nat>, b: map<Tile, nat>): map<Tile, nat>
  {
    map t | t in a.Keys + b.Keys :: Get(a, t) + Get(b, t)
  }

  /** Counting two parts of the input separately and summing gives the counts of the whole. */
  lemma CountMapAppend(a: seq<Tile>, b: seq<Tile>)
    ensures CountMap(a + b) == AddCounts(CountMap(a), CountMap(b))
  {
    assert Elems(a + b) == Elems(a) + Elems(b);
    assert multiset(a + b) == multiset(a) + multiset(b);
  }

  lemma AddCountsCommutative(a: map<Tile, nat>, b: map<Tile, nat>)
    ensures AddCounts(a, b) == AddCounts(b, a)
  {
  }

  lemma AddCountsAssociative(a: map<Tile, nat>, b: map<Tile, nat>, c: map<Tile, nat>)
    ensures AddCounts(AddCounts(a, b), c) == AddCounts(a, AddCounts(b, c))
  {
    var l, r := AddCounts(AddCounts(a, b), c), AddCounts(a, AddCounts(b, c));
    assert l.Keys == a.Keys + b.Keys + c.Keys == r.Keys;
    forall t | t in l ensures l[t] == r[t] {
      assert Get(AddCounts(a, b), t) == Get(a, t) + Get(b, t);
      assert Get(AddCounts(b, c), t) == Get(b, t) + Get(c, t);
    }
  }

  /** The sum of all values of a count map. */
  ghost function Total(m: map<Tile, nat>): nat
    decreases |m|
  {
    if m == map[] then 0
    else
      var k :| k in m;
      m[k] + Total(m - {k})
  }

  /** The total does not depend on which key is taken first. */
  lemma {:induction false} TotalRemove(m: map<Tile, nat>, k: Tile)
    requires k in m
    ensures Total(m) == m[k] + Total(m - {k})
    decreases |m|
  {
    var j :| j in m && Total(m) == m[j] + Total(m - {j});
    if j != k {
      var mj, mk := m - {j}, m - {k};
      assert |mj| < |m| && |mk| < |m| by {
        assert mj.Keys == m.Keys - {j} && mk.Keys == m.Keys - {k};
      }
      TotalRemove(mj, k);
      TotalRemove(mk, j);
      assert mj - {k} == mk - {j};
    }
  }

  lemma TotalUpdate(m: map<Tile, nat>, k: Tile, v: nat)
    ensures Total(m[k := v]) == Total(m) - Get(m, k) + v
  {
    var m' := m[k := v];
    TotalRemove(m', k);
    assert m' - {k} == m - {k};
    if k in m {
      TotalRemove(m, k);
    } else {
      assert m - {k} == m;
    }
  }

  /** Counting retains the number of observations: the counts sum to the input length. */
  lemma {:induction false} CountMapTotal(tiles: seq<Tile>)
    ensures Total(CountMap(tiles)) == |tiles|
  {
    if tiles == [] {
      assert CountMap(tiles) == map[];
    } else {
      var init, t := tiles[..|tiles| - 1], tiles[|tiles| - 1];
      assert tiles == init + [t];
      CountMapTotal(init);
      CountMapSnoc(init, t);
      TotalUpdate(CountMap(init), t, Get(CountMap(init), t) + 1);
    }
  }

  /** The tiles reached by at least `threshold` points. */
  function Dense(points: seq<Point>, scalar: real, threshold: int): set<Tile>
  {
    var tiles := TilesOf(points, scalar);
    set t | t in Elems(tiles) && multiset(tiles)[t] >= threshold
  }

  /** The keys of a count map whose count reaches the threshold. */
  function Significant(counts: map<Tile, nat>, threshold: int): set<Tile>
  {
    set t | t in counts && counts[t] >= threshold
  }

  /** `Significant` over the keys in `done` only: the partial result of a filter loop. */
  function SignificantAmong(counts: map<Tile, nat>, threshold: int, done: set<Tile>): (r: set<Tile>)
    ensures done == counts.Keys ==> r == Significant(counts, threshold)
  {
    set t | t in done && t in counts && counts[t] >= threshold
  }

  /** Handling one more key of the count map. */
  lemma SignificantAmongStep(counts: map<Tile, nat>, threshold: int, items: set<Tile>, k: Tile)
    requires k in items && items <= counts.Keys
    ensures SignificantAmong(counts, threshold, counts.Keys - (items - {k}))
         == SignificantAmong(counts, threshold, counts.Keys - items) + (if counts[k] >= threshold then {k} else {})
  {
    assert counts.Keys - (items - {k}) == (counts.Keys - items) + {k};
  }

  /** Filtering exact counts by the threshold yields the dense tiles. */
  lemma SignificantCounts(points: seq<Point>, scalar: real, threshold: int)
    ensures Significant(CountMap(TilesOf(points, scalar)), threshold) == Dense(points, scalar, threshold)
    ensures forall t :: t in Dense(points, scalar, threshold) <==>
              exists i :: 0 <= i < |points| && Quantize(points[i], scalar) == t
                          && multiset(TilesOf(points, scalar))[t] >= threshold
  {
    var tiles := TilesOf(points, scalar);
    forall t ensures t in Elems(tiles) <==> exists i :: 0 <= i < |points| && Quantize(points[i], scalar) == t {
      if t in Elems(tiles) {
        var i :| 0 <= i < |tiles| && tiles[i] == t;
      }
    }
  }

  /** The entries of a count map whose count reaches the threshold. */
  function CountsAtLeast(counts: map<Tile, nat>, threshold: int): map<Tile, nat>
  {
    map t | t in counts && counts[t] >= threshold :: counts[t]
  }

  /** `CountsAtLeast` over the keys in `done` only. */
  function CountsAtLeastAmong(counts: map<Tile, nat>, threshold: int, done: set<Tile>): (r: map<Tile, nat>)
    ensures done == counts.Keys ==> r == CountsAtLeast(counts, threshold)
  {
    map t | t in done && t in counts && counts[t] >= threshold :: counts[t]
  }

  lemma CountsAtLeastAmongStep(counts: map<Tile, nat>, threshold: int, items: set<Tile>, k: Tile)
    requires k in items && items <= counts.Keys
    ensures var r := CountsAtLeastAmong(counts, threshold, counts.Keys - items);
      CountsAtLeastAmong(counts, threshold, counts.Keys - (items - {k}))
        == if counts[k] >= threshold then r[k := counts[k]] else r
  {
    assert counts.Keys - (items - {k}) == (counts.Keys - items) + {k};
  }

  /** Filtering exact counts keeps the dense tiles, each with its number of points. */
  lemma CountsAtLeastDense(points: seq<Point>, scalar: real, threshold: int)
    ensures CountsAtLeast(CountMap(TilesOf(points, scalar)), threshold).Keys == Dense(points, scalar, threshold)
    ensures forall t :: t in CountsAtLeast(CountMap(TilesOf(points, scalar)), threshold) ==>
              CountsAtLeast(CountMap(TilesOf(points, scalar)), threshold)[t] == multiset(TilesOf(points, scalar))[t]
  {
    SignificantCounts(points, scalar, threshold);
  }

  // ---------------------------------------------------------------------------
  // The prime variant: every tile keeps the list of its points
  // ---------------------------------------------------------------------------

  /** The points of `points` that fall into tile `t`, in input order. */
  function PointsIn(points: seq<Point>, scalar: real, t: Tile): seq<Point>
  {
    if points == [] then []
    else
      var r := PointsIn(points[..|points| - 1], scalar, t);
      if Quantize(points[|points| - 1], scalar) == t then r + [points[|points| - 1]] else r
  }

  /** A tile's list holds exactly the points of that tile, as many as fall into it. */
  lemma {:induction false} PointsInCount(points: seq<Point>, scalar: real, t: Tile)
    ensures |PointsIn(points, scalar, t)| == multiset(TilesOf(points, scalar))[t]
    ensures forall p :: p in PointsIn(points, scalar, t) <==> p in points && Quantize(p, scalar) == t
    decreases |points|
  {
    if points != [] {
      var init, p := points[..|points| - 1], points[|points| - 1];
      assert points == init + [p];
      TilesOfAppend(init, [p], scalar);
      PointsInCount(init, scalar, t);
    }
  }

  /** Appending one point extends the list of its own tile and of no other. */
  lemma PointsInSnoc(points: seq<Point>, p: Point, scalar: real, t: Tile)
    ensures PointsIn(points + [p], scalar, t)
         == PointsIn(points, scalar, t) + (if Quantize(p, scalar) == t then [p] else [])
  {
    var s := points + [p];
    assert s[..|s| - 1] == points;
    assert s[|s| - 1] == p;
  }

  lemma {:induction false} PointsInAppend(a: seq<Point>, b: seq<Point>, scalar: real, t: Tile)
    ensures PointsIn(a + b, scalar, t) == PointsIn(a, scalar, t) + PointsIn(b, scalar, t)
    decreases |b|
  {
    if b == [] {
      assert a + b == a;
    } else {
      var init, p := b[..|b| - 1], b[|b| - 1];
      var x := if Quantize(p, scalar) == t then [p] else [];
      assert b == init + [p];
      assert a + b == (a + init) + [p];
      PointsInAppend(a, init, scalar, t);
      PointsInSnoc(a + init, p, scalar, t);
      PointsInSnoc(init, p, scalar, t);
      calc {
        PointsIn(a + b, scalar, t);
        PointsIn(a + init, scalar, t) + x;
        (PointsIn(a, scalar, t) + PointsIn(init, scalar, t)) + x;
        PointsIn(a, scalar, t) + (PointsIn(init, scalar, t) + x);
        PointsIn(a, scalar, t) + PointsIn(b, scalar, t);
      }
    }
  }

  /** `dict.get(t, [])` on a point-list map. */
  function GetPoints(m: map<Tile, seq<Point>>, t: Tile): seq<Point>
  {
    if t in m then m[t] else []
  }

  /** Every tile that received a point, with its points in input order. */
  function PointMap(points: seq<Point>, scalar: real): map<Tile, seq<Point>>
  {
    map t | t in Elems(TilesOf(points, scalar)) :: PointsIn(points, scalar, t)
  }

  /** Looking a tile up in the point map gives its points, or nothing for an empty tile. */
  lemma PointMapAt(points: seq<Point>, scalar: real, u: Tile)
    ensures GetPoints(PointMap(points, scalar), u) == PointsIn(points, scalar, u)
  {
    if u !in Elems(TilesOf(points, scalar)) {
      PointsInCount(points, scalar, u);
      assert |PointsIn(points, scalar, u)| == 0;
    }
  }

  /** Listing the first `i + 1` points appends point `i` to its own tile's list. */
  lemma PointPrefixStep(points: seq<Point>, i: int, scalar: real)
    requires 0 <= i < |points|
    ensures PointMap(points[..i + 1], scalar)
         == PointMap(points[..i], scalar)[Quantize(points[i], scalar) := GetPoints(PointMap(points[..i], scalar), Quantize(points[i], scalar)) + [points[i]]]
  {
    assert points[..i + 1] == points[..i] + [points[i]];
    PointMapSnoc(points[..i], scalar, points[i]);
  }

  /** Key-wise concatenation of two point-list maps: the `extend` merge. */
  function ExtendPoints(a: map<Tile, seq<Point>>, b: map<Tile, seq<Point>>): map<Tile, seq<Point>>
  {
    map t | t in a.Keys + b.Keys :: GetPoints(a, t) + GetPoints(b, t)
  }

  /** Point lists of two consecutive parts, extended key-wise, are the point lists of the whole. */
  lemma PointMapAppend(a: seq<Point>, b: seq<Point>, scalar: real)
    ensures PointMap(a + b, scalar) == ExtendPoints(PointMap(a, scalar), PointMap(b, scalar))
  {
    TilesOfAppend(a, b, scalar);
    ElemsAppend(TilesOf(a, scalar), TilesOf(b, scalar));
    var ma, mb := PointMap(a, scalar), PointMap(b, scalar);
    var l, r := PointMap(a + b, scalar), ExtendPoints(ma, mb);
    assert l.Keys == r.Keys;
    forall u | u in l.Keys ensures l[u] == r[u] {
      PointMapAt(a, scalar, u);
      PointMapAt(b, scalar, u);
      calc {
        l[u];
        PointsIn(a + b, scalar, u);
        { PointsInAppend(a, b, scalar, u); }
        PointsIn(a, scalar, u) + PointsIn(b, scalar, u);
        GetPoints(ma, u) + GetPoints(mb, u);
        r[u];
      }
    }
  }

  /** A single point makes a one-entry map. */
  lemma PointMapSingle(p: Point, scalar: real)
    ensures PointMap([p], scalar) == map[Quantize(p, scalar) := [p]]
  {
    var t := Quantize(p, scalar);
    assert TilesOf([p], scalar) == [t];
    assert Elems([t]) == {t};
    assert [] + [p] == [p];
    PointsInSnoc([], p, scalar, t);
    var m := PointMap([p], scalar);
    assert m.Keys == {t};
    assert m[t] == [p];
  }

  /** Appending one point extends its own tile's list and no other. */
  lemma PointMapSnoc(points: seq<Point>, scalar: real, p: Point)
    ensures PointMap(points + [p], scalar)
         == PointMap(points, scalar)[Quantize(p, scalar) := GetPoints(PointMap(points, scalar), Quantize(p, scalar)) + [p]]
  {
    PointMapAppend(points, [p], scalar);
    PointMapSingle(p, scalar);
    ExtendSingle(PointMap(points, scalar), Quantize(p, scalar), p);
  }

  /** Extending by a one-entry map appends to that entry only. */
  lemma ExtendSingle(m: map<Tile, seq<Point>>, t: Tile, p: Point)
    ensures ExtendPoints(m, map[t := [p]]) == m[t := GetPoints(m, t) + [p]]
  {
    var l, r := ExtendPoints(m, map[t := [p]]), m[t := GetPoints(m, t) + [p]];
    assert l.Keys == r.Keys;
    forall u | u in l.Keys ensures l[u] == r[u] {
      if u != t {
        assert GetPoints(map[t := [p]], u) == [];
        assert l[u] == m[u] + [];
      }
    }
  }

  /** The keys of a point-list map whose list reaches the threshold. */
  function LongLists(m: map<Tile, seq<Point>>, threshold: int): map<Tile, seq<Point>>
  {
    map t | t in m && |m[t]| >= threshold :: m[t]
  }

  /** `LongLists` over the keys in `done` only. */
  function LongListsAmong(m: map<Tile, seq<Point>>, threshold: int, done: set<Tile>): (r: map<Tile, seq<Point>>)
    ensures done == m.Keys ==> r == LongLists(m, threshold)
  {
    map t | t in done && t in m && |m[t]| >= threshold :: m[t]
  }

  lemma LongListsAmongStep(m: map<Tile, seq<Point>>, threshold: int, items: set<Tile>, k: Tile)
    requires k in items && items <= m.Keys
    ensures var r := LongListsAmong(m, threshold, m.Keys - items);
      LongListsAmong(m, threshold, m.Keys - (items - {k}))
        == if |m[k]| >= threshold then r[k := m[k]] else r
  {
    assert m.Keys - (items - {k}) == (m.Keys - items) + {k};
  }

  /** The prime projection keeps exactly the dense tiles, each with all of its points. */
  lemma LongListsDense(points: seq<Point>, scalar: real, threshold: int)
    ensures LongLists(PointMap(points, scalar), threshold).Keys == Dense(points, scalar, threshold)
    ensures forall t :: t in LongLists(PointMap(points, scalar), threshold) ==>
              LongLists(PointMap(points, scalar), threshold)[t] == PointsIn(points, scalar, t)
  {
    forall t ensures |PointsIn(points, scalar, t)| == multiset(TilesOf(points, scalar))[t] {
      PointsInCount(points, scalar, t);
    }
  }
}
