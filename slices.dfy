/**
 * The slices of the parallel agglomeration in 2_benchmark_rust/src/raster/par.rs: the
 * tiles are cut into vertical strips, each strip is clustered with the clusters at its
 * edges set apart, and the edge clusters are joined border by border from right to left.
 * This module holds the specifications and the proofs; the methods are in `RustPar`.
 */
module Slices {
  import opened Grid
  import opened Components
  import opened Pieces

  // ---------------------------------------------------------------------------
  // Clustering one slice
  // ---------------------------------------------------------------------------

  /**
   * The clusters found in one slice: the finished ones that touch neither edge, and the
   * ones that touch the left edge only, both edges, or the right edge only.
   */
  datatype Split = Split(inner: seq<set<Tile>>, left: seq<set<Tile>>, both: seq<set<Tile>>, right: seq<set<Tile>>)

  /** All clusters of a split, in one list. */
  function All(sp: Split): seq<set<Tile>>
  {
    sp.inner + sp.left + sp.both + sp.right
  }

  /** `t` lies in a component of `s` with fewer than `m` tiles that touches neither edge. */
  ghost predicate SmallInner(s: set<Tile>, m: int, le: int, re: int, t: Tile)
  {
    exists d :: t in d && IsComponent(d, s) && |d| < m && !Touches(d, le) && !Touches(d, re)
  }

  /** Every cluster of `sp` is a component of `s` apart from `rest`, in the list its edges decide. */
  ghost predicate Sorted(s: set<Tile>, m: int, le: int, re: int, rest: set<Tile>, sp: Split)
  {
    && (forall p :: p in All(sp) ==> IsComponent(p, s) && p !! rest)
    && (forall p :: p in sp.inner ==> |p| >= m && !Touches(p, le) && !Touches(p, re))
    && (forall p :: p in sp.left ==> Touches(p, le) && !Touches(p, re))
    && (forall p :: p in sp.both ==> Touches(p, le) && Touches(p, re))
    && (forall p :: p in sp.right ==> !Touches(p, le) && Touches(p, re))
  }

  /**
   * A correct clustering of the slice `s` between the edge columns `le` and `re`: every
   * component of `s` is in exactly one list, the one its edges decide, except those that
   * touch no edge and have fewer than `m` tiles, which are dropped.
   */
  ghost predicate SliceSplit(s: set<Tile>, m: int, le: int, re: int, sp: Split)
  {
    && Sorted(s, m, le, re, {}, sp)
    && Disjoint(All(sp))
    && (forall t :: t in s ==> t in Union(All(sp)) || SmallInner(s, m, le, re, t))
  }

  /**
   * The outer loop of `cluster_slice`: `rest` is the untouched part of `s`, the part taken
   * out has no neighbour left in `rest` and is covered by the clusters found so far.
   */
  ghost predicate SliceInv(s: set<Tile>, m: int, le: int, re: int, rest: set<Tile>, sp: Split)
  {
    && rest <= s
    && (forall a, b :: a in s - rest && b in rest ==> !Adjacent(a, b))
    && Sorted(s, m, le, re, rest, sp)
    && Disjoint(All(sp))
    && (forall t :: t in s - rest ==> t in Union(All(sp)) || SmallInner(s, m, le, re, t))
  }

  /** Where `cluster_slice` puts a finished cluster `c`. */
  function Place(sp: Split, c: set<Tile>, m: int, le: int, re: int): Split
  {
    if Touches(c, le) && Touches(c, re) then sp.(both := sp.both + [c])
    else if Touches(c, le) then sp.(left := sp.left + [c])
    else if Touches(c, re) then sp.(right := sp.right + [c])
    else if |c| >= m then sp.(inner := sp.inner + [c])
    else sp
  }

  /** The edge flags of a cluster grow with it. */
  lemma TouchesPlus(c: set<Tile>, p: Tile, x: int)
    ensures Touches(c + {p}, x) <==> Touches(c, x) || p.0 == x
  {
    if Touches(c + {p}, x) {
      var t :| t in c + {p} && t.0 == x;
    }
  }

  /** A one-tile cluster lies on the columns of its tile only. */
  lemma TouchesOne(p: Tile, x: int)
    ensures Touches({p}, x) <==> p.0 == x
  {
    if p.0 == x {
      assert p in {p};
    }
  }

  /** Putting a piece that misses all others anywhere into a pairwise disjoint list. */
  lemma DisjointInsert(a: seq<set<Tile>>, b: seq<set<Tile>>, v: set<Tile>)
    requires Disjoint(a + b) && v !! Union(a + b)
    ensures Disjoint(a + [v] + b)
    ensures Union(a + [v] + b) == Union(a + b) + v
  {
    DisjointParts(a, b);
    UnionAppend(a, b);
    DisjointSnoc(a, v);
    UnionAppend(a, [v]);
    UnionSingle(v);
    DisjointAppend(a + [v], b);
    UnionAppend(a + [v], b);
  }

  /** The pieces of `ps` all miss `r`, and so do their tiles. */
  lemma UnionApart(ps: seq<set<Tile>>, r: set<Tile>)
    requires forall p :: p in ps ==> p !! r
    ensures Union(ps) !! r
  {
    forall t | t in Union(ps) ensures t !in r {
      var i :| 0 <= i < |ps| && t in ps[i];
      assert ps[i] in ps;
    }
  }

  /** Where the new piece goes in the list of all clusters. */
  lemma PlaceAll(sp: Split, c: set<Tile>, m: int, le: int, re: int)
    ensures var sp' := Place(sp, c, m, le, re);
      || All(sp') == All(sp)
      || exists a, b :: All(sp) == a + b && All(sp') == a + [c] + b
  {
    var sp' := Place(sp, c, m, le, re);
    var i, l, x, r := sp.inner, sp.left, sp.both, sp.right;
    if Touches(c, le) && Touches(c, re) {
      assert All(sp) == (i + l + x) + r && All(sp') == (i + l + x) + [c] + r;
    } else if Touches(c, le) {
      assert All(sp) == (i + l) + (x + r) && All(sp') == (i + l) + [c] + (x + r);
    } else if Touches(c, re) {
      assert All(sp) == All(sp) + [] && All(sp') == All(sp) + [c] + [];
    } else if |c| >= m {
      assert All(sp) == i + (l + x + r) && All(sp') == i + [c] + (l + x + r);
    }
  }

  /** The tiles of the lists after placing `c`, and their disjointness. */
  lemma PlaceUnion(sp: Split, c: set<Tile>, m: int, le: int, re: int)
    requires Disjoint(All(sp)) && c !! Union(All(sp))
    ensures Disjoint(All(Place(sp, c, m, le, re)))
    ensures Union(All(Place(sp, c, m, le, re))) ==
              Union(All(sp)) + (if All(Place(sp, c, m, le, re)) == All(sp) then {} else c)
  {
    var sp' := Place(sp, c, m, le, re);
    PlaceAll(sp, c, m, le, re);
    if All(sp') != All(sp) {
      var a, b :| All(sp) == a + b && All(sp') == a + [c] + b;
      DisjointInsert(a, b, c);
    }
  }

  /** Placing a component that misses `rest'` keeps every cluster in its right list. */
  lemma SortedPlace(s: set<Tile>, m: int, le: int, re: int, rest: set<Tile>, sp: Split,
                    c: set<Tile>, rest': set<Tile>)
    requires Sorted(s, m, le, re, rest, sp)
    requires IsComponent(c, s) && c !! rest' && rest' <= rest
    ensures Sorted(s, m, le, re, rest', Place(sp, c, m, le, re))
  {
    var sp' := Place(sp, c, m, le, re);
    assert forall p :: p in All(sp') ==> p in All(sp) || p == c;
  }

  /** A flood fill that has run dry is a component of the set it started in. */
  lemma FillComponent(s: set<Tile>, rest: set<Tile>, seed: Tile, visited: set<Tile>, rest': set<Tile>)
    requires rest <= s && (forall a, b :: a in s - rest && b in rest ==> !Adjacent(a, b))
    requires FillInv(rest, seed, visited, {}, rest')
    ensures IsComponent(visited, s)
  {
    forall a, b | a in visited && b in s && Adjacent(a, b)
      ensures b in visited
    {
      AdjacentSymmetric(a, b);
    }
  }

  /** A finished cluster is a component of `s`; placing it keeps the slice invariant. */
  lemma SliceStep(s: set<Tile>, m: int, le: int, re: int, rest: set<Tile>, sp: Split,
                  seed: Tile, visited: set<Tile>, rest': set<Tile>)
    requires SliceInv(s, m, le, re, rest, sp)
    requires FillInv(rest, seed, visited, {}, rest')
    ensures IsComponent(visited, s)
    ensures SliceInv(s, m, le, re, rest', Place(sp, visited, m, le, re))
  {
    FillComponent(s, rest, seed, visited, rest');
    var sp' := Place(sp, visited, m, le, re);
    SortedPlace(s, m, le, re, rest, sp, visited, rest');
    UnionApart(All(sp), rest);
    PlaceUnion(sp, visited, m, le, re);
    var u, u' := Union(All(sp)), Union(All(sp'));
    assert u <= u';
    forall t | t in s - rest'
      ensures t in u' || SmallInner(s, m, le, re, t)
    {
      if t in visited && All(sp') == All(sp) {
        assert SmallInner(s, m, le, re, t);
      }
    }
  }

  lemma SliceStart(s: set<Tile>, m: int, le: int, re: int)
    ensures SliceInv(s, m, le, re, s, Split([], [], [], []))
  {
  }

  lemma SliceDone(s: set<Tile>, m: int, le: int, re: int, sp: Split)
    requires SliceInv(s, m, le, re, {}, sp)
    ensures SliceSplit(s, m, le, re, sp)
  {
  }

  // ---------------------------------------------------------------------------
  // One border between two slices
  // ---------------------------------------------------------------------------

  /** The tiles of all pieces of `ps` lie in `r`. */
  lemma UnionWithin(ps: seq<set<Tile>>, r: set<Tile>)
    requires forall p :: p in ps ==> p <= r
    ensures Union(ps) <= r
  {
    forall t | t in Union(ps) ensures t in r {
      var i :| 0 <= i < |ps| && t in ps[i];
      assert ps[i] in ps;
    }
  }

  /** A tile of the pieces lies in one of them. */
  lemma UnionMember(ps: seq<set<Tile>>, t: Tile) returns (p: set<Tile>)
    requires t in Union(ps)
    ensures p in ps && t in p
  {
    var i :| 0 <= i < |ps| && t in ps[i];
    p := ps[i];
  }

  /** Distinct components of one set never neighbour each other. */
  lemma ComponentsApart(ps: seq<set<Tile>>, s: set<Tile>)
    requires forall p :: p in ps ==> IsComponent(p, s)
    ensures SideApart(ps)
  {
    forall p, q | p in ps && q in ps && p != q
      ensures !Touching(p, q)
    {
      if Touching(p, q) {
        var a, b :| a in p && b in q && Adjacent(a, b);
        assert b in p * q;
        ComponentsMeet(p, q, s);
      }
    }
  }

  /**
   * A component of a part `a` of `s` that has no neighbour in the rest of `s` is a
   * component of `s`.
   */
  lemma ComponentLift(c: set<Tile>, a: set<Tile>, s: set<Tile>)
    requires IsComponent(c, a) && a <= s
    requires forall p, q :: p in c && q in s - a ==> !Adjacent(p, q)
    ensures IsComponent(c, s)
  {
  }

  /** A component of a part of `s` closed within `s` is a component of `s`. */
  lemma ClosedLift(c: set<Tile>, v: set<Tile>, s: set<Tile>)
    requires IsComponent(c, v) && v <= s && Closed(v, s)
    ensures IsComponent(c, s)
  {
  }

  /** The edge clusters of a split, as one set of tiles. */
  ghost function EdgeTiles(sp: Split): set<Tile>
  {
    Union(sp.left + sp.both + sp.right)
  }

  /** How the lists of a pairwise disjoint split relate. */
  lemma SplitParts(sp: Split)
    requires Disjoint(All(sp))
    ensures Disjoint(sp.left) && Disjoint(sp.right + sp.both)
    ensures Union(sp.right + sp.both) == Union(sp.right) + Union(sp.both)
    ensures Union(sp.left) !! Union(sp.right + sp.both)
    ensures Union(sp.inner) !! EdgeTiles(sp)
    ensures EdgeTiles(sp) == Union(sp.left) + Union(sp.both) + Union(sp.right)
    ensures Union(All(sp)) == Union(sp.inner) + EdgeTiles(sp)
  {
    var i, l, x, r := sp.inner, sp.left, sp.both, sp.right;
    DisjointParts(i + l + x, r);
    DisjointParts(i + l, x);
    DisjointParts(i, l);
    UnionAppend(i + l + x, r);
    UnionAppend(i + l, x);
    UnionAppend(i, l);
    DisjointAppend(r, x);
    UnionAppend(r, x);
    assert All(sp) == i + (l + x + r);
    UnionAppend(i, l + x + r);
    UnionAppend(l + x, r);
    UnionAppend(l, x);
  }

  /** A tile in the left edge column lies in a cluster touching the left edge. */
  lemma SliceAtLo(s: set<Tile>, m: int, lo: int, hi: int, sp: Split, t: Tile)
    requires SliceSplit(s, m, lo, hi, sp) && t in s && t.0 == lo
    ensures t in Union(sp.left) || t in Union(sp.both)
  {
    assert !SmallInner(s, m, lo, hi, t);
    var p := UnionMember(All(sp), t);
    assert Touches(p, lo);
    if p in sp.left {
      UnionPiece(sp.left, p);
    } else if p in sp.both {
      UnionPiece(sp.both, p);
    }
  }

  /** A tile in the right edge column lies in a cluster touching the right edge. */
  lemma SliceAtHi(s: set<Tile>, m: int, lo: int, hi: int, sp: Split, t: Tile)
    requires SliceSplit(s, m, lo, hi, sp) && t in s && t.0 == hi
    ensures t in Union(sp.right) || t in Union(sp.both)
  {
    assert !SmallInner(s, m, lo, hi, t);
    var p := UnionMember(All(sp), t);
    assert Touches(p, hi);
    if p in sp.right {
      UnionPiece(sp.right, p);
    } else if p in sp.both {
      UnionPiece(sp.both, p);
    }
  }

  /** The clusters of a split lie within the slice. */
  lemma SplitWithin(s: set<Tile>, m: int, lo: int, hi: int, sp: Split)
    requires SliceSplit(s, m, lo, hi, sp)
    ensures Union(All(sp)) <= s
    ensures EdgeTiles(sp) <= s
  {
    UnionWithin(All(sp), s);
    SplitParts(sp);
  }

  /**
   * The situation at a border: on its left the slice `s` between the columns `lo` and
   * `hi`, correctly clustered into `sp`; on its right all tiles `w` from column `hi + 1`
   * on, and `rs`, components of `w` that cover that column.
   */
  ghost predicate Border(s: set<Tile>, m: int, lo: int, hi: int, sp: Split, w: set<Tile>, rs: seq<set<Tile>>)
  {
    && SliceSplit(s, m, lo, hi, sp) && lo <= hi
    && (forall t :: t in s ==> lo <= t.0 <= hi)
    && (forall t :: t in w ==> t.0 > hi)
    && (forall p :: p in rs ==> IsComponent(p, w))
    && Disjoint(rs)
    && (forall t :: t in w && t.0 == hi + 1 ==> t in Union(rs))
  }

  /** The pieces joined at a border: the clusters of the slice that reach it, against `rs`. */
  function AtBorder(sp: Split, rs: seq<set<Tile>>): Sides
  {
    Sides(sp.right, rs, sp.both)
  }

  /** The tiles of the pieces at a border, side by side. */
  lemma BorderTiles(s: set<Tile>, m: int, lo: int, hi: int, sp: Split, w: set<Tile>, rs: seq<set<Tile>>)
    requires Border(s, m, lo, hi, sp, w, rs)
    ensures s !! w
    ensures Union(rs) <= w
    ensures Union(sp.right + sp.both) <= s
    ensures Whole(AtBorder(sp, rs)) == Union(sp.right) + Union(sp.both) + Union(rs)
    ensures Whole(AtBorder(sp, rs)) <= EdgeTiles(sp) + Union(rs)
    ensures Whole(AtBorder(sp, rs)) * w == Union(rs)
  {
    SplitWithin(s, m, lo, hi, sp);
    SplitParts(sp);
    UnionWithin(rs, w);
    UnionAppend(sp.right + sp.both, rs);
  }

  /** The pieces at a border are as `join_clusters` expects them. */
  lemma BorderReady(s: set<Tile>, m: int, lo: int, hi: int, sp: Split, w: set<Tile>, rs: seq<set<Tile>>)
    requires Border(s, m, lo, hi, sp, w, rs)
    ensures JoinReady(AtBorder(sp, rs))
  {
    BorderTiles(s, m, lo, hi, sp, w, rs);
    SplitParts(sp);
    DisjointAppend(sp.right + sp.both, rs);
    EdgeComponents(s, m, lo, hi, sp);
    ComponentsApart(sp.right + sp.both, s);
    ComponentsApart(rs, w);
    PiecesConnected(sp.right + sp.both, rs, s, w);
  }

  /** The clusters set aside at the right edge are components of the slice. */
  lemma EdgeComponents(s: set<Tile>, m: int, lo: int, hi: int, sp: Split)
    requires SliceSplit(s, m, lo, hi, sp)
    ensures forall p :: p in sp.right + sp.both ==> IsComponent(p, s)
  {
    forall p | p in sp.right + sp.both ensures IsComponent(p, s) {
      assert p in All(sp);
    }
  }

  /** Components on either side of a border are non-empty and connected. */
  lemma PiecesConnected(ps: seq<set<Tile>>, rs: seq<set<Tile>>, s: set<Tile>, w: set<Tile>)
    requires forall p :: p in ps ==> IsComponent(p, s)
    requires forall p :: p in rs ==> IsComponent(p, w)
    ensures forall p :: p in ps + rs ==> p != {} && Connected(p)
  {
  }

  /** No tile of the pieces at a border has a neighbour outside them, on either side. */
  lemma BorderClosed(s: set<Tile>, m: int, lo: int, hi: int, sp: Split, w: set<Tile>, rs: seq<set<Tile>>)
    requires Border(s, m, lo, hi, sp, w, rs)
    ensures Whole(AtBorder(sp, rs)) <= s + w
    ensures Closed(Whole(AtBorder(sp, rs)), s + w)
  {
    var v := Whole(AtBorder(sp, rs));
    BorderTiles(s, m, lo, hi, sp, w, rs);
    SplitParts(sp);
    forall a, b | a in v && b in s + w && Adjacent(a, b)
      ensures b in v
    {
      if a in Union(rs) {
        var p := UnionMember(rs, a);
        if b in w {
          assert b in p;
          UnionPiece(rs, p);
        } else {
          SliceAtHi(s, m, lo, hi, sp, b);
        }
      } else {
        var p := UnionMember(sp.right + sp.both, a);
        assert p in All(sp);
        if b in s {
          assert b in p;
          UnionPiece(sp.right + sp.both, p);
        }
      }
    }
  }

  /** `t` lies in a component of `s` with fewer than `m` tiles that does not reach column `lo`. */
  ghost predicate SmallFar(s: set<Tile>, m: int, lo: int, t: Tile)
  {
    exists d :: t in d && IsComponent(d, s) && |d| < m && !Touches(d, lo)
  }

  /**
   * A component of the pieces at a border without a tile of a `both` cluster is a
   * component of the tiles from the slice on, and does not reach its left edge.
   */
  lemma FarFromLo(s: set<Tile>, m: int, lo: int, hi: int, sp: Split, w: set<Tile>, rs: seq<set<Tile>>,
                  c: set<Tile>)
    requires Border(s, m, lo, hi, sp, w, rs)
    requires IsComponent(c, Whole(AtBorder(sp, rs))) && c !! Union(sp.both)
    ensures IsComponent(c, s + w) && !Touches(c, lo)
  {
    BorderClosed(s, m, lo, hi, sp, w, rs);
    BorderTiles(s, m, lo, hi, sp, w, rs);
    ClosedLift(c, Whole(AtBorder(sp, rs)), s + w);
    forall t | t in c ensures t.0 != lo {
      if t in Union(sp.right) {
        RightNotLo(s, m, lo, hi, sp, t);
      }
    }
  }

  /** No tile of a cluster touching only the right edge is in the left edge column. */
  lemma RightNotLo(s: set<Tile>, m: int, lo: int, hi: int, sp: Split, t: Tile)
    requires SliceSplit(s, m, lo, hi, sp) && t in Union(sp.right)
    ensures t.0 != lo
  {
    var p := UnionMember(sp.right, t);
    assert !Touches(p, lo);
  }

  /** The finished clusters of the join at a border. */
  lemma BorderFinished(s: set<Tile>, m: int, lo: int, hi: int, sp: Split, w: set<Tile>, rs: seq<set<Tile>>,
                       cs: seq<set<Tile>>, tr: seq<set<Tile>>)
    requires Border(s, m, lo, hi, sp, w, rs)
    requires IsJoin(AtBorder(sp, rs), m, cs, tr)
    ensures forall c :: c in cs ==> IsComponent(c, s + w) && !Touches(c, lo) && |c| >= m
    ensures Disjoint(cs) && Disjoint(tr) && Union(cs) !! Union(tr)
    ensures Union(cs) <= Whole(AtBorder(sp, rs)) && Union(tr) <= Whole(AtBorder(sp, rs))
  {
    var v := Whole(AtBorder(sp, rs));
    forall c | c in cs ensures IsComponent(c, s + w) && !Touches(c, lo) && |c| >= m {
      var i :| 0 <= i < |cs| && cs[i] == c;
      FarFromLo(s, m, lo, hi, sp, w, rs, c);
    }
    DisjointParts(cs, tr);
    UnionWithin(cs, v);
    UnionWithin(tr, v);
  }

  /** The clusters that go on from a border: those of the slice at its left edge, and `tr`. */
  lemma BorderTransient(s: set<Tile>, m: int, lo: int, hi: int, sp: Split, w: set<Tile>, rs: seq<set<Tile>>,
                        cs: seq<set<Tile>>, tr: seq<set<Tile>>)
    requires Border(s, m, lo, hi, sp, w, rs)
    requires IsJoin(AtBorder(sp, rs), m, cs, tr)
    ensures forall p :: p in sp.left + tr ==> IsComponent(p, s + w)
    ensures Disjoint(sp.left + tr)
    ensures Union(sp.left + tr) <= EdgeTiles(sp) + Union(rs)
    ensures Union(cs) !! Union(sp.left + tr)
  {
    LeftLift(s, m, lo, hi, sp, w, rs);
    TransientLift(s, m, lo, hi, sp, w, rs, cs, tr);
    BorderTiles(s, m, lo, hi, sp, w, rs);
    BorderFinished(s, m, lo, hi, sp, w, rs, cs, tr);
    SplitParts(sp);
    SplitWithin(s, m, lo, hi, sp);
    assert Union(sp.left) <= s;
    DisjointAppend(sp.left, tr);
    UnionAppend(sp.left, tr);
  }

  /** The clusters at the left edge of a slice stay components once the tiles right of it are added. */
  lemma LeftLift(s: set<Tile>, m: int, lo: int, hi: int, sp: Split, w: set<Tile>, rs: seq<set<Tile>>)
    requires Border(s, m, lo, hi, sp, w, rs)
    ensures forall p :: p in sp.left ==> IsComponent(p, s + w)
  {
    BorderTiles(s, m, lo, hi, sp, w, rs);
    SplitWithin(s, m, lo, hi, sp);
    forall p | p in sp.left ensures IsComponent(p, s + w) {
      assert p in All(sp);
      assert s + w - s == w;
      ComponentLift(p, s, s + w);
    }
  }

  /** The pieces that go on from a join at a border are components of both sides together. */
  lemma TransientLift(s: set<Tile>, m: int, lo: int, hi: int, sp: Split, w: set<Tile>, rs: seq<set<Tile>>,
                      cs: seq<set<Tile>>, tr: seq<set<Tile>>)
    requires Border(s, m, lo, hi, sp, w, rs)
    requires IsJoin(AtBorder(sp, rs), m, cs, tr)
    ensures forall p :: p in tr ==> IsComponent(p, s + w)
  {
    var v := Whole(AtBorder(sp, rs));
    BorderClosed(s, m, lo, hi, sp, w, rs);
    forall p | p in tr ensures IsComponent(p, s + w) {
      ClosedLift(p, v, s + w);
    }
  }

  /** The left edge column of the slice is covered by the clusters that go on. */
  lemma BorderColumn(s: set<Tile>, m: int, lo: int, hi: int, sp: Split, w: set<Tile>, rs: seq<set<Tile>>,
                     cs: seq<set<Tile>>, tr: seq<set<Tile>>)
    requires Border(s, m, lo, hi, sp, w, rs)
    requires IsJoin(AtBorder(sp, rs), m, cs, tr)
    ensures forall t :: t in s + w && t.0 == lo ==> t in Union(sp.left + tr)
  {
    var v, x := Whole(AtBorder(sp, rs)), Union(sp.both);
    BorderTiles(s, m, lo, hi, sp, w, rs);
    UnionAppend(sp.left, tr);
    forall t | t in s + w && t.0 == lo
      ensures t in Union(sp.left) + Union(tr)
    {
      SliceAtLo(s, m, lo, hi, sp, t);
      if t in x {
        assert t in v;
        assert !SmallApart(v, m, x, t);
        var i :| 0 <= i < |cs + tr| && t in (cs + tr)[i];
        assert tr[i - |cs|] == (cs + tr)[i];
        UnionPiece(tr, tr[i - |cs|]);
      }
    }
  }

  /** Every tile at a border is in a cluster that goes on, a finished one, or a small one. */
  lemma BorderCover(s: set<Tile>, m: int, lo: int, hi: int, sp: Split, w: set<Tile>, rs: seq<set<Tile>>,
                    cs: seq<set<Tile>>, tr: seq<set<Tile>>)
    requires Border(s, m, lo, hi, sp, w, rs)
    requires IsJoin(AtBorder(sp, rs), m, cs, tr)
    ensures forall t :: t in Whole(AtBorder(sp, rs)) - Union(tr) ==> t in Union(cs) || SmallFar(s + w, m, lo, t)
  {
    var v, x := Whole(AtBorder(sp, rs)), Union(sp.both);
    forall t | t in v - Union(tr)
      ensures t in Union(cs) || SmallFar(s + w, m, lo, t)
    {
      if SmallApart(v, m, x, t) {
        var d :| t in d && IsComponent(d, v) && |d| < m && d !! x;
        FarFromLo(s, m, lo, hi, sp, w, rs, d);
      } else {
        var i :| 0 <= i < |cs + tr| && t in (cs + tr)[i];
        if i < |cs| {
          UnionPiece(cs, cs[i]);
        }
      }
    }
  }

  // ---------------------------------------------------------------------------
  // All slices
  // ---------------------------------------------------------------------------

  /** A vertical slice: the tiles with columns from `lo` to `hi`. */
  datatype Slice = Slice(lo: int, tiles: set<Tile>, hi: int)

  /** Slices side by side from left to right, each tile within the columns of its slice. */
  ghost predicate ValidSlices(sl: seq<Slice>)
  {
    && (forall i :: 0 <= i < |sl| ==> sl[i].lo <= sl[i].hi)
    && (forall i :: 0 < i < |sl| ==> sl[i].lo == sl[i - 1].hi + 1)
    && (forall i, t :: 0 <= i < |sl| && t in sl[i].tiles ==> sl[i].lo <= t.0 <= sl[i].hi)
  }

  /** The tiles of slice `k` and of all slices to its right. */
  ghost function Tiles(sl: seq<Slice>, k: nat): set<Tile>
    decreases |sl| - k
  {
    if k >= |sl| then {} else sl[k].tiles + Tiles(sl, k + 1)
  }

  /** The tiles of the edge clusters of slice `k` and of all slices to its right. */
  ghost function Edges(sps: seq<Split>, k: nat): set<Tile>
    decreases |sps| - k
  {
    if k >= |sps| then {} else EdgeTiles(sps[k]) + Edges(sps, k + 1)
  }

  /** Every slice is correctly clustered into the split of the same index. */
  ghost predicate SplitsOf(sl: seq<Slice>, sps: seq<Split>, m: int)
  {
    && |sps| == |sl|
    && (forall i :: 0 <= i < |sl| ==> SliceSplit(sl[i].tiles, m, sl[i].lo, sl[i].hi, sps[i]))
  }

  /** One more slice, clustered into one more split. */
  lemma SplitsSnoc(sl: seq<Slice>, sps: seq<Split>, m: int, s: Slice, sp: Split)
    requires SplitsOf(sl, sps, m) && SliceSplit(s.tiles, m, s.lo, s.hi, sp)
    ensures SplitsOf(sl + [s], sps + [sp], m)
  {
    forall i | 0 <= i < |sl| + 1
      ensures SliceSplit((sl + [s])[i].tiles, m, (sl + [s])[i].lo, (sl + [s])[i].hi, (sps + [sp])[i])
    {
      if i < |sl| {
        assert (sl + [s])[i] == sl[i] && (sps + [sp])[i] == sps[i];
      }
    }
  }

  /** A slice lies wholly to the left of every later one. */
  lemma {:induction false} SliceOrder(sl: seq<Slice>, i: int, j: int)
    requires ValidSlices(sl) && 0 <= i < j < |sl|
    ensures sl[i].hi < sl[j].lo
    decreases j - i
  {
    if i + 1 < j {
      SliceOrder(sl, i, j - 1);
    }
  }

  lemma {:induction false} TilesMember(sl: seq<Slice>, k: nat, t: Tile)
    ensures t in Tiles(sl, k) <==> exists j :: k <= j < |sl| && t in sl[j].tiles
    decreases |sl| - k
  {
    if k < |sl| {
      TilesMember(sl, k + 1, t);
    }
  }

  /** The tiles from slice `k` on lie right of the slices before it, and among all tiles. */
  lemma TilesPlace(sl: seq<Slice>, k: nat, t: Tile)
    requires ValidSlices(sl) && k < |sl|
    ensures t in Tiles(sl, k) ==> t in Tiles(sl, 0) && t.0 >= sl[k].lo
    ensures t in Tiles(sl, 0) - Tiles(sl, k) ==> t.0 < sl[k].lo
  {
    TilesMember(sl, k, t);
    TilesMember(sl, 0, t);
    if t in Tiles(sl, k) {
      var j :| k <= j < |sl| && t in sl[j].tiles;
      if k < j {
        SliceOrder(sl, k, j);
      }
    }
    if t in Tiles(sl, 0) - Tiles(sl, k) {
      var j :| 0 <= j < |sl| && t in sl[j].tiles;
      SliceOrder(sl, j, k);
    }
  }

  /**
   * A component of the tiles from slice `k` on that does not reach the left edge of
   * slice `k` is a component of all tiles.
   */
  lemma LiftToAll(sl: seq<Slice>, k: nat, c: set<Tile>)
    requires ValidSlices(sl) && k < |sl|
    requires IsComponent(c, Tiles(sl, k)) && !Touches(c, sl[k].lo)
    ensures IsComponent(c, Tiles(sl, 0))
  {
    forall t ensures t in Tiles(sl, k) ==> t in Tiles(sl, 0) && t.0 >= sl[k].lo
                 ensures t in Tiles(sl, 0) - Tiles(sl, k) ==> t.0 < sl[k].lo {
      TilesPlace(sl, k, t);
    }
    ComponentLift(c, Tiles(sl, k), Tiles(sl, 0));
  }

  /** The clusters of every slice lie within its tiles. */
  lemma SplitsWithin(sl: seq<Slice>, sps: seq<Split>, m: int)
    requires SplitsOf(sl, sps, m)
    ensures forall i :: 0 <= i < |sl| ==> EdgeTiles(sps[i]) <= sl[i].tiles && Union(All(sps[i])) <= sl[i].tiles
  {
    forall i | 0 <= i < |sl|
      ensures EdgeTiles(sps[i]) <= sl[i].tiles && Union(All(sps[i])) <= sl[i].tiles
    {
      SplitWithin(sl[i].tiles, m, sl[i].lo, sl[i].hi, sps[i]);
    }
  }

  /** The edge clusters of the slices from `k` on lie within their tiles. */
  lemma {:induction false} EdgesWithin(sl: seq<Slice>, sps: seq<Split>, k: nat)
    requires |sps| == |sl|
    requires forall i :: 0 <= i < |sl| ==> EdgeTiles(sps[i]) <= sl[i].tiles
    ensures Edges(sps, k) <= Tiles(sl, k)
    decreases |sl| - k
  {
    if k < |sl| {
      EdgesWithin(sl, sps, k + 1);
    }
  }

  /**
   * `rs` are components of `w`, pairwise disjoint, that cover the column `lo` and lie
   * within the edge tiles `e`.
   */
  ghost predicate Reaching(w: set<Tile>, lo: int, rs: seq<set<Tile>>, e: set<Tile>)
  {
    && (forall p :: p in rs ==> IsComponent(p, w))
    && Disjoint(rs)
    && (forall t :: t in w && t.0 == lo ==> t in Union(rs))
    && Union(rs) <= e
  }

  /** `joined` are pairwise disjoint clusters of `u` within `e`, apart from `rs`. */
  ghost predicate Finished(m: int, u: set<Tile>, e: set<Tile>, rs: seq<set<Tile>>, joined: seq<set<Tile>>)
  {
    && (forall p :: p in joined ==> IsComponent(p, u) && |p| >= m && p <= e)
    && Disjoint(joined) && Union(joined) !! Union(rs)
  }

  /** Every tile of `e` outside `rs` is in `joined` or in a component of `u` that is too small. */
  ghost predicate Covered(m: int, u: set<Tile>, e: set<Tile>, rs: seq<set<Tile>>, joined: seq<set<Tile>>)
  {
    forall t :: t in e - Union(rs) ==> t in Union(joined) || InSmall(u, m, t)
  }

  /**
   * The joining after border `k` (between slices `k - 1` and `k`) has been handled:
   * `sps[k].left + trans` are the components of the tiles from slice `k` on that reach
   * its left edge; `joined` are finished clusters of all tiles; and every edge tile from
   * slice `k` on is in one of them or in a component of all tiles that is too small.
   */
  ghost predicate Stage(sl: seq<Slice>, sps: seq<Split>, m: int, k: nat, trans: seq<set<Tile>>,
                        joined: seq<set<Tile>>)
  {
    && k < |sl| && |sps| == |sl|
    && Reaching(Tiles(sl, k), sl[k].lo, sps[k].left + trans, Edges(sps, k))
    && Finished(m, Tiles(sl, 0), Edges(sps, k), sps[k].left + trans, joined)
    && Covered(m, Tiles(sl, 0), Edges(sps, k), sps[k].left + trans, joined)
  }

  /** A cluster set aside at the right edge has a tile in that column. */
  lemma ReachesHi(s: set<Tile>, m: int, lo: int, hi: int, sp: Split)
    requires SliceSplit(s, m, lo, hi, sp) && (sp.both != [] || sp.right != [])
    ensures exists t :: t in s && t.0 == hi
  {
    var c := if sp.both != [] then sp.both[0] else sp.right[0];
    assert c in All(sp);
    var t :| t in c && t.0 == hi;
    assert t in s;
  }

  /** Nothing reaches the right edge of the last slice: the joining starts there. */
  lemma StageStart(sl: seq<Slice>, sps: seq<Split>, m: int)
    requires ValidSlices(sl) && SplitsOf(sl, sps, m) && |sl| >= 1
    requires sps[|sl| - 1].both == [] && sps[|sl| - 1].right == []
    ensures Stage(sl, sps, m, |sl| - 1, [], [])
  {
    var k := |sl| - 1;
    var s, sp := sl[k].tiles, sps[k];
    assert Tiles(sl, k) == s;
    assert Edges(sps, k) == EdgeTiles(sp);
    SplitParts(sp);
    assert sp.left + [] == sp.left;
    forall p | p in sp.left ensures IsComponent(p, s) {
      assert p in All(sp);
    }
    forall t | t in s && t.0 == sl[k].lo ensures t in Union(sp.left) {
      SliceAtLo(s, m, sl[k].lo, sl[k].hi, sp, t);
    }
    SplitWithin(s, m, sl[k].lo, sl[k].hi, sp);
  }

  /** The border left of slice `k` is in the situation `Border` describes. */
  lemma StageBorder(sl: seq<Slice>, sps: seq<Split>, m: int, k: nat, trans: seq<set<Tile>>,
                    joined: seq<set<Tile>>)
    requires ValidSlices(sl) && SplitsOf(sl, sps, m) && 1 <= k
    requires Stage(sl, sps, m, k, trans, joined)
    ensures Border(sl[k - 1].tiles, m, sl[k - 1].lo, sl[k - 1].hi, sps[k - 1], Tiles(sl, k), sps[k].left + trans)
    ensures Tiles(sl, k - 1) == sl[k - 1].tiles + Tiles(sl, k)
    ensures Edges(sps, k - 1) == EdgeTiles(sps[k - 1]) + Edges(sps, k)
  {
    forall t | t in Tiles(sl, k) ensures t.0 > sl[k - 1].hi {
      TilesPlace(sl, k, t);
    }
  }

  /** Components of `a` that do not reach column `lo` are components of `u`. */
  ghost predicate Lifts(a: set<Tile>, lo: int, u: set<Tile>)
  {
    forall c :: IsComponent(c, a) && !Touches(c, lo) ==> IsComponent(c, u)
  }

  /** After the join at a border, the clusters that go on reach the slice's left edge. */
  lemma BorderReaching(s: set<Tile>, m: int, lo: int, hi: int, sp: Split, w: set<Tile>, rs: seq<set<Tile>>,
                       e: set<Tile>, cs: seq<set<Tile>>, tr: seq<set<Tile>>)
    requires Border(s, m, lo, hi, sp, w, rs) && Union(rs) <= e
    requires IsJoin(AtBorder(sp, rs), m, cs, tr)
    ensures Reaching(s + w, lo, sp.left + tr, EdgeTiles(sp) + e)
  {
    BorderTransient(s, m, lo, hi, sp, w, rs, cs, tr);
    BorderColumn(s, m, lo, hi, sp, w, rs, cs, tr);
  }

  /** Two lists of finished clusters apart from each other and from `rs` make one. */
  lemma FinishedJoin(m: int, u: set<Tile>, e: set<Tile>, rs: seq<set<Tile>>,
                     joined: seq<set<Tile>>, cs: seq<set<Tile>>)
    requires forall p :: p in joined ==> IsComponent(p, u) && |p| >= m && p <= e
    requires forall p :: p in cs ==> IsComponent(p, u) && |p| >= m && p <= e
    requires Disjoint(joined) && Disjoint(cs) && Union(joined) !! Union(cs)
    requires Union(joined) !! Union(rs) && Union(cs) !! Union(rs)
    ensures Finished(m, u, e, rs, joined + cs)
  {
    DisjointAppend(joined, cs);
    UnionAppend(joined, cs);
  }

  /** After the join at a border, its finished clusters join the finished ones. */
  lemma BorderFinishedStep(s: set<Tile>, m: int, lo: int, hi: int, sp: Split, w: set<Tile>, rs: seq<set<Tile>>,
                           e: set<Tile>, u: set<Tile>, joined: seq<set<Tile>>, cs: seq<set<Tile>>, tr: seq<set<Tile>>)
    requires Border(s, m, lo, hi, sp, w, rs) && Union(rs) <= e <= w
    requires IsJoin(AtBorder(sp, rs), m, cs, tr)
    requires Finished(m, u, e, rs, joined) && Lifts(s + w, lo, u)
    ensures Finished(m, u, EdgeTiles(sp) + e, sp.left + tr, joined + cs)
  {
    var v, e', rs' := Whole(AtBorder(sp, rs)), EdgeTiles(sp) + e, sp.left + tr;
    BorderTiles(s, m, lo, hi, sp, w, rs);
    BorderFinished(s, m, lo, hi, sp, w, rs, cs, tr);
    BorderTransient(s, m, lo, hi, sp, w, rs, cs, tr);
    forall c | c in cs ensures IsComponent(c, u) && |c| >= m && c <= e' {
      UnionPiece(cs, c);
    }
    UnionWithin(joined, e);
    SplitWithin(s, m, lo, hi, sp);
    SplitParts(sp);
    UnionAppend(sp.left, tr);
    assert Union(joined) !! v;
    assert Union(joined) !! Union(rs');
    FinishedJoin(m, u, e', rs', joined, cs);
  }

  /** After the join at a border, every edge tile outside the clusters that go on is covered. */
  lemma BorderCovered(s: set<Tile>, m: int, lo: int, hi: int, sp: Split, w: set<Tile>, rs: seq<set<Tile>>,
                      e: set<Tile>, u: set<Tile>, joined: seq<set<Tile>>, cs: seq<set<Tile>>, tr: seq<set<Tile>>)
    requires Border(s, m, lo, hi, sp, w, rs)
    requires IsJoin(AtBorder(sp, rs), m, cs, tr)
    requires Covered(m, u, e, rs, joined) && Lifts(s + w, lo, u)
    ensures Covered(m, u, EdgeTiles(sp) + e, sp.left + tr, joined + cs)
  {
    var v := Whole(AtBorder(sp, rs));
    BorderTiles(s, m, lo, hi, sp, w, rs);
    BorderCover(s, m, lo, hi, sp, w, rs, cs, tr);
    SplitParts(sp);
    UnionAppend(joined, cs);
    UnionAppend(sp.left, tr);
    forall t | t in EdgeTiles(sp) + e - Union(sp.left + tr)
      ensures t in Union(joined + cs) || InSmall(u, m, t)
    {
      if t in v {
        if SmallFar(s + w, m, lo, t) {
          var d :| t in d && IsComponent(d, s + w) && |d| < m && !Touches(d, lo);
          assert IsComponent(d, u);
        }
      }
    }
  }

  /** The joining at border `k` leads from stage `k` to stage `k - 1`. */
  lemma StageStep(sl: seq<Slice>, sps: seq<Split>, m: int, k: nat, trans: seq<set<Tile>>,
                  joined: seq<set<Tile>>, cs: seq<set<Tile>>, tr: seq<set<Tile>>)
    requires ValidSlices(sl) && SplitsOf(sl, sps, m) && 1 <= k
    requires Stage(sl, sps, m, k, trans, joined)
    requires IsJoin(AtBorder(sps[k - 1], sps[k].left + trans), m, cs, tr)
    ensures Stage(sl, sps, m, k - 1, tr, joined + cs)
  {
    var s, lo, hi, sp := sl[k - 1].tiles, sl[k - 1].lo, sl[k - 1].hi, sps[k - 1];
    var w, rs, e, u := Tiles(sl, k), sps[k].left + trans, Edges(sps, k), Tiles(sl, 0);
    StageBorder(sl, sps, m, k, trans, joined);
    SplitsWithin(sl, sps, m);
    EdgesWithin(sl, sps, k);
    forall c | IsComponent(c, s + w) && !Touches(c, lo) ensures IsComponent(c, u) {
      LiftToAll(sl, k - 1, c);
    }
    BorderReaching(s, m, lo, hi, sp, w, rs, e, cs, tr);
    BorderFinishedStep(s, m, lo, hi, sp, w, rs, e, u, joined, cs, tr);
    BorderCovered(s, m, lo, hi, sp, w, rs, e, u, joined, cs, tr);
  }

  /** The pieces at border `k` are as `join_clusters` expects them. */
  lemma StageReady(sl: seq<Slice>, sps: seq<Split>, m: int, k: nat, trans: seq<set<Tile>>,
                   joined: seq<set<Tile>>)
    requires ValidSlices(sl) && SplitsOf(sl, sps, m) && 1 <= k
    requires Stage(sl, sps, m, k, trans, joined)
    ensures JoinReady(AtBorder(sps[k - 1], sps[k].left + trans))
  {
    StageBorder(sl, sps, m, k, trans, joined);
    BorderReady(sl[k - 1].tiles, m, sl[k - 1].lo, sl[k - 1].hi, sps[k - 1], Tiles(sl, k), sps[k].left + trans);
  }

  // ---------------------------------------------------------------------------
  // The result
  // ---------------------------------------------------------------------------

  /** The finished clusters of all slices, slice after slice. */
  function Inner(sps: seq<Split>): seq<set<Tile>>
  {
    if sps == [] then [] else Inner(sps[..|sps| - 1]) + sps[|sps| - 1].inner
  }

  lemma {:induction false} EdgesMember(sps: seq<Split>, k: nat, t: Tile)
    ensures t in Edges(sps, k) <==> exists j :: k <= j < |sps| && t in EdgeTiles(sps[j])
    decreases |sps| - k
  {
    if k < |sps| {
      EdgesMember(sps, k + 1, t);
    }
  }

  /**
   * A component of one slice that touches neither of its edges is a component of all
   * tiles.
   */
  lemma InnerLift(sl: seq<Slice>, j: int, c: set<Tile>)
    requires ValidSlices(sl) && 0 <= j < |sl|
    requires IsComponent(c, sl[j].tiles) && !Touches(c, sl[j].lo) && !Touches(c, sl[j].hi)
    ensures IsComponent(c, Tiles(sl, 0))
  {
    var s, u := sl[j].tiles, Tiles(sl, 0);
    TilesMember(sl, 0, (0, 0));
    forall t | t in s ensures t in u {
      TilesMember(sl, 0, t);
    }
    forall p, q | p in c && q in u - s
      ensures !Adjacent(p, q)
    {
      TilesMember(sl, 0, q);
      var i :| 0 <= i < |sl| && q in sl[i].tiles;
      if i < j {
        SliceOrder(sl, i, j);
      } else if j < i {
        SliceOrder(sl, j, i);
      }
    }
    ComponentLift(c, s, u);
  }

  /** The clusters of slice `i` meet no edge cluster of slice `k` or of any slice after it. */
  lemma {:induction false} InnerApart(sl: seq<Slice>, sps: seq<Split>, i: int, k: nat)
    requires ValidSlices(sl) && |sps| == |sl| && 0 <= i < |sl|
    requires forall j :: 0 <= j < |sl| ==> EdgeTiles(sps[j]) <= sl[j].tiles
    requires Union(sps[i].inner) <= sl[i].tiles && Union(sps[i].inner) !! EdgeTiles(sps[i])
    ensures Union(sps[i].inner) !! Edges(sps, k)
    decreases |sps| - k
  {
    if k < |sps| {
      InnerApart(sl, sps, i, k + 1);
      if k != i {
        forall t | t in Union(sps[i].inner) ensures t !in EdgeTiles(sps[k]) {
          OtherSlice(sl, sps, i, k, t);
        }
      }
    }
  }

  /** A tile of slice `i` is in no edge cluster of another slice. */
  lemma OtherSlice(sl: seq<Slice>, sps: seq<Split>, i: int, j: int, t: Tile)
    requires ValidSlices(sl) && |sps| == |sl| && 0 <= i < |sl| && 0 <= j < |sl| && i != j
    requires EdgeTiles(sps[j]) <= sl[j].tiles && t in sl[i].tiles
    ensures t !in EdgeTiles(sps[j])
  {
    if i < j {
      SliceOrder(sl, i, j);
    } else {
      SliceOrder(sl, j, i);
    }
  }

  /** What the split of every slice says about its finished clusters. */
  lemma SplitsInner(sl: seq<Slice>, sps: seq<Split>, m: int)
    requires ValidSlices(sl) && SplitsOf(sl, sps, m)
    ensures forall i :: 0 <= i < |sl| ==>
      Disjoint(sps[i].inner) && Union(sps[i].inner) <= sl[i].tiles && Union(sps[i].inner) !! Edges(sps, 0)
  {
    SplitsWithin(sl, sps, m);
    forall i | 0 <= i < |sl|
      ensures Disjoint(sps[i].inner) && Union(sps[i].inner) <= sl[i].tiles && Union(sps[i].inner) !! Edges(sps, 0)
    {
      var sp := sps[i];
      assert SliceSplit(sl[i].tiles, m, sl[i].lo, sl[i].hi, sp);
      SplitParts(sp);
      UnionAppend(sp.inner, sp.left + sp.both + sp.right);
      assert All(sp) == sp.inner + (sp.left + sp.both + sp.right);
      DisjointParts(sp.inner, sp.left + sp.both + sp.right);
      InnerApart(sl, sps, i, 0);
    }
  }

  /** The finished clusters of the first `j` slices are clusters of all tiles. */
  lemma {:induction false} InnerPieces(sl: seq<Slice>, sps: seq<Split>, m: int, j: nat)
    requires ValidSlices(sl) && SplitsOf(sl, sps, m) && j <= |sl|
    ensures forall p :: p in Inner(sps[..j]) ==> IsComponent(p, Tiles(sl, 0)) && |p| >= m
  {
    if j > 0 {
      InnerPieces(sl, sps, m, j - 1);
      var sp := sps[j - 1];
      assert sps[..j][..j - 1] == sps[..j - 1];
      assert Inner(sps[..j]) == Inner(sps[..j - 1]) + sp.inner;
      assert SliceSplit(sl[j - 1].tiles, m, sl[j - 1].lo, sl[j - 1].hi, sp);
      forall p | p in sp.inner ensures IsComponent(p, Tiles(sl, 0)) && |p| >= m {
        assert p in All(sp);
        InnerLift(sl, j - 1, p);
      }
    } else {
      assert sps[..0] == [];
    }
  }

  /**
   * The finished clusters of the first `j` slices do not overlap, meet no edge cluster
   * and lie left of slice `j`.
   */
  lemma {:induction false} InnerLayout(sl: seq<Slice>, sps: seq<Split>, j: nat)
    requires ValidSlices(sl) && |sps| == |sl| && j <= |sl|
    requires forall i :: 0 <= i < |sl| ==>
      Disjoint(sps[i].inner) && Union(sps[i].inner) <= sl[i].tiles && Union(sps[i].inner) !! Edges(sps, 0)
    ensures Disjoint(Inner(sps[..j]))
    ensures Union(Inner(sps[..j])) !! Edges(sps, 0)
    ensures forall i :: 0 <= i < j ==> Union(sps[i].inner) <= Union(Inner(sps[..j]))
    ensures j < |sl| ==> forall t :: t in Union(Inner(sps[..j])) ==> t.0 < sl[j].lo
  {
    if j > 0 {
      InnerLayout(sl, sps, j - 1);
      var a, b := Inner(sps[..j - 1]), sps[j - 1].inner;
      assert sps[..j][..j - 1] == sps[..j - 1];
      assert Inner(sps[..j]) == a + b;
      DisjointAppend(a, b);
      UnionAppend(a, b);
      if j < |sl| {
        SliceOrder(sl, j - 1, j);
      }
    } else {
      assert sps[..0] == [];
    }
  }

  /** Two lists of clusters of `u` apart from each other make one. */
  lemma ClustersAppend(u: set<Tile>, m: int, a: seq<set<Tile>>, b: seq<set<Tile>>)
    requires forall p :: p in a ==> IsComponent(p, u) && |p| >= m
    requires forall p :: p in b ==> IsComponent(p, u) && |p| >= m
    requires Disjoint(a) && Disjoint(b) && Union(a) !! Union(b)
    ensures forall i :: 0 <= i < |a + b| ==> IsComponent((a + b)[i], u) && |(a + b)[i]| >= m
    ensures Disjoint(a + b) && Union(a + b) == Union(a) + Union(b)
  {
    DisjointAppend(a, b);
    UnionAppend(a, b);
    forall i | 0 <= i < |a + b| ensures IsComponent((a + b)[i], u) && |(a + b)[i]| >= m {
      assert (a + b)[i] in a + b;
    }
  }

  /**
   * After the last border, the finished clusters of the slices, those of the joins and
   * the large clusters still going on are exactly the clustering of all tiles.
   */
  lemma StageDone(sl: seq<Slice>, sps: seq<Split>, m: int, trans: seq<set<Tile>>, joined: seq<set<Tile>>)
    requires ValidSlices(sl) && SplitsOf(sl, sps, m)
    requires Stage(sl, sps, m, 0, trans, joined) && sps[0].left == []
    ensures IsClustering(Tiles(sl, 0), m, Inner(sps) + joined + Large(trans, m))
  {
    var u, e := Tiles(sl, 0), Edges(sps, 0);
    var big := Large(trans, m);
    assert sps[0].left + trans == trans;
    assert sps[..|sps|] == sps;
    SplitsInner(sl, sps, m);
    InnerPieces(sl, sps, m, |sl|);
    InnerLayout(sl, sps, |sl|);
    LargeDisjoint(trans, m);
    UnionSub(big, trans);
    UnionWithin(joined, e);
    ClustersAppend(u, m, joined, big);
    ClustersAppend(u, m, Inner(sps), joined + big);
    assert Inner(sps) + joined + big == Inner(sps) + (joined + big);
    forall t | t in u
      ensures t in Union(Inner(sps) + (joined + big)) || InSmall(u, m, t)
    {
      DoneCover(sl, sps, m, trans, joined, t);
    }
    UnionInSome(Inner(sps) + (joined + big));
  }

  /** Every tile is in a cluster of the result or in a component that is too small. */
  lemma DoneCover(sl: seq<Slice>, sps: seq<Split>, m: int, trans: seq<set<Tile>>, joined: seq<set<Tile>>, t: Tile)
    requires ValidSlices(sl) && SplitsOf(sl, sps, m)
    requires Stage(sl, sps, m, 0, trans, joined) && sps[0].left == []
    requires t in Tiles(sl, 0)
    ensures t in Union(Inner(sps)) + Union(joined) + Union(Large(trans, m)) || InSmall(Tiles(sl, 0), m, t)
  {
    var u, e := Tiles(sl, 0), Edges(sps, 0);
    assert sps[0].left + trans == trans;
    assert sps[..|sps|] == sps;
    TilesMember(sl, 0, t);
    var j :| 0 <= j < |sl| && t in sl[j].tiles;
    var sp := sps[j];
    assert SliceSplit(sl[j].tiles, m, sl[j].lo, sl[j].hi, sp);
    SplitParts(sp);
    if SmallInner(sl[j].tiles, m, sl[j].lo, sl[j].hi, t) {
      var d :| t in d && IsComponent(d, sl[j].tiles) && |d| < m && !Touches(d, sl[j].lo) && !Touches(d, sl[j].hi);
      InnerLift(sl, j, d);
    } else if t in Union(sp.inner) {
      SplitsInner(sl, sps, m);
      InnerLayout(sl, sps, |sl|);
    } else {
      EdgesMember(sps, 0, t);
      assert t in e;
      if t in Union(trans) {
        var p := UnionMember(trans, t);
        if |p| >= m {
          UnionPiece(Large(trans, m), p);
        }
      }
    }
  }

  /** Nothing reaches the right edge of the last slice exactly when no tile is in that column. */
  lemma LastClear(s: set<Tile>, m: int, lo: int, hi: int, sp: Split)
    requires SliceSplit(s, m, lo, hi, sp)
    ensures sp.both == [] && sp.right == [] <==> forall t :: t in s ==> t.0 != hi
  {
    if sp.both != [] || sp.right != [] {
      ReachesHi(s, m, lo, hi, sp);
    }
    if sp.both == [] && sp.right == [] {
      forall t | t in s ensures t.0 != hi {
        if t.0 == hi {
          SliceAtHi(s, m, lo, hi, sp, t);
        }
      }
    }
  }

  /**
   * No cluster touches only the left edge of the first slice exactly when every
   * component reaching that edge also reaches the right one.
   */
  lemma FirstClear(s: set<Tile>, m: int, lo: int, hi: int, sp: Split)
    requires SliceSplit(s, m, lo, hi, sp)
    ensures sp.left == [] <==> forall c :: IsComponent(c, s) && Touches(c, lo) ==> Touches(c, hi)
  {
    if sp.left != [] {
      assert sp.left[0] in All(sp);
    }
    if sp.left == [] {
      forall c | IsComponent(c, s) && Touches(c, lo) ensures Touches(c, hi) {
        var t: Tile :| t in c && t.0 == lo;
        SliceAtLo(s, m, lo, hi, sp, t);
        var q := UnionMember(sp.both, t);
        assert q in All(sp);
        ComponentsMeet(c, q, s);
      }
    }
  }
}
