/**
 * Pieces: lists of tile sets, each an 8-connected part of a larger set, and what it
 * takes to join them. The slice-parallel agglomeration clusters every slice on its own
 * and then joins the components that touch a border between slices; this module states
 * when two pieces neighbour each other, how a list of pieces is split by that test,
 * and what a correct join of the pieces on the two sides of one border is.
 */
module Pieces {
  import opened Grid
  import opened Components

  /** Some tile of `a` neighbours some tile of `b`. */
  ghost predicate Touching(a: set<Tile>, b: set<Tile>)
  {
    exists x, y :: x in a && y in b && Adjacent(x, y)
  }

  lemma TouchingSymmetric(a: set<Tile>, b: set<Tile>)
    ensures Touching(a, b) <==> Touching(b, a)
  {
    if Touching(a, b) {
      var x, y :| x in a && y in b && Adjacent(x, y);
      AdjacentSymmetric(x, y);
    }
    if Touching(b, a) {
      var x, y :| x in b && y in a && Adjacent(x, y);
      AdjacentSymmetric(x, y);
    }
  }

  /** All tiles of a list of pieces. */
  ghost function Union(ps: seq<set<Tile>>): set<Tile>
  {
    set i, t | 0 <= i < |ps| && t in ps[i] :: t
  }

  lemma UnionInSome(ps: seq<set<Tile>>)
    ensures forall t :: t in Union(ps) <==> InSome(ps, t)
  {
  }

  lemma UnionPiece(ps: seq<set<Tile>>, p: set<Tile>)
    requires p in ps
    ensures p <= Union(ps)
  {
    var i :| 0 <= i < |ps| && ps[i] == p;
    forall t | t in p ensures t in Union(ps) {
      assert t in ps[i];
    }
  }

  lemma UnionAppend(a: seq<set<Tile>>, b: seq<set<Tile>>)
    ensures Union(a + b) == Union(a) + Union(b)
  {
    var ab := a + b;
    forall t | t in Union(ab) ensures t in Union(a) + Union(b) {
      var i :| 0 <= i < |ab| && t in ab[i];
      if i < |a| {
        assert t in a[i];
      } else {
        assert t in b[i - |a|];
      }
    }
    forall t | t in Union(a) + Union(b) ensures t in Union(ab) {
      if t in Union(a) {
        var i :| 0 <= i < |a| && t in a[i];
        assert t in ab[i];
      } else {
        var i :| 0 <= i < |b| && t in b[i];
        assert t in ab[|a| + i];
      }
    }
  }

  lemma UnionSingle(p: set<Tile>)
    ensures Union([p]) == p
  {
    forall t | t in p ensures t in Union([p]) {
      assert t in [p][0];
    }
  }

  /** Appending a piece keeps a list pairwise disjoint exactly when it misses the others. */
  lemma DisjointSnoc(ps: seq<set<Tile>>, c: set<Tile>)
    ensures Disjoint(ps + [c]) <==> Disjoint(ps) && c !! Union(ps)
  {
    var s := ps + [c];
    if Disjoint(s) {
      forall i, j | 0 <= i < j < |ps| ensures ps[i] !! ps[j] {
        assert s[i] == ps[i] && s[j] == ps[j];
      }
      forall t | t in Union(ps) ensures t !in c {
        var i :| 0 <= i < |ps| && t in ps[i];
        assert s[i] !! s[|ps|];
      }
    }
    if Disjoint(ps) && c !! Union(ps) {
      forall i, j | 0 <= i < j < |s| ensures s[i] !! s[j] {
        if j == |ps| {
          UnionPiece(ps, ps[i]);
        } else {
          assert s[i] == ps[i] && s[j] == ps[j];
        }
      }
    }
  }

  /** Two pairwise disjoint lists with disjoint tiles make a pairwise disjoint list. */
  lemma DisjointAppend(a: seq<set<Tile>>, b: seq<set<Tile>>)
    requires Disjoint(a) && Disjoint(b) && Union(a) !! Union(b)
    ensures Disjoint(a + b)
  {
    var s := a + b;
    forall i, j | 0 <= i < j < |s| ensures s[i] !! s[j] {
      if j < |a| {
        assert s[i] == a[i] && s[j] == a[j];
      } else if i >= |a| {
        assert s[i] == b[i - |a|] && s[j] == b[j - |a|];
      } else {
        UnionPiece(a, a[i]);
        UnionPiece(b, b[j - |a|]);
        assert s[i] == a[i] && s[j] == b[j - |a|];
      }
    }
  }

  lemma DisjointParts(a: seq<set<Tile>>, b: seq<set<Tile>>)
    requires Disjoint(a + b)
    ensures Disjoint(a) && Disjoint(b) && Union(a) !! Union(b)
  {
    var s := a + b;
    forall i, j | 0 <= i < j < |a| ensures a[i] !! a[j] {
      assert s[i] == a[i] && s[j] == a[j];
    }
    forall i, j | 0 <= i < j < |b| ensures b[i] !! b[j] {
      assert s[|a| + i] == b[i] && s[|a| + j] == b[j];
    }
    forall i, j | 0 <= i < |a| && 0 <= j < |b| ensures a[i] !! b[j] {
      assert s[i] == a[i] && s[|a| + j] == b[j];
    }
    forall t | t in Union(a) ensures t !in Union(b) {
      var i :| 0 <= i < |a| && t in a[i];
      forall j | 0 <= j < |b| ensures t !in b[j] {
        assert a[i] !! b[j];
      }
    }
  }

  /** No piece of `ps` touches `p`, so the tiles of `ps` do not either. */
  lemma NotTouchingUnion(p: set<Tile>, ps: seq<set<Tile>>)
    requires forall q :: q in ps ==> !Touching(p, q)
    ensures !Touching(p, Union(ps))
  {
    if Touching(p, Union(ps)) {
      var x, y :| x in p && y in Union(ps) && Adjacent(x, y);
      var i :| 0 <= i < |ps| && y in ps[i];
      assert Touching(p, ps[i]);
      assert false;
    }
  }

  // ---------------------------------------------------------------------------
  // Splitting a list of pieces by whether they touch a given piece
  // ---------------------------------------------------------------------------

  /** The pieces of `ps` that touch `v`, in list order. */
  ghost function Meeting(ps: seq<set<Tile>>, v: set<Tile>): seq<set<Tile>>
  {
    if ps == [] then []
    else Meeting(ps[..|ps| - 1], v) + (if Touching(ps[|ps| - 1], v) then [ps[|ps| - 1]] else [])
  }

  /** The pieces of `ps` that do not touch `v`, in list order. */
  ghost function Apart(ps: seq<set<Tile>>, v: set<Tile>): seq<set<Tile>>
  {
    if ps == [] then []
    else Apart(ps[..|ps| - 1], v) + (if Touching(ps[|ps| - 1], v) then [] else [ps[|ps| - 1]])
  }

  /** The two halves of the split take every piece of the list once, and nothing else. */
  lemma {:induction false} SplitCovers(ps: seq<set<Tile>>, v: set<Tile>)
    ensures Union(Meeting(ps, v)) + Union(Apart(ps, v)) == Union(ps)
    ensures |Meeting(ps, v)| + |Apart(ps, v)| == |ps|
    ensures forall q :: q in Meeting(ps, v) ==> q in ps && Touching(q, v)
    ensures forall q :: q in Apart(ps, v) ==> q in ps && !Touching(q, v)
    decreases |ps|
  {
    if ps != [] {
      var init, last := ps[..|ps| - 1], ps[|ps| - 1];
      SplitCovers(init, v);
      assert ps == init + [last];
      UnionAppend(init, [last]);
      UnionSingle(last);
      var m, a := Meeting(init, v), Apart(init, v);
      if Touching(last, v) {
        UnionAppend(m, [last]);
        assert Meeting(ps, v) == m + [last] && Apart(ps, v) == a;
      } else {
        UnionAppend(a, [last]);
        assert Meeting(ps, v) == m && Apart(ps, v) == a + [last];
      }
    }
  }

  /** Splitting a pairwise disjoint list gives two pairwise disjoint lists with disjoint tiles. */
  lemma {:induction false} SplitDisjoint(ps: seq<set<Tile>>, v: set<Tile>)
    requires Disjoint(ps)
    ensures Disjoint(Meeting(ps, v)) && Disjoint(Apart(ps, v))
    ensures Union(Meeting(ps, v)) !! Union(Apart(ps, v))
    decreases |ps|
  {
    if ps != [] {
      var init, last := ps[..|ps| - 1], ps[|ps| - 1];
      assert ps == init + [last];
      DisjointSnoc(init, last);
      SplitDisjoint(init, v);
      SplitCovers(init, v);
      var m, a := Meeting(init, v), Apart(init, v);
      UnionSingle(last);
      if Touching(last, v) {
        DisjointSnoc(m, last);
        UnionAppend(m, [last]);
        assert Meeting(ps, v) == m + [last] && Apart(ps, v) == a;
      } else {
        DisjointSnoc(a, last);
        UnionAppend(a, [last]);
        assert Meeting(ps, v) == m && Apart(ps, v) == a + [last];
      }
    }
  }

  /** Gluing connected pieces that each touch a connected set keeps it connected. */
  lemma {:induction false} GlueAll(a: set<Tile>, ps: seq<set<Tile>>)
    requires Connected(a)
    requires forall q :: q in ps ==> Connected(q) && Touching(q, a)
    ensures Connected(a + Union(ps))
    decreases |ps|
  {
    if ps == [] {
      assert a + Union(ps) == a;
    } else {
      var init, last := ps[..|ps| - 1], ps[|ps| - 1];
      assert ps == init + [last];
      forall q | q in init ensures Connected(q) && Touching(q, a) {
        assert q in ps;
      }
      GlueAll(a, init);
      UnionAppend(init, [last]);
      UnionSingle(last);
      assert last in ps;
      var x, y :| x in last && y in a && Adjacent(x, y);
      AdjacentSymmetric(x, y);
      Glue(a + Union(init), last, y, x);
      assert a + Union(init) + last == a + Union(ps);
    }
  }

  /** Every piece of `ps` is a piece of `qs`, so all its tiles are tiles of `qs`. */
  lemma UnionSub(ps: seq<set<Tile>>, qs: seq<set<Tile>>)
    requires forall p :: p in ps ==> p in qs
    ensures Union(ps) <= Union(qs)
  {
    forall t | t in Union(ps) ensures t in Union(qs) {
      var i :| 0 <= i < |ps| && t in ps[i];
      UnionPiece(qs, ps[i]);
    }
  }

  /** The pieces of `ps` with at least `m` tiles, in list order. */
  function Large(ps: seq<set<Tile>>, m: int): (r: seq<set<Tile>>)
    ensures forall p :: p in r ==> p in ps && |p| >= m
    ensures forall p :: p in ps && |p| >= m ==> p in r
  {
    if ps == [] then []
    else
      var r := Large(ps[..|ps| - 1], m);
      assert forall p :: p in ps ==> p in ps[..|ps| - 1] || p == ps[|ps| - 1];
      if |ps[|ps| - 1]| >= m then r + [ps[|ps| - 1]] else r
  }

  lemma {:induction false} LargeDisjoint(ps: seq<set<Tile>>, m: int)
    requires Disjoint(ps)
    ensures Disjoint(Large(ps, m))
    decreases |ps|
  {
    if ps != [] {
      var init, last := ps[..|ps| - 1], ps[|ps| - 1];
      assert ps == init + [last];
      DisjointSnoc(init, last);
      LargeDisjoint(init, m);
      if |last| >= m {
        UnionSub(Large(init, m), init);
        DisjointSnoc(Large(init, m), last);
      }
    }
  }

  // ---------------------------------------------------------------------------
  // Joining the pieces on the two sides of one border
  // ---------------------------------------------------------------------------

  /** No two different pieces of `ps` touch. */
  ghost predicate SideApart(ps: seq<set<Tile>>)
  {
    forall p, q :: p in ps && q in ps && p != q ==> !Touching(p, q)
  }

  /**
   * The pieces meeting at one border: `left` and `both` lie on its left, `right` on its
   * right; `both` are the left pieces that also reach a border further left.
   */
  datatype Sides = Sides(left: seq<set<Tile>>, right: seq<set<Tile>>, both: seq<set<Tile>>)

  /** All tiles of all pieces at the border. */
  ghost function Whole(o: Sides): set<Tile>
  {
    Union(o.left + o.both + o.right)
  }

  /**
   * What joining relies on: the pieces are non-empty, connected and pairwise disjoint,
   * and no two pieces on the same side of the border touch.
   */
  ghost predicate JoinReady(o: Sides)
  {
    && Disjoint(o.left + o.both + o.right)
    && (forall p :: p in o.left + o.both + o.right ==> p != {} && Connected(p))
    && SideApart(o.left + o.both) && SideApart(o.right)
  }

  /** `t` lies in a component of `s` with fewer than `m` tiles that misses `x`. */
  ghost predicate SmallApart(s: set<Tile>, m: int, x: set<Tile>, t: Tile)
  {
    exists d :: t in d && IsComponent(d, s) && |d| < m && d !! x
  }

  /**
   * A correct join of the pieces in `o`: `cs` are the components of all their tiles that
   * have at least `m` tiles and contain no tile of a `both` piece, `tr` the components
   * that do, every tile is in exactly one of them or in a small component of the first
   * kind.
   */
  ghost predicate IsJoin(o: Sides, m: int, cs: seq<set<Tile>>, tr: seq<set<Tile>>)
  {
    var s, x := Whole(o), Union(o.both);
    && (forall i :: 0 <= i < |cs| ==> IsComponent(cs[i], s) && |cs[i]| >= m && cs[i] !! x)
    && (forall i :: 0 <= i < |tr| ==> IsComponent(tr[i], s) && tr[i] * x != {})
    && Disjoint(cs + tr)
    && (forall t :: t in s ==> InSome(cs + tr, t) || SmallApart(s, m, x, t))
  }

  /** The tiles of the three sides are disjoint and make up all tiles. */
  lemma ReadySides(o: Sides)
    requires JoinReady(o)
    ensures Union(o.left) !! Union(o.both) && Union(o.left) !! Union(o.right) && Union(o.both) !! Union(o.right)
    ensures Whole(o) == Union(o.left) + Union(o.both) + Union(o.right)
  {
    DisjointParts(o.left + o.both, o.right);
    DisjointParts(o.left, o.both);
    UnionAppend(o.left + o.both, o.right);
    UnionAppend(o.left, o.both);
  }

  /** The pieces still unvisited are pieces of the input, each list pairwise disjoint. */
  ghost predicate Held(o: Sides, left: seq<set<Tile>>, both: seq<set<Tile>>, right: seq<set<Tile>>)
  {
    && (forall p :: p in left ==> p in o.left)
    && (forall p :: p in both ==> p in o.both)
    && (forall p :: p in right ==> p in o.right)
    && Disjoint(left) && Disjoint(both) && Disjoint(right)
  }

  ghost function Rest(left: seq<set<Tile>>, both: seq<set<Tile>>, right: seq<set<Tile>>): set<Tile>
  {
    Union(left) + Union(both) + Union(right)
  }

  /** The joined clusters emitted so far: components of the right kind, pairwise disjoint. */
  ghost predicate Emitted(o: Sides, m: int, cs: seq<set<Tile>>, tr: seq<set<Tile>>)
  {
    var s, x := Whole(o), Union(o.both);
    && (forall i :: 0 <= i < |cs| ==> IsComponent(cs[i], s) && |cs[i]| >= m && cs[i] !! x)
    && (forall i :: 0 <= i < |tr| ==> IsComponent(tr[i], s) && tr[i] * x != {})
    && Disjoint(cs) && Disjoint(tr) && Union(cs) !! Union(tr)
  }

  /**
   * The tiles `done` are finished: they have no neighbour outside themselves, hold the
   * emitted clusters, and each lies in an emitted cluster or a small discarded component.
   */
  ghost predicate Handled(o: Sides, m: int, cs: seq<set<Tile>>, tr: seq<set<Tile>>, done: set<Tile>)
  {
    && Union(cs) <= done && Union(tr) <= done
    && Closed(done, Whole(o))
    && (forall t :: t in done ==> t in Union(cs) || t in Union(tr) || SmallApart(Whole(o), m, Union(o.both), t))
  }

  /** Between two searches of `join_clusters`. */
  ghost predicate JoinInv(o: Sides, m: int, left: seq<set<Tile>>, both: seq<set<Tile>>, right: seq<set<Tile>>,
                          cs: seq<set<Tile>>, tr: seq<set<Tile>>)
  {
    && Held(o, left, both, right)
    && Emitted(o, m, cs, tr)
    && Handled(o, m, cs, tr, Whole(o) - Rest(left, both, right))
  }

  /** The pieces of a search stack, without their side marks. */
  function Visits(tv: seq<(bool, set<Tile>)>): (r: seq<set<Tile>>)
    ensures |r| == |tv|
    ensures forall i :: 0 <= i < |tv| ==> r[i] == tv[i].1
  {
    seq(|tv|, i requires 0 <= i < |tv| => tv[i].1)
  }

  /** Pieces marked with the side their search goes to. */
  function Tag(ps: seq<set<Tile>>, goRight: bool): (r: seq<(bool, set<Tile>)>)
    ensures |r| == |ps|
    ensures forall i :: 0 <= i < |ps| ==> r[i] == (goRight, ps[i])
  {
    seq(|ps|, i requires 0 <= i < |ps| => (goRight, ps[i]))
  }

  /** Each stacked piece is marked `true` exactly when it lies left of the border. */
  ghost predicate Marked(o: Sides, tv: seq<(bool, set<Tile>)>)
  {
    forall e :: e in tv ==> if e.0 then e.1 in o.left + o.both else e.1 in o.right
  }

  lemma MarkedAppend(o: Sides, tv: seq<(bool, set<Tile>)>, ps: seq<set<Tile>>, goRight: bool)
    requires Marked(o, tv)
    requires forall q :: q in ps ==> if goRight then q in o.left + o.both else q in o.right
    ensures Marked(o, tv + Tag(ps, goRight))
  {
    var tv2 := tv + Tag(ps, goRight);
    forall e | e in tv2 ensures if e.0 then e.1 in o.left + o.both else e.1 in o.right {
      if e !in tv {
        var i :| 0 <= i < |tv2| && tv2[i] == e;
        assert e == (goRight, ps[i - |tv|]) && ps[i - |tv|] in ps;
      }
    }
  }

  /** The tiles a search has reached: those visited and those stacked. */
  ghost function Reached(cluster: set<Tile>, tv: seq<(bool, set<Tile>)>): set<Tile>
  {
    cluster + Union(Visits(tv))
  }

  /**
   * The state of one search: `cluster` holds the pieces visited, `tv` the pieces found but
   * not visited (marked `true` for left pieces, whose search goes right). Together they
   * are connected, no visited tile touches an unvisited piece, and `joinedBoth` records
   * whether a `both` piece was taken in.
   */
  ghost predicate Frontier(o: Sides, left: seq<set<Tile>>, both: seq<set<Tile>>, right: seq<set<Tile>>,
                           cluster: set<Tile>, tv: seq<(bool, set<Tile>)>, joinedBoth: bool)
  {
    var a, rest := Reached(cluster, tv), Rest(left, both, right);
    && Held(o, left, both, right)
    && Marked(o, tv)
    && a <= Whole(o) && a !! rest && a != {} && Connected(a)
    && !Touching(cluster, rest)
    && (joinedBoth <==> a * Union(o.both) != {})
  }

  /** During one search of `join_clusters`: the search state, and the tiles finished before it. */
  ghost predicate BfsInv(o: Sides, m: int, left: seq<set<Tile>>, both: seq<set<Tile>>, right: seq<set<Tile>>,
                         cs: seq<set<Tile>>, tr: seq<set<Tile>>,
                         cluster: set<Tile>, tv: seq<(bool, set<Tile>)>, joinedBoth: bool)
  {
    && Frontier(o, left, both, right, cluster, tv, joinedBoth)
    && Emitted(o, m, cs, tr)
    && Handled(o, m, cs, tr, Whole(o) - Rest(left, both, right) - Reached(cluster, tv))
  }

  lemma TouchingMono(a: set<Tile>, b: set<Tile>, a2: set<Tile>, b2: set<Tile>)
    requires Touching(a, b) && a <= a2 && b <= b2
    ensures Touching(a2, b2)
  {
    var x, y :| x in a && y in b && Adjacent(x, y);
    assert x in a2 && y in b2;
  }

  /** A set that touches none of three sets, grown by a piece that touches none of them either. */
  lemma NotTouchingGrown(c: set<Tile>, p: set<Tile>, l: set<Tile>, b: set<Tile>, r: set<Tile>)
    requires !Touching(c, l + b + r)
    requires !Touching(p, l) && !Touching(p, b) && !Touching(p, r)
    ensures !Touching(c + p, l + b + r)
  {
  }

  /** A piece on one side touches no other piece of that side still to be visited. */
  lemma SideClear(side: seq<set<Tile>>, p: set<Tile>, ps: seq<set<Tile>>, a: set<Tile>)
    requires SideApart(side) && p in side && p != {} && p <= a
    requires forall q :: q in ps ==> q in side
    requires a !! Union(ps)
    ensures !Touching(p, Union(ps))
  {
    forall q | q in ps ensures !Touching(p, q) {
      UnionPiece(ps, q);
      var x :| x in p;
      assert x !in q;
    }
    NotTouchingUnion(p, ps);
  }

  /** Removing the last stacked piece removes its tiles from the stack's tiles. */
  lemma VisitsPop(tv: seq<(bool, set<Tile>)>)
    requires tv != []
    ensures Union(Visits(tv)) == Union(Visits(tv[..|tv| - 1])) + tv[|tv| - 1].1
  {
    assert Visits(tv) == Visits(tv[..|tv| - 1]) + [tv[|tv| - 1].1];
    UnionAppend(Visits(tv[..|tv| - 1]), [tv[|tv| - 1].1]);
    UnionSingle(tv[|tv| - 1].1);
  }

  lemma VisitsTag(tv: seq<(bool, set<Tile>)>, ps: seq<set<Tile>>, goRight: bool)
    ensures Union(Visits(tv + Tag(ps, goRight))) == Union(Visits(tv)) + Union(ps)
  {
    assert Visits(tv + Tag(ps, goRight)) == Visits(tv) + ps;
    UnionAppend(Visits(tv), ps);
  }

  /** The unvisited pieces lie on their own sides of the border. */
  lemma HeldWithin(o: Sides, left: seq<set<Tile>>, both: seq<set<Tile>>, right: seq<set<Tile>>)
    requires JoinReady(o) && Held(o, left, both, right)
    ensures Union(left) <= Union(o.left) && Union(both) <= Union(o.both) && Union(right) <= Union(o.right)
    ensures Rest(left, both, right) <= Whole(o)
  {
    ReadySides(o);
    UnionSub(left, o.left);
    UnionSub(both, o.both);
    UnionSub(right, o.right);
  }

  /** Taking the right pieces that touch `p` out of the unvisited ones. */
  lemma SplitRight(o: Sides, left: seq<set<Tile>>, both: seq<set<Tile>>, right: seq<set<Tile>>, p: set<Tile>)
    requires JoinReady(o) && Held(o, left, both, right)
    ensures Held(o, left, both, Apart(right, p))
    ensures Rest(left, both, right) == Rest(left, both, Apart(right, p)) + Union(Meeting(right, p))
    ensures Rest(left, both, Apart(right, p)) !! Union(Meeting(right, p))
    ensures Union(Meeting(right, p)) <= Union(o.right)
    ensures forall q :: q in Meeting(right, p) ==> q in o.right && Touching(q, p)
    ensures forall q :: q in Apart(right, p) ==> !Touching(q, p)
  {
    ReadySides(o);
    HeldWithin(o, left, both, right);
    SplitCovers(right, p);
    SplitDisjoint(right, p);
  }

  /** Taking the left and `both` pieces that touch `p` out of the unvisited ones. */
  lemma SplitLeft(o: Sides, left: seq<set<Tile>>, both: seq<set<Tile>>, right: seq<set<Tile>>, p: set<Tile>)
    requires JoinReady(o) && Held(o, left, both, right)
    ensures Held(o, Apart(left, p), Apart(both, p), right)
    ensures Rest(left, both, right) == Rest(Apart(left, p), Apart(both, p), right) + Union(Meeting(left, p)) + Union(Meeting(both, p))
    ensures Rest(Apart(left, p), Apart(both, p), right) !! Union(Meeting(left, p)) + Union(Meeting(both, p))
    ensures Union(Meeting(left, p)) <= Union(o.left) && Union(Meeting(both, p)) <= Union(o.both)
    ensures forall q :: q in Meeting(left, p) ==> q in o.left && Touching(q, p)
    ensures forall q :: q in Meeting(both, p) ==> q in o.both && Touching(q, p)
    ensures forall q :: q in Apart(left, p) ==> !Touching(q, p)
    ensures forall q :: q in Apart(both, p) ==> !Touching(q, p)
  {
    ReadySides(o);
    HeldWithin(o, left, both, right);
    SplitCovers(left, p);
    SplitDisjoint(left, p);
    SplitCovers(both, p);
    SplitDisjoint(both, p);
  }

  /** Gluing the pieces that touch a visited piece `p` keeps the visited tiles connected. */
  lemma GlueMet(o: Sides, a: set<Tile>, p: set<Tile>, ps: seq<set<Tile>>)
    requires JoinReady(o) && Connected(a) && p <= a
    requires forall q :: q in ps ==> q in o.left + o.both + o.right && Touching(q, p)
    ensures Connected(a + Union(ps))
  {
    forall q | q in ps ensures Connected(q) && Touching(q, a) {
      TouchingMono(q, p, q, a);
    }
    GlueAll(a, ps);
  }

  /** A visited left piece touches none of the unvisited pieces that remain. */
  lemma ClearOfLeft(o: Sides, cluster: set<Tile>, p: set<Tile>, a: set<Tile>, rest: set<Tile>,
                    left: seq<set<Tile>>, both: seq<set<Tile>>, right: seq<set<Tile>>)
    requires JoinReady(o) && Held(o, left, both, right)
    requires p in o.left + o.both && p != {} && p <= a
    requires forall q :: q in right ==> !Touching(q, p)
    requires a !! rest && Rest(left, both, right) <= rest && !Touching(cluster, rest)
    ensures !Touching(cluster + p, Rest(left, both, right))
  {
    forall q | q in right ensures !Touching(p, q) {
      TouchingSymmetric(p, q);
    }
    NotTouchingUnion(p, right);
    SideClear(o.left + o.both, p, left, a);
    SideClear(o.left + o.both, p, both, a);
    if Touching(cluster, Rest(left, both, right)) {
      TouchingMono(cluster, Rest(left, both, right), cluster, rest);
    }
    NotTouchingGrown(cluster, p, Union(left), Union(both), Union(right));
  }

  /** A visited right piece touches none of the unvisited pieces that remain. */
  lemma ClearOfRight(o: Sides, cluster: set<Tile>, p: set<Tile>, a: set<Tile>, rest: set<Tile>,
                     left: seq<set<Tile>>, both: seq<set<Tile>>, right: seq<set<Tile>>)
    requires JoinReady(o) && Held(o, left, both, right)
    requires p in o.right && p != {} && p <= a
    requires forall q :: q in left ==> !Touching(q, p)
    requires forall q :: q in both ==> !Touching(q, p)
    requires a !! rest && Rest(left, both, right) <= rest && !Touching(cluster, rest)
    ensures !Touching(cluster + p, Rest(left, both, right))
  {
    forall q | q in left ensures !Touching(p, q) {
      TouchingSymmetric(p, q);
    }
    NotTouchingUnion(p, left);
    forall q | q in both ensures !Touching(p, q) {
      TouchingSymmetric(p, q);
    }
    NotTouchingUnion(p, both);
    SideClear(o.right, p, right, a);
    if Touching(cluster, Rest(left, both, right)) {
      TouchingMono(cluster, Rest(left, both, right), cluster, rest);
    }
    NotTouchingGrown(cluster, p, Union(left), Union(both), Union(right));
  }

  /** The done tiles do not change while a search moves tiles from unvisited to reached. */
  lemma SameDone(o: Sides, rest: set<Tile>, a: set<Tile>, rest2: set<Tile>, a2: set<Tile>)
    requires rest2 + a2 == rest + a
    ensures Whole(o) - rest2 - a2 == Whole(o) - rest - a
  {
  }

  /** A search starts from the last piece still on the right. */
  lemma FrontierStart(o: Sides, left: seq<set<Tile>>, both: seq<set<Tile>>, right: seq<set<Tile>>)
    requires JoinReady(o) && Held(o, left, both, right) && right != []
    ensures var init, start := right[..|right| - 1], right[|right| - 1];
            && Frontier(o, left, both, init, {}, [(false, start)], false)
            && Rest(left, both, init) + Reached({}, [(false, start)]) == Rest(left, both, right)
  {
    StartHeld(o, left, both, right);
    StartReached(o, left, both, right);
  }

  /** Popping the last right piece keeps the pieces held. */
  lemma StartHeld(o: Sides, left: seq<set<Tile>>, both: seq<set<Tile>>, right: seq<set<Tile>>)
    requires Held(o, left, both, right) && right != []
    ensures Held(o, left, both, right[..|right| - 1])
  {
    var init, start := right[..|right| - 1], right[|right| - 1];
    assert right == init + [start];
    DisjointSnoc(init, start);
    forall q | q in init ensures q in o.right {
      assert q in right;
    }
  }

  /** The last right piece, the start of a search: a connected piece of the right side apart from the rest. */
  lemma StartReached(o: Sides, left: seq<set<Tile>>, both: seq<set<Tile>>, right: seq<set<Tile>>)
    requires JoinReady(o) && Held(o, left, both, right) && right != []
    ensures var init, start := right[..|right| - 1], right[|right| - 1];
            var a, rest := Reached({}, [(false, start)]), Rest(left, both, init);
            && a == start && Marked(o, [(false, start)])
            && a <= Whole(o) && a !! rest && a != {} && Connected(a)
            && a * Union(o.both) == {}
            && rest + a == Rest(left, both, right)
  {
    ReadySides(o);
    var init, start := right[..|right| - 1], right[|right| - 1];
    assert right == init + [start];
    DisjointSnoc(init, start);
    UnionAppend(init, [start]);
    UnionSingle(start);
    assert Visits([(false, start)]) == [start];
    assert start in o.right && start in o.left + o.both + o.right;
    HeldWithin(o, left, both, right);
    UnionPiece(o.right, start);
  }

  /** The first search of a round of `join_clusters`. */
  lemma BfsStart(o: Sides, m: int, left: seq<set<Tile>>, both: seq<set<Tile>>, right: seq<set<Tile>>,
                 cs: seq<set<Tile>>, tr: seq<set<Tile>>)
    requires JoinReady(o) && JoinInv(o, m, left, both, right, cs, tr) && right != []
    ensures BfsInv(o, m, left, both, right[..|right| - 1], cs, tr, {}, [(false, right[|right| - 1])], false)
  {
    var init, start := right[..|right| - 1], right[|right| - 1];
    FrontierStart(o, left, both, right);
    SameDone(o, Rest(left, both, right), {}, Rest(left, both, init), Reached({}, [(false, start)]));
    assert Whole(o) - Rest(left, both, right) - {} == Whole(o) - Rest(left, both, right);
  }

  /**
   * Visiting a left piece `p` takes in the right pieces it touches: the unvisited pieces
   * shrink by exactly the tiles the search reaches.
   */
  lemma GoRightSets(o: Sides, left: seq<set<Tile>>, both: seq<set<Tile>>, right: seq<set<Tile>>,
                    cluster: set<Tile>, tv: seq<(bool, set<Tile>)>)
    requires JoinReady(o) && Held(o, left, both, right)
    requires Reached(cluster, tv) <= Whole(o) && Reached(cluster, tv) !! Rest(left, both, right)
    requires Reached(cluster, tv) != {}
    requires tv != [] && tv[|tv| - 1].0
    ensures var p := tv[|tv| - 1].1;
            var tv2 := tv[..|tv| - 1] + Tag(Meeting(right, p), false);
            var a2, rest2 := Reached(cluster + p, tv2), Rest(left, both, Apart(right, p));
            && Held(o, left, both, Apart(right, p))
            && a2 == Reached(cluster, tv) + Union(Meeting(right, p))
            && a2 <= Whole(o) && a2 !! rest2 && a2 != {}
            && rest2 + a2 == Rest(left, both, right) + Reached(cluster, tv)
  {
    var p, tv0 := tv[|tv| - 1].1, tv[..|tv| - 1];
    var mr, ar := Meeting(right, p), Apart(right, p);
    VisitsPop(tv);
    VisitsTag(tv0, mr, false);
    SplitRight(o, left, both, right, p);
    HeldWithin(o, left, both, right);
    var a, a2 := Reached(cluster, tv), Reached(cluster + p, tv0 + Tag(mr, false));
    var rest, rest2 := Rest(left, both, right), Rest(left, both, ar);
    assert a2 == a + Union(mr);
    assert rest == rest2 + Union(mr);
    assert rest2 + a2 == (rest2 + Union(mr)) + a;
  }

  /** ... and the reached tiles stay connected, clear of the unvisited ones and off `both`. */
  lemma GoRightLinks(o: Sides, left: seq<set<Tile>>, both: seq<set<Tile>>, right: seq<set<Tile>>,
                     cluster: set<Tile>, p: set<Tile>, a: set<Tile>)
    requires JoinReady(o) && Held(o, left, both, right)
    requires p in o.left + o.both && p != {} && p <= a && Connected(a)
    requires a !! Rest(left, both, right) && !Touching(cluster, Rest(left, both, right))
    ensures Connected(a + Union(Meeting(right, p)))
    ensures !Touching(cluster + p, Rest(left, both, Apart(right, p)))
    ensures (a + Union(Meeting(right, p))) * Union(o.both) == a * Union(o.both)
  {
    assert p in o.left + o.both + o.right;
    var mr, ar := Meeting(right, p), Apart(right, p);
    SplitRight(o, left, both, right, p);
    HeldWithin(o, left, both, Apart(right, p));
    ReadySides(o);
    GlueMet(o, a, p, mr);
    ClearOfLeft(o, cluster, p, a, Rest(left, both, right), left, both, ar);
  }

  /** Visiting a left piece takes in the right pieces it touches. */
  lemma FrontierGoRight(o: Sides, left: seq<set<Tile>>, both: seq<set<Tile>>, right: seq<set<Tile>>,
                        cluster: set<Tile>, tv: seq<(bool, set<Tile>)>, joinedBoth: bool)
    requires JoinReady(o) && Frontier(o, left, both, right, cluster, tv, joinedBoth)
    requires tv != [] && tv[|tv| - 1].0
    ensures var p := tv[|tv| - 1].1;
            var tv2 := tv[..|tv| - 1] + Tag(Meeting(right, p), false);
            && Frontier(o, left, both, Apart(right, p), cluster + p, tv2, joinedBoth)
            && Rest(left, both, Apart(right, p)) + Reached(cluster + p, tv2) == Rest(left, both, right) + Reached(cluster, tv)
  {
    var p := tv[|tv| - 1].1;
    assert tv[|tv| - 1] in tv;
    assert p in o.left + o.both + o.right;
    VisitsPop(tv);
    GoRightSets(o, left, both, right, cluster, tv);
    SplitRight(o, left, both, right, p);
    MarkedAppend(o, tv[..|tv| - 1], Meeting(right, p), false);
    GoRightLinks(o, left, both, right, cluster, p, Reached(cluster, tv));
  }

  /**
   * Visiting a right piece `p` takes in the left and `both` pieces it touches: the
   * unvisited pieces shrink by exactly the tiles the search reaches.
   */
  lemma GoLeftSets(o: Sides, left: seq<set<Tile>>, both: seq<set<Tile>>, right: seq<set<Tile>>,
                   cluster: set<Tile>, tv: seq<(bool, set<Tile>)>)
    requires JoinReady(o) && Held(o, left, both, right)
    requires Reached(cluster, tv) <= Whole(o) && Reached(cluster, tv) !! Rest(left, both, right)
    requires Reached(cluster, tv) != {}
    requires tv != [] && !tv[|tv| - 1].0
    ensures var p := tv[|tv| - 1].1;
            var tv2 := tv[..|tv| - 1] + Tag(Meeting(left, p), true) + Tag(Meeting(both, p), true);
            var a2, rest2 := Reached(cluster + p, tv2), Rest(Apart(left, p), Apart(both, p), right);
            && Held(o, Apart(left, p), Apart(both, p), right)
            && a2 == Reached(cluster, tv) + Union(Meeting(left, p)) + Union(Meeting(both, p))
            && a2 <= Whole(o) && a2 !! rest2 && a2 != {}
            && rest2 + a2 == Rest(left, both, right) + Reached(cluster, tv)
  {
    var p, tv0 := tv[|tv| - 1].1, tv[..|tv| - 1];
    var ml, al, mb, ab := Meeting(left, p), Apart(left, p), Meeting(both, p), Apart(both, p);
    var tv1 := tv0 + Tag(ml, true);
    VisitsPop(tv);
    VisitsTag(tv0, ml, true);
    VisitsTag(tv1, mb, true);
    SplitLeft(o, left, both, right, p);
    HeldWithin(o, left, both, right);
    var a, a2 := Reached(cluster, tv), Reached(cluster + p, tv1 + Tag(mb, true));
    var rest, rest2 := Rest(left, both, right), Rest(al, ab, right);
    assert a2 == a + Union(ml) + Union(mb);
    assert rest == rest2 + Union(ml) + Union(mb);
    assert rest2 + a2 == (rest2 + Union(ml) + Union(mb)) + a;
  }

  /** ... and the reached tiles stay connected and clear of the unvisited ones. */
  lemma GoLeftLinks(o: Sides, left: seq<set<Tile>>, both: seq<set<Tile>>, right: seq<set<Tile>>,
                    cluster: set<Tile>, p: set<Tile>, a: set<Tile>)
    requires JoinReady(o) && Held(o, left, both, right)
    requires p in o.right && p != {} && p <= a && Connected(a)
    requires a !! Rest(left, both, right) && !Touching(cluster, Rest(left, both, right))
    ensures Connected(a + Union(Meeting(left, p)) + Union(Meeting(both, p)))
    ensures !Touching(cluster + p, Rest(Apart(left, p), Apart(both, p), right))
  {
    assert p in o.left + o.both + o.right;
    var ml, al, mb, ab := Meeting(left, p), Apart(left, p), Meeting(both, p), Apart(both, p);
    SplitLeft(o, left, both, right, p);
    var a1 := a + Union(ml);
    GlueMet(o, a, p, ml);
    GlueMet(o, a1, p, mb);
    ClearOfRight(o, cluster, p, a, Rest(left, both, right), al, ab, right);
  }

  /** ... and whether a `both` piece was taken in is updated. */
  lemma GoLeftJoins(o: Sides, left: seq<set<Tile>>, both: seq<set<Tile>>, right: seq<set<Tile>>,
                    p: set<Tile>, a: set<Tile>, joinedBoth: bool)
    requires JoinReady(o) && Held(o, left, both, right)
    requires joinedBoth <==> a * Union(o.both) != {}
    ensures joinedBoth || Meeting(both, p) != [] <==> (a + Union(Meeting(left, p)) + Union(Meeting(both, p))) * Union(o.both) != {}
  {
    var ml, mb := Meeting(left, p), Meeting(both, p);
    SplitLeft(o, left, both, right, p);
    var a2 := a + Union(ml) + Union(mb);
    ReadySides(o);
    if mb != [] {
      assert mb[0] in mb && mb[0] in o.left + o.both + o.right;
      UnionPiece(mb, mb[0]);
      var x :| x in mb[0];
      assert x in a2 * Union(o.both);
    } else {
      assert Union(mb) == {};
      assert a2 * Union(o.both) == a * Union(o.both);
    }
  }

  /** Visiting a right piece takes in the left and `both` pieces it touches. */
  lemma FrontierGoLeft(o: Sides, left: seq<set<Tile>>, both: seq<set<Tile>>, right: seq<set<Tile>>,
                       cluster: set<Tile>, tv: seq<(bool, set<Tile>)>, joinedBoth: bool)
    requires JoinReady(o) && Frontier(o, left, both, right, cluster, tv, joinedBoth)
    requires tv != [] && !tv[|tv| - 1].0
    ensures var p := tv[|tv| - 1].1;
            var tv2 := tv[..|tv| - 1] + Tag(Meeting(left, p), true) + Tag(Meeting(both, p), true);
            && Frontier(o, Apart(left, p), Apart(both, p), right, cluster + p, tv2, joinedBoth || Meeting(both, p) != [])
            && Rest(Apart(left, p), Apart(both, p), right) + Reached(cluster + p, tv2) == Rest(left, both, right) + Reached(cluster, tv)
  {
    var p := tv[|tv| - 1].1;
    assert tv[|tv| - 1] in tv;
    assert p in o.left + o.both + o.right;
    VisitsPop(tv);
    GoLeftSets(o, left, both, right, cluster, tv);
    SplitLeft(o, left, both, right, p);
    MarkedAppend(o, tv[..|tv| - 1], Meeting(left, p), true);
    MarkedAppend(o, tv[..|tv| - 1] + Tag(Meeting(left, p), true), Meeting(both, p), true);
    GoLeftLinks(o, left, both, right, cluster, p, Reached(cluster, tv));
    GoLeftJoins(o, left, both, right, p, Reached(cluster, tv), joinedBoth);
  }


  /** One step of `join_clusters`' search from a left piece. */
  lemma BfsGoRight(o: Sides, m: int, left: seq<set<Tile>>, both: seq<set<Tile>>, right: seq<set<Tile>>,
                   cs: seq<set<Tile>>, tr: seq<set<Tile>>,
                   cluster: set<Tile>, tv: seq<(bool, set<Tile>)>, joinedBoth: bool)
    requires JoinReady(o) && BfsInv(o, m, left, both, right, cs, tr, cluster, tv, joinedBoth)
    requires tv != [] && tv[|tv| - 1].0
    ensures var p := tv[|tv| - 1].1;
            BfsInv(o, m, left, both, Apart(right, p), cs, tr, cluster + p,
                   tv[..|tv| - 1] + Tag(Meeting(right, p), false), joinedBoth)
  {
    var p := tv[|tv| - 1].1;
    var tv2 := tv[..|tv| - 1] + Tag(Meeting(right, p), false);
    FrontierGoRight(o, left, both, right, cluster, tv, joinedBoth);
    SameDone(o, Rest(left, both, right), Reached(cluster, tv), Rest(left, both, Apart(right, p)), Reached(cluster + p, tv2));
  }

  /** One step of `join_clusters`' search from a right piece. */
  lemma BfsGoLeft(o: Sides, m: int, left: seq<set<Tile>>, both: seq<set<Tile>>, right: seq<set<Tile>>,
                  cs: seq<set<Tile>>, tr: seq<set<Tile>>,
                  cluster: set<Tile>, tv: seq<(bool, set<Tile>)>, joinedBoth: bool)
    requires JoinReady(o) && BfsInv(o, m, left, both, right, cs, tr, cluster, tv, joinedBoth)
    requires tv != [] && !tv[|tv| - 1].0
    ensures var p := tv[|tv| - 1].1;
            BfsInv(o, m, Apart(left, p), Apart(both, p), right, cs, tr, cluster + p,
                   tv[..|tv| - 1] + Tag(Meeting(left, p), true) + Tag(Meeting(both, p), true),
                   joinedBoth || Meeting(both, p) != [])
  {
    var p := tv[|tv| - 1].1;
    var tv2 := tv[..|tv| - 1] + Tag(Meeting(left, p), true) + Tag(Meeting(both, p), true);
    FrontierGoLeft(o, left, both, right, cluster, tv, joinedBoth);
    SameDone(o, Rest(left, both, right), Reached(cluster, tv), Rest(Apart(left, p), Apart(both, p), right), Reached(cluster + p, tv2));
  }

  lemma ClosedUnion(c: set<Tile>, d: set<Tile>, s: set<Tile>)
    requires Closed(c, s) && Closed(d, s)
    ensures Closed(c + d, s)
  {
  }

  /** A search that has nothing left to visit has found a component of all the pieces' tiles. */
  lemma EndComponent(o: Sides, left: seq<set<Tile>>, both: seq<set<Tile>>, right: seq<set<Tile>>,
                     cluster: set<Tile>, joinedBoth: bool, done: set<Tile>)
    requires Frontier(o, left, both, right, cluster, [], joinedBoth)
    requires done == Whole(o) - Rest(left, both, right) - Reached(cluster, [])
    requires Closed(done, Whole(o))
    ensures Reached(cluster, []) == cluster
    ensures IsComponent(cluster, Whole(o))
    ensures done + cluster == Whole(o) - Rest(left, both, right) && done !! cluster
    ensures Closed(done + cluster, Whole(o))
    ensures joinedBoth <==> cluster * Union(o.both) != {}
  {
    assert Visits([]) == [];
    assert Reached(cluster, []) == cluster;
    var s, rest := Whole(o), Rest(left, both, right);
    forall x, y | x in cluster && y in s && Adjacent(x, y) ensures y in cluster {
      AdjacentSymmetric(x, y);
    }
    ClosedUnion(done, cluster, s);
  }

  /** A finished search's cluster joined a `both` piece: it goes with the clusters across the border. */
  lemma EmitAcross(o: Sides, m: int, cs: seq<set<Tile>>, tr: seq<set<Tile>>, cluster: set<Tile>, done: set<Tile>)
    requires Emitted(o, m, cs, tr) && Handled(o, m, cs, tr, done)
    requires IsComponent(cluster, Whole(o)) && done !! cluster && Closed(done + cluster, Whole(o))
    requires cluster * Union(o.both) != {}
    ensures Emitted(o, m, cs, tr + [cluster]) && Handled(o, m, cs, tr + [cluster], done + cluster)
  {
    UnionAppend(tr, [cluster]);
    UnionSingle(cluster);
    DisjointSnoc(tr, cluster);
  }

  /** A large cluster that joined no `both` piece is a finished cluster. */
  lemma EmitLarge(o: Sides, m: int, cs: seq<set<Tile>>, tr: seq<set<Tile>>, cluster: set<Tile>, done: set<Tile>)
    requires Emitted(o, m, cs, tr) && Handled(o, m, cs, tr, done)
    requires IsComponent(cluster, Whole(o)) && done !! cluster && Closed(done + cluster, Whole(o))
    requires cluster * Union(o.both) == {} && |cluster| >= m
    ensures Emitted(o, m, cs + [cluster], tr) && Handled(o, m, cs + [cluster], tr, done + cluster)
  {
    UnionAppend(cs, [cluster]);
    UnionSingle(cluster);
    DisjointSnoc(cs, cluster);
  }

  /** A small cluster that joined no `both` piece is dropped. */
  lemma EmitNone(o: Sides, m: int, cs: seq<set<Tile>>, tr: seq<set<Tile>>, cluster: set<Tile>, done: set<Tile>)
    requires Emitted(o, m, cs, tr) && Handled(o, m, cs, tr, done)
    requires IsComponent(cluster, Whole(o)) && done !! cluster && Closed(done + cluster, Whole(o))
    requires cluster * Union(o.both) == {} && |cluster| < m
    ensures Handled(o, m, cs, tr, done + cluster)
  {
    forall t | t in cluster ensures SmallApart(Whole(o), m, Union(o.both), t) {
    }
  }

  /** The end of one search of `join_clusters`: its cluster is a component of the right kind. */
  lemma BfsEnd(o: Sides, m: int, left: seq<set<Tile>>, both: seq<set<Tile>>, right: seq<set<Tile>>,
               cs: seq<set<Tile>>, tr: seq<set<Tile>>, cluster: set<Tile>, joinedBoth: bool)
    requires BfsInv(o, m, left, both, right, cs, tr, cluster, [], joinedBoth)
    ensures IsComponent(cluster, Whole(o))
    ensures joinedBoth <==> cluster * Union(o.both) != {}
    ensures joinedBoth ==> JoinInv(o, m, left, both, right, cs, tr + [cluster])
    ensures !joinedBoth && |cluster| >= m ==> JoinInv(o, m, left, both, right, cs + [cluster], tr)
    ensures !joinedBoth && |cluster| < m ==> JoinInv(o, m, left, both, right, cs, tr)
  {
    var done := Whole(o) - Rest(left, both, right) - Reached(cluster, []);
    EndComponent(o, left, both, right, cluster, joinedBoth, done);
    if joinedBoth {
      EmitAcross(o, m, cs, tr, cluster, done);
    } else if |cluster| >= m {
      EmitLarge(o, m, cs, tr, cluster, done);
    } else {
      EmitNone(o, m, cs, tr, cluster, done);
    }
  }

  /**
   * A connected piece among pieces of one side, where no two touch and the tiles outside
   * all of them are closed, is a component on its own.
   */
  lemma IsolatedPiece(s: set<Tile>, side: seq<set<Tile>>, ps: seq<set<Tile>>, p: set<Tile>)
    requires SideApart(side) && (forall q :: q in ps ==> q in side)
    requires p in ps && p != {} && Connected(p)
    requires Union(ps) <= s && Closed(s - Union(ps), s)
    ensures IsComponent(p, s)
  {
    UnionPiece(ps, p);
    forall x, y | x in p && y in s && Adjacent(x, y) ensures y in p {
      AdjacentSymmetric(x, y);
      assert y in Union(ps);
      var i :| 0 <= i < |ps| && y in ps[i];
      assert ps[i] in side && Touching(p, ps[i]);
    }
  }

  /**
   * Once no right piece is left, a left or `both` piece nobody reached is a component on
   * its own: it touches no finished tile and no other piece on its side.
   */
  lemma LeftoverComponent(o: Sides, left: seq<set<Tile>>, both: seq<set<Tile>>, p: set<Tile>)
    requires JoinReady(o) && Held(o, left, both, [])
    requires Closed(Whole(o) - Rest(left, both, []), Whole(o))
    requires p in left || p in both
    ensures IsComponent(p, Whole(o))
  {
    HeldWithin(o, left, both, []);
    assert p in left + both && p in o.left + o.both + o.right;
    UnionAppend(left, both);
    assert Union([]) == {};
    assert Rest(left, both, []) == Union(left + both);
    IsolatedPiece(Whole(o), o.left + o.both, left + both, p);
  }

  /** The clusters `join_clusters` returns do not overlap. */
  lemma JoinDisjoint(o: Sides, m: int, left: seq<set<Tile>>, both: seq<set<Tile>>,
                     cs: seq<set<Tile>>, tr: seq<set<Tile>>)
    requires JoinReady(o) && JoinInv(o, m, left, both, [], cs, tr)
    ensures Disjoint(cs + Large(left, m) + (both + tr))
  {
    ReadySides(o);
    HeldWithin(o, left, both, []);
    var l := Large(left, m);
    LargeDisjoint(left, m);
    UnionSub(l, left);
    UnionAppend(cs, l);
    UnionAppend(both, tr);
    DisjointAppend(cs, l);
    DisjointAppend(both, tr);
    DisjointAppend(cs + l, both + tr);
  }

  /** Every tile of the pieces is in a returned cluster or in a small component off `both`. */
  lemma JoinCover(o: Sides, m: int, left: seq<set<Tile>>, both: seq<set<Tile>>,
                  cs: seq<set<Tile>>, tr: seq<set<Tile>>)
    requires JoinReady(o) && JoinInv(o, m, left, both, [], cs, tr)
    ensures forall t :: t in Whole(o) ==>
              InSome(cs + Large(left, m) + (both + tr), t) || SmallApart(Whole(o), m, Union(o.both), t)
  {
    ReadySides(o);
    HeldWithin(o, left, both, []);
    var l := Large(left, m);
    var all := cs + l + (both + tr);
    UnionAppend(cs, l);
    UnionAppend(both, tr);
    UnionAppend(cs + l, both + tr);
    UnionInSome(all);
    assert Union([]) == {};
    forall t | t in Whole(o) ensures t in Union(all) || SmallApart(Whole(o), m, Union(o.both), t) {
      if t in Union(left) {
        var i :| 0 <= i < |left| && t in left[i];
        var p := left[i];
        assert p in left;
        LeftoverComponent(o, left, both, p);
        UnionPiece(o.left, p);
        if |p| >= m {
          UnionPiece(l, p);
        } else {
          assert p !! Union(o.both);
        }
      }
    }
  }

  /** The pieces still held when the right side runs out complete a correct join. */
  lemma JoinDone(o: Sides, m: int, left: seq<set<Tile>>, both: seq<set<Tile>>,
                 cs: seq<set<Tile>>, tr: seq<set<Tile>>)
    requires JoinReady(o) && JoinInv(o, m, left, both, [], cs, tr)
    ensures IsJoin(o, m, cs + Large(left, m), both + tr)
  {
    ReadySides(o);
    HeldWithin(o, left, both, []);
    var l := Large(left, m);
    forall i | 0 <= i < |cs + l|
      ensures IsComponent((cs + l)[i], Whole(o)) && |(cs + l)[i]| >= m && (cs + l)[i] !! Union(o.both)
    {
      if i >= |cs| {
        var p := l[i - |cs|];
        assert p in l && p in left;
        LeftoverComponent(o, left, both, p);
        UnionPiece(o.left, p);
      }
    }
    forall i | 0 <= i < |both + tr|
      ensures IsComponent((both + tr)[i], Whole(o)) && (both + tr)[i] * Union(o.both) != {}
    {
      if i < |both| {
        var p := both[i];
        assert p in both && p in o.both && p in o.left + o.both + o.right;
        LeftoverComponent(o, left, both, p);
        UnionPiece(o.both, p);
      }
    }
    JoinDisjoint(o, m, left, both, cs, tr);
    JoinCover(o, m, left, both, cs, tr);
  }

  /** Before the first search nothing is finished and every piece is still held. */
  lemma JoinStart(o: Sides, m: int)
    requires JoinReady(o)
    ensures JoinInv(o, m, o.left, o.both, o.right, [], [])
  {
    DisjointParts(o.left + o.both, o.right);
    DisjointParts(o.left, o.both);
    ReadySides(o);
    assert Union([]) == {};
    assert Whole(o) - Rest(o.left, o.both, o.right) == {};
  }
}
