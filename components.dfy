/**
 * Connected components of the 8-neighbour tile graph, what a RASTER clustering is,
 * and the invariants of the destructive flood fill that every implementation uses.
 */
module Components {
  import opened Grid

  /** No tile of `c` has a neighbour in `s` that lies outside `c`. */
  ghost predicate Closed(c: set<Tile>, s: set<Tile>)
  {
    forall a, b :: a in c && b in s && Adjacent(a, b) ==> b in c
  }

  /** `c` cannot be split: its only non-empty subset closed within `c` is `c` itself. */
  ghost predicate Connected(c: set<Tile>)
  {
    forall d :: d <= c && d != {} && Closed(d, c) ==> d == c
  }

  /** A maximal 8-connected subset of `s`. */
  ghost predicate IsComponent(c: set<Tile>, s: set<Tile>)
  {
    c != {} && c <= s && Closed(c, s) && Connected(c)
  }

  ghost predicate IsPath(p: seq<Tile>, c: set<Tile>)
  {
    && |p| > 0
    && (forall i :: 0 <= i < |p| ==> p[i] in c)
    && (forall i :: 0 <= i < |p| - 1 ==> Adjacent(p[i], p[i + 1]))
  }

  /** `a` and `b` are joined by a chain of neighbouring tiles of `c`. */
  ghost predicate Linked(a: Tile, b: Tile, c: set<Tile>)
  {
    exists p :: IsPath(p, c) && p[0] == a && p[|p| - 1] == b
  }

  /** A path that starts inside a closed part of `c` never leaves it. */
  lemma {:induction false} PathStaysIn(p: seq<Tile>, c: set<Tile>, d: set<Tile>)
    requires IsPath(p, c) && d <= c && Closed(d, c) && p[0] in d
    ensures forall i :: 0 <= i < |p| ==> p[i] in d
  {
    if |p| > 1 {
      var q := p[..|p| - 1];
      assert IsPath(q, c);
      PathStaysIn(q, c, d);
      assert p[|p| - 2] == q[|q| - 1];
      assert Adjacent(p[|p| - 2], p[|p| - 1]);
    }
  }

  /** The definition of Connected agrees with the usual one in terms of paths. */
  lemma ConnectedMeansLinked(c: set<Tile>)
    ensures Connected(c) <==> forall a, b :: a in c && b in c ==> Linked(a, b, c)
  {
    if Connected(c) {
      forall a, b | a in c && b in c
        ensures Linked(a, b, c)
      {
        var d := set t | t in c && Linked(a, t, c);
        assert IsPath([a], c);
        assert a in d;
        forall u, v | u in d && v in c && Adjacent(u, v)
          ensures v in d
        {
          var p :| IsPath(p, c) && p[0] == a && p[|p| - 1] == u;
          var q := p + [v];
          assert IsPath(q, c);
          assert Linked(a, v, c);
        }
        assert Closed(d, c);
      }
    }
    if forall a, b :: a in c && b in c ==> Linked(a, b, c) {
      forall d | d <= c && d != {} && Closed(d, c)
        ensures d == c
      {
        var x :| x in d;
        forall b | b in c
          ensures b in d
        {
          assert Linked(x, b, c);
          var p :| IsPath(p, c) && p[0] == x && p[|p| - 1] == b;
          PathStaysIn(p, c, d);
        }
      }
    }
  }

  lemma SingletonConnected(t: Tile)
    ensures Connected({t})
  {
  }

  /** Two connected sets with a pair of neighbouring tiles form a connected set. */
  lemma Glue(a: set<Tile>, b: set<Tile>, x: Tile, y: Tile)
    requires Connected(a) && Connected(b)
    requires x in a && y in b && Adjacent(x, y)
    ensures Connected(a + b)
  {
    AdjacentSymmetric(x, y);
    forall d | d <= a + b && d != {} && Closed(d, a + b)
      ensures d == a + b
    {
      var da, db := d * a, d * b;
      ClosedWithin(d, a + b, a);
      ClosedWithin(d, a + b, b);
      var z :| z in d;
      if z in a {
        assert z in da;
        ConnectedPart(a, da);
        assert x in d && y in d;
        assert y in db;
        ConnectedPart(b, db);
      } else {
        assert z in db;
        ConnectedPart(b, db);
        assert y in d && x in d;
        assert x in da;
        ConnectedPart(a, da);
      }
      assert d == da + db;
    }
  }

  /** A closed part of a set, cut down to a subset, is closed within that subset. */
  lemma ClosedWithin(d: set<Tile>, s: set<Tile>, a: set<Tile>)
    requires Closed(d, s) && a <= s
    ensures Closed(d * a, a)
  {
  }

  /** A non-empty closed part of a connected set is all of it. */
  lemma ConnectedPart(a: set<Tile>, d: set<Tile>)
    requires Connected(a) && d <= a && d != {} && Closed(d, a)
    ensures d == a
  {
  }

  /** Two components of the same set are equal as soon as they share a tile. */
  lemma ComponentsMeet(c1: set<Tile>, c2: set<Tile>, s: set<Tile>)
    requires IsComponent(c1, s) && IsComponent(c2, s)
    requires c1 * c2 != {}
    ensures c1 == c2
  {
    var d := c1 * c2;
    assert Closed(d, c1);
    assert Closed(d, c2);
  }

  ghost predicate InSome(cs: seq<set<Tile>>, t: Tile)
  {
    exists i :: 0 <= i < |cs| && t in cs[i]
  }

  ghost predicate Disjoint(cs: seq<set<Tile>>)
  {
    forall i, j :: 0 <= i < j < |cs| ==> cs[i] !! cs[j]
  }

  /** `t` lies in a component of `s` that has fewer than `m` tiles. */
  ghost predicate InSmall(s: set<Tile>, m: int, t: Tile)
  {
    exists d :: t in d && IsComponent(d, s) && |d| < m
  }

  /**
   * The result of agglomeration: the components of `s` with at least `m` tiles,
   * pairwise disjoint, and every other tile of `s` in a component that is too small.
   */
  ghost predicate IsClustering(s: set<Tile>, m: int, cs: seq<set<Tile>>)
  {
    && (forall i :: 0 <= i < |cs| ==> IsComponent(cs[i], s) && |cs[i]| >= m)
    && Disjoint(cs)
    && (forall t :: t in s ==> InSome(cs, t) || InSmall(s, m, t))
  }

  /** A large component of `s` is one of the clusters of any clustering of `s`. */
  lemma LargeComponentIsCluster(s: set<Tile>, m: int, b: seq<set<Tile>>, c: set<Tile>)
    requires IsClustering(s, m, b)
    requires IsComponent(c, s) && |c| >= m
    ensures c in b
  {
    var t :| t in c;
    assert t in s;
    if InSome(b, t) {
      var j :| 0 <= j < |b| && t in b[j];
      assert IsComponent(b[j], s);
      assert t in c * b[j];
      ComponentsMeet(c, b[j], s);
    } else {
      var d :| t in d && IsComponent(d, s) && |d| < m;
      assert t in c * d;
      ComponentsMeet(c, d, s);
    }
  }

  lemma InOther(s: set<Tile>, m: int, a: seq<set<Tile>>, b: seq<set<Tile>>, c: set<Tile>)
    requires IsClustering(s, m, a) && IsClustering(s, m, b)
    requires c in a
    ensures c in b
  {
    var i :| 0 <= i < |a| && a[i] == c;
    LargeComponentIsCluster(s, m, b, c);
  }

  lemma {:induction false} DisjointCount(cs: seq<set<Tile>>, c: set<Tile>)
    requires Disjoint(cs)
    requires forall i :: 0 <= i < |cs| ==> cs[i] != {}
    ensures multiset(cs)[c] == if c in cs then 1 else 0
  {
    if cs != [] {
      var rest := cs[1..];
      assert cs == [cs[0]] + rest;
      assert Disjoint(rest) by {
        forall i, j | 0 <= i < j < |rest| ensures rest[i] !! rest[j] {
          assert rest[i] == cs[i + 1] && rest[j] == cs[j + 1];
        }
      }
      DisjointCount(rest, c);
      if c == cs[0] {
        forall i | 0 <= i < |rest| ensures rest[i] != c {
          assert cs[0] !! cs[i + 1];
        }
      }
    }
  }

  /**
   * A clustering is unique up to order: two clusterings of the same tiles with the
   * same size floor consist of the same clusters, each exactly once.
   */
  lemma ClusteringUnique(s: set<Tile>, m: int, a: seq<set<Tile>>, b: seq<set<Tile>>)
    requires IsClustering(s, m, a) && IsClustering(s, m, b)
    ensures Elems(a) == Elems(b)
    ensures multiset(a) == multiset(b)
  {
    forall c | c in a ensures c in b { InOther(s, m, a, b, c); }
    forall c | c in b ensures c in a { InOther(s, m, b, a, c); }
    forall c ensures multiset(a)[c] == multiset(b)[c] {
      DisjointCount(a, c);
      DisjointCount(b, c);
    }
  }

  /** Two clusterings of one set have as many clusters, and the same ones. */
  lemma SameClusters(s: set<Tile>, m: int, a: seq<set<Tile>>, b: seq<set<Tile>>)
    requires IsClustering(s, m, a) && IsClustering(s, m, b)
    ensures |a| == |b| && forall c :: c in b ==> c in a
  {
    ClusteringUnique(s, m, a, b);
    assert |multiset(a)| == |a| && |multiset(b)| == |b|;
    forall c | c in b ensures c in a {
      assert c in Elems(b);
    }
  }

  /** The key sets of a list of tile maps (the prime variant's clusters). */
  function KeySets<V>(cs: seq<map<Tile, V>>): (r: seq<set<Tile>>)
    ensures |r| == |cs|
    ensures forall i :: 0 <= i < |cs| ==> r[i] == cs[i].Keys
  {
    seq(|cs|, i requires 0 <= i < |cs| => cs[i].Keys)
  }

  /** Every entry of `a` is an entry of `b`, with the same value. */
  ghost predicate SubMap<V>(a: map<Tile, V>, b: map<Tile, V>)
  {
    forall k :: k in a ==> k in b && a[k] == b[k]
  }

  /**
   * The result of agglomerating a tile map: the key sets form a clustering of the
   * keys, and every tile keeps the value it had in the input.
   */
  ghost predicate IsMapClustering<V>(s: map<Tile, V>, m: int, cs: seq<map<Tile, V>>)
  {
    && IsClustering(s.Keys, m, KeySets(cs))
    && (forall i :: 0 <= i < |cs| ==> SubMap(cs[i], s))
  }

  // ---------------------------------------------------------------------------
  // Flood fill
  // ---------------------------------------------------------------------------

  /**
   * One flood fill in progress. It started from `seed` over the working set `w0`;
   * `visited` are the tiles already in the component, `frontier` the tiles found but
   * not expanded, and `rest` what is left of the working set. Removal from the
   * working set is the visited mark: no visited tile has a neighbour left in `rest`.
   */
  ghost predicate FillInv(w0: set<Tile>, seed: Tile, visited: set<Tile>, frontier: set<Tile>, rest: set<Tile>)
  {
    && seed in visited
    && visited !! frontier && visited !! rest && frontier !! rest
    && visited + frontier + rest == w0
    && Connected(visited)
    && (forall v, n :: v in visited && n in rest ==> !Adjacent(v, n))
    && (forall f :: f in frontier ==> exists v :: v in visited && Adjacent(v, f))
  }

  /** Removing the seed and its present neighbours starts a flood fill. */
  lemma FillStart(w0: set<Tile>, seed: Tile, found: set<Tile>)
    requires seed in w0
    requires found == set n | n in w0 - {seed} && Adjacent(seed, n)
    ensures FillInv(w0, seed, {seed}, found, w0 - {seed} - found)
  {
    SingletonConnected(seed);
  }

  /** Visiting a frontier tile and removing its present neighbours keeps the fill invariant. */
  lemma FillStep(w0: set<Tile>, seed: Tile, visited: set<Tile>, frontier: set<Tile>, rest: set<Tile>,
                 val: Tile, found: set<Tile>)
    requires FillInv(w0, seed, visited, frontier, rest)
    requires val in frontier
    requires found == set n | n in rest && Adjacent(val, n)
    ensures FillInv(w0, seed, visited + {val}, frontier - {val} + found, rest - found)
  {
    var v :| v in visited && Adjacent(v, val);
    SingletonConnected(val);
    Glue(visited, {val}, v, val);
    forall f | f in frontier - {val} + found
      ensures exists u :: u in visited + {val} && Adjacent(u, f)
    {
      if f in found {
        assert val in visited + {val} && Adjacent(val, f);
      } else {
        var u :| u in visited && Adjacent(u, f);
        assert u in visited + {val};
      }
    }
  }

  /** Popping the last tile of a frontier list without repetitions. */
  lemma FrontierPop(t: seq<Tile>)
    requires t != [] && Distinct(t)
    ensures Distinct(t[..|t| - 1])
    ensures t[|t| - 1] !in Elems(t[..|t| - 1])
    ensures Elems(t) == Elems(t[..|t| - 1]) + {t[|t| - 1]}
  {
    assert t == t[..|t| - 1] + [t[|t| - 1]];
  }

  /**
   * Queueing the neighbours just removed from the working set `rest`: the frontier
   * list stays free of repetitions, and the tiles still to be handled shrink.
   */
  lemma FrontierPush(t: seq<Tile>, found: seq<Tile>, rest: set<Tile>)
    requires Distinct(t) && Distinct(found)
    requires Elems(t) !! rest && Elems(found) <= rest
    ensures Distinct(t + found)
    ensures Elems(t + found) == Elems(t) + Elems(found)
    ensures |rest - Elems(found)| + |t + found| == |rest| + |t|
  {
    ElemsAppend(t, found);
    DistinctAppend(t, found);
    DistinctCard(found);
  }

  /** Taking the seed and its present neighbours out of the working set starts a fill. */
  lemma FillBegin(w0: set<Tile>, seed: Tile, found: seq<Tile>)
    requires seed in w0
    requires found == PresentNeighbors(seed, w0 - {seed})
    ensures FillInv(w0, seed, {seed}, Elems(found), w0 - {seed} - Elems(found))
    ensures Distinct(found)
  {
    FillStart(w0, seed, Elems(found));
  }

  /**
   * One step of a fill whose frontier is a list used as a stack: popping its last tile,
   * visiting it and pushing its present neighbours keeps the fill invariant and
   * shrinks the tiles still to be handled.
   */
  lemma FillAdvance(w0: set<Tile>, seed: Tile, visited: set<Tile>, t: seq<Tile>, rest: set<Tile>, found: seq<Tile>)
    requires FillInv(w0, seed, visited, Elems(t), rest) && Distinct(t) && t != []
    requires found == PresentNeighbors(t[|t| - 1], rest)
    ensures FillInv(w0, seed, visited + {t[|t| - 1]}, Elems(t[..|t| - 1] + found), rest - Elems(found))
    ensures Distinct(t[..|t| - 1] + found)
    ensures |rest - Elems(found)| + |t[..|t| - 1] + found| < |rest| + |t|
  {
    FillStep(w0, seed, visited, Elems(t), rest, t[|t| - 1], Elems(found));
    FrontierNext(t, found, rest);
  }

  /** The frontier list after popping its last tile and pushing `found`. */
  lemma FrontierNext(t: seq<Tile>, found: seq<Tile>, rest: set<Tile>)
    requires t != [] && Distinct(t) && Distinct(found)
    requires Elems(t) !! rest && Elems(found) <= rest
    ensures Elems(t) - {t[|t| - 1]} + Elems(found) == Elems(t[..|t| - 1] + found)
    ensures Distinct(t[..|t| - 1] + found)
    ensures |rest - Elems(found)| + |t[..|t| - 1] + found| < |rest| + |t|
  {
    FrontierPop(t);
    FrontierPush(t[..|t| - 1], found, rest);
  }

  /** Taking the first tile off a frontier list without repetitions. */
  lemma FrontierDequeue(t: seq<Tile>)
    requires t != [] && Distinct(t)
    ensures Distinct(t[1..])
    ensures t[0] !in Elems(t[1..])
    ensures Elems(t) == Elems(t[1..]) + {t[0]}
  {
    assert t == [t[0]] + t[1..];
  }

  /**
   * One step of a fill whose frontier is a list used as a queue: taking its first tile,
   * visiting it and appending its present neighbours keeps the fill invariant and
   * shrinks the tiles still to be handled.
   */
  lemma FillAdvanceFront(w0: set<Tile>, seed: Tile, visited: set<Tile>, t: seq<Tile>, rest: set<Tile>, found: seq<Tile>)
    requires FillInv(w0, seed, visited, Elems(t), rest) && Distinct(t) && t != []
    requires found == PresentNeighbors(t[0], rest)
    ensures FillInv(w0, seed, visited + {t[0]}, Elems(t[1..] + found), rest - Elems(found))
    ensures Distinct(t[1..] + found)
    ensures |rest - Elems(found)| + |t[1..] + found| < |rest| + |t|
  {
    FillStep(w0, seed, visited, Elems(t), rest, t[0], Elems(found));
    FrontierNextFront(t, found, rest);
  }

  /** The frontier list after taking its first tile and appending `found`. */
  lemma FrontierNextFront(t: seq<Tile>, found: seq<Tile>, rest: set<Tile>)
    requires t != [] && Distinct(t) && Distinct(found)
    requires Elems(t) !! rest && Elems(found) <= rest
    ensures Elems(t) - {t[0]} + Elems(found) == Elems(t[1..] + found)
    ensures Distinct(t[1..] + found)
    ensures |rest - Elems(found)| + |t[1..] + found| < |rest| + |t|
  {
    FrontierDequeue(t);
    FrontierPush(t[1..], found, rest);
  }

  // ---------------------------------------------------------------------------
  // Flood fill over a tile map (the prime variant)
  // ---------------------------------------------------------------------------

  /** Every pair holds a key of `s` and the value `s` has for it. */
  ghost predicate PairsFrom<V>(ps: seq<(Tile, V)>, s: map<Tile, V>)
  {
    forall j :: 0 <= j < |ps| ==> ps[j].0 in s && ps[j].1 == s[ps[j].0]
  }

  /**
   * A fill over the tile map `s`: the key sets follow `FillInv`, and the visited
   * map, the frontier pairs and the remaining working map all carry the values of `s`.
   */
  ghost predicate MapFillInv<V>(s: map<Tile, V>, w0: set<Tile>, seed: Tile, visited: map<Tile, V>,
                                toCheck: seq<(Tile, V)>, squares: map<Tile, V>)
  {
    && FillInv(w0, seed, visited.Keys, Elems(Firsts(toCheck)), squares.Keys)
    && Distinct(Firsts(toCheck))
    && SubMap(visited, s) && SubMap(squares, s) && PairsFrom(toCheck, s)
  }

  lemma MapFillBegin<V>(s: map<Tile, V>, w: map<Tile, V>, seed: Tile, found: seq<(Tile, V)>)
    requires SubMap(w, s) && seed in w
    requires Firsts(found) == PresentNeighbors(seed, w.Keys - {seed})
    requires PairsFrom(found, w - {seed})
    ensures MapFillInv(s, w.Keys, seed, map[seed := w[seed]], found, w - {seed} - Elems(Firsts(found)))
  {
    FillBegin(w.Keys, seed, Firsts(found));
  }

  /** Popping the last pair, visiting it and pushing the pairs just taken out of `squares`. */
  lemma MapFillAdvance<V>(s: map<Tile, V>, w0: set<Tile>, seed: Tile, visited: map<Tile, V>,
                          toCheck: seq<(Tile, V)>, squares: map<Tile, V>, found: seq<(Tile, V)>)
    requires MapFillInv(s, w0, seed, visited, toCheck, squares) && toCheck != []
    requires Firsts(found) == PresentNeighbors(toCheck[|toCheck| - 1].0, squares.Keys)
    requires PairsFrom(found, squares)
    ensures MapFillInv(s, w0, seed, visited[toCheck[|toCheck| - 1].0 := toCheck[|toCheck| - 1].1],
                       toCheck[..|toCheck| - 1] + found, squares - Elems(Firsts(found)))
    ensures |squares - Elems(Firsts(found))| + |toCheck[..|toCheck| - 1] + found| < |squares| + |toCheck|
  {
    var n, last := |toCheck|, toCheck[|toCheck| - 1];
    var t, f := Firsts(toCheck), Firsts(found);
    MapFillArgs(visited, toCheck, squares, found);
    FillAdvance(w0, seed, visited.Keys, t, squares.Keys, f);
    assert FillInv(w0, seed, visited[last.0 := last.1].Keys, Elems(Firsts(toCheck[..n - 1] + found)),
                   (squares - Elems(f)).Keys);
    PairsAdvance(s, visited, toCheck, squares, found);
  }

  /** Taking the first pair, visiting it and appending the pairs just taken out of `squares`. */
  lemma MapFillAdvanceFront<V>(s: map<Tile, V>, w0: set<Tile>, seed: Tile, visited: map<Tile, V>,
                               toCheck: seq<(Tile, V)>, squares: map<Tile, V>, found: seq<(Tile, V)>)
    requires MapFillInv(s, w0, seed, visited, toCheck, squares) && toCheck != []
    requires Firsts(found) == PresentNeighbors(toCheck[0].0, squares.Keys)
    requires PairsFrom(found, squares)
    ensures MapFillInv(s, w0, seed, visited[toCheck[0].0 := toCheck[0].1],
                       toCheck[1..] + found, squares - Elems(Firsts(found)))
    ensures |squares - Elems(Firsts(found))| + |toCheck[1..] + found| < |squares| + |toCheck|
  {
    var first, t, f := toCheck[0], Firsts(toCheck), Firsts(found);
    MapFillArgsFront(visited, toCheck, squares, found);
    FillAdvanceFront(w0, seed, visited.Keys, t, squares.Keys, f);
    assert FillInv(w0, seed, visited[first.0 := first.1].Keys, Elems(Firsts(toCheck[1..] + found)),
                   (squares - Elems(f)).Keys);
    PairsAdvanceFront(s, visited, toCheck, squares, found);
  }

  /** How the key sets of one step of a queue-order map fill are those of `FillAdvanceFront`. */
  lemma MapFillArgsFront<V>(visited: map<Tile, V>, toCheck: seq<(Tile, V)>, squares: map<Tile, V>, found: seq<(Tile, V)>)
    requires toCheck != []
    ensures var t, first := Firsts(toCheck), toCheck[0];
      && t != []
      && t[0] == first.0
      && t[1..] + Firsts(found) == Firsts(toCheck[1..] + found)
      && visited.Keys + {first.0} == visited[first.0 := first.1].Keys
      && squares.Keys - Elems(Firsts(found)) == (squares - Elems(Firsts(found))).Keys
      && |squares - Elems(Firsts(found))| == |squares.Keys - Elems(Firsts(found))|
      && |squares| == |squares.Keys|
      && |toCheck[1..] + found| == |t[1..] + Firsts(found)|
  {
    assert Firsts(toCheck)[1..] == Firsts(toCheck[1..]);
    FirstsAppend(toCheck[1..], found);
  }

  /** The values stay those of `s` through one step of the queue-order fill. */
  lemma PairsAdvanceFront<V>(s: map<Tile, V>, visited: map<Tile, V>, toCheck: seq<(Tile, V)>,
                             squares: map<Tile, V>, found: seq<(Tile, V)>)
    requires SubMap(visited, s) && SubMap(squares, s) && PairsFrom(toCheck, s) && toCheck != []
    requires PairsFrom(found, squares)
    ensures SubMap(visited[toCheck[0].0 := toCheck[0].1], s)
    ensures SubMap(squares - Elems(Firsts(found)), s)
    ensures PairsFrom(toCheck[1..] + found, s)
  {
    var t := toCheck[1..] + found;
    forall j | 0 <= j < |t| ensures t[j].0 in s && t[j].1 == s[t[j].0] {
      if j >= |toCheck| - 1 {
        assert t[j] == found[j - (|toCheck| - 1)];
      } else {
        assert t[j] == toCheck[j + 1];
      }
    }
  }

  /** How the key sets of one step of a map fill are those of one step of `FillAdvance`. */
  lemma MapFillArgs<V>(visited: map<Tile, V>, toCheck: seq<(Tile, V)>, squares: map<Tile, V>, found: seq<(Tile, V)>)
    requires toCheck != []
    ensures var t, last := Firsts(toCheck), toCheck[|toCheck| - 1];
      && t != []
      && t[|t| - 1] == last.0
      && t[..|t| - 1] + Firsts(found) == Firsts(toCheck[..|toCheck| - 1] + found)
      && visited.Keys + {last.0} == visited[last.0 := last.1].Keys
      && squares.Keys - Elems(Firsts(found)) == (squares - Elems(Firsts(found))).Keys
      && |squares - Elems(Firsts(found))| == |squares.Keys - Elems(Firsts(found))|
      && |squares| == |squares.Keys|
      && |toCheck[..|toCheck| - 1] + found| == |t[..|t| - 1] + Firsts(found)|
  {
    FirstsPrefix(toCheck, |toCheck| - 1);
    FirstsAppend(toCheck[..|toCheck| - 1], found);
  }

  /** The values stay those of `s` through one step of the fill. */
  lemma PairsAdvance<V>(s: map<Tile, V>, visited: map<Tile, V>, toCheck: seq<(Tile, V)>,
                        squares: map<Tile, V>, found: seq<(Tile, V)>)
    requires SubMap(visited, s) && SubMap(squares, s) && PairsFrom(toCheck, s) && toCheck != []
    requires PairsFrom(found, squares)
    ensures SubMap(visited[toCheck[|toCheck| - 1].0 := toCheck[|toCheck| - 1].1], s)
    ensures SubMap(squares - Elems(Firsts(found)), s)
    ensures PairsFrom(toCheck[..|toCheck| - 1] + found, s)
  {
    var t := toCheck[..|toCheck| - 1] + found;
    forall j | 0 <= j < |t| ensures t[j].0 in s && t[j].1 == s[t[j].0] {
      if j >= |toCheck| - 1 {
        assert t[j] == found[j - (|toCheck| - 1)];
      }
    }
  }

  /** Taking one more present key out of the working map, with its value. */
  lemma PairsSnoc<V>(result: seq<(Tile, V)>, m0: map<Tile, V>, cur: map<Tile, V>, n: Tile)
    requires PairsFrom(result, m0) && cur == m0 - Elems(Firsts(result)) && n in cur
    ensures PairsFrom(result + [(n, cur[n])], m0)
    ensures Firsts(result + [(n, cur[n])]) == Firsts(result) + [n]
    ensures cur - {n} == m0 - Elems(Firsts(result + [(n, cur[n])]))
  {
    FirstsAppend(result, [(n, cur[n])]);
    ElemsAppend(Firsts(result), [n]);
  }

  /**
   * The outer loop over a tile map: the key sets follow `SweepInv`, and the working map
   * and every emitted cluster carry the values of `s`.
   */
  ghost predicate MapSweepInv<V>(s: map<Tile, V>, m: int, squares: map<Tile, V>, cs: seq<map<Tile, V>>)
  {
    && SweepInv(s.Keys, m, squares.Keys, KeySets(cs))
    && SubMap(squares, s)
    && (forall i :: 0 <= i < |cs| ==> SubMap(cs[i], s))
  }

  /**
   * The outer loop of agglomeration: `rest` is the untouched part of `s`; every tile
   * taken out of it lies in an emitted cluster or in a discarded small component,
   * and the part taken out has no neighbour left in `rest`.
   */
  ghost predicate SweepInv(s: set<Tile>, m: int, rest: set<Tile>, cs: seq<set<Tile>>)
  {
    && rest <= s
    && (forall a, b :: a in s - rest && b in rest ==> !Adjacent(a, b))
    && (forall i :: 0 <= i < |cs| ==> IsComponent(cs[i], s) && |cs[i]| >= m && cs[i] !! rest)
    && Disjoint(cs)
    && (forall t :: t in s - rest ==> InSome(cs, t) || InSmall(s, m, t))
  }

  lemma SweepStart(s: set<Tile>, m: int)
    ensures SweepInv(s, m, s, [])
  {
  }

  lemma SweepDone(s: set<Tile>, m: int, cs: seq<set<Tile>>)
    requires SweepInv(s, m, {}, cs)
    ensures IsClustering(s, m, cs)
  {
  }

  /** A finished flood fill is a component of `s`: keep it when it is large enough. */
  lemma SweepStep(s: set<Tile>, m: int, rest: set<Tile>, cs: seq<set<Tile>>,
                  seed: Tile, visited: set<Tile>, rest': set<Tile>)
    requires SweepInv(s, m, rest, cs)
    requires FillInv(rest, seed, visited, {}, rest')
    ensures IsComponent(visited, s)
    ensures SweepInv(s, m, rest', if |visited| >= m then cs + [visited] else cs)
  {
    forall a, b | a in visited && b in s && Adjacent(a, b)
      ensures b in visited
    {
      AdjacentSymmetric(a, b);
    }
    assert Closed(visited, s);
    var cs' := if |visited| >= m then cs + [visited] else cs;
    forall t | t in s - rest'
      ensures InSome(cs', t) || InSmall(s, m, t)
    {
      if t in visited {
        if |visited| >= m {
          assert cs'[|cs|] == visited;
        } else {
          assert InSmall(s, m, t);
        }
      } else {
        assert t in s - rest;
        if InSome(cs, t) {
          var i :| 0 <= i < |cs| && t in cs[i];
          assert cs'[i] == cs[i];
        }
      }
    }
    forall a, b | a in s - rest' && b in rest'
      ensures !Adjacent(a, b)
    {
    }
  }

  lemma MapSweepStart<V>(s: map<Tile, V>, m: int)
    ensures MapSweepInv(s, m, s, [])
  {
    SweepStart(s.Keys, m);
  }

  lemma MapSweepDone<V>(s: map<Tile, V>, m: int, cs: seq<map<Tile, V>>)
    requires MapSweepInv(s, m, map[], cs)
    ensures IsMapClustering(s, m, cs)
  {
    SweepDone(s.Keys, m, KeySets(cs));
  }

  /** A finished fill becomes a cluster or is discarded. */
  lemma MapSweepStep<V>(s: map<Tile, V>, m: int, squares: map<Tile, V>, cs: seq<map<Tile, V>>,
                        seed: Tile, visited: map<Tile, V>, rest: map<Tile, V>)
    requires MapSweepInv(s, m, squares, cs)
    requires MapFillInv(s, squares.Keys, seed, visited, [], rest)
    ensures IsComponent(visited.Keys, s.Keys)
    ensures MapSweepInv(s, m, rest, if |visited| >= m then cs + [visited] else cs)
  {
    SweepStep(s.Keys, m, squares.Keys, KeySets(cs), seed, visited.Keys, rest.Keys);
    KeySetsSnoc(cs, visited);
    if |visited| >= m {
      assert SweepInv(s.Keys, m, rest.Keys, KeySets(cs + [visited]));
    }
    forall i | 0 <= i < |cs| ensures SubMap(cs[i], s) {
    }
  }

  lemma KeySetsSnoc<V>(cs: seq<map<Tile, V>>, c: map<Tile, V>)
    ensures KeySets(cs + [c]) == KeySets(cs) + [c.Keys]
    ensures |c| == |c.Keys|
  {
  }
}
