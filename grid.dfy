/** Points, tiles and the quantisation shared by every RASTER routine. */
module Grid {

  /** A tile is identified by its two integer grid coordinates. */
  type Tile = (int, int)

  /** A raw two-dimensional observation. Floating point is modelled by exact reals. */
  datatype Point = Point(x: real, y: real)

  /** Sentinels that the Rust slices use as unbounded slice borders. */
  const I32Min: int := -0x8000_0000
  const I32Max: int := 0x7fff_ffff

  /** Truncation toward zero, as Python's int(), Rust's `as i32` and Java's (int) cast do. */
  function Trunc(r: real): (n: int)
    ensures r >= 0.0 ==> 0 <= n && n as real <= r < n as real + 1.0
    ensures r < 0.0 ==> n <= 0 && n as real - 1.0 < r <= n as real
  {
    if r >= 0.0 then r.Floor else -((-r).Floor)
  }

  function Pow10(n: nat): (r: nat)
    ensures r >= 1
  {
    if n == 0 then 1 else 10 * Pow10(n - 1)
  }

  /** The scaling factor 10^precision. */
  function Scalar(precision: int): (s: real)
    ensures s > 0.0
    ensures precision >= 0 ==> s == Pow10(precision) as real
  {
    if precision >= 0 then Pow10(precision) as real else 1.0 / Pow10(-precision) as real
  }

  /** The tile a point falls into: both coordinates scaled and truncated toward zero. */
  function Quantize(p: Point, scalar: real): Tile
  {
    (Trunc(p.x * scalar), Trunc(p.y * scalar))
  }

  /** 8-connectivity: two distinct tiles at Chebyshev distance one. */
  predicate Adjacent(a: Tile, b: Tile)
  {
    a != b && -1 <= a.0 - b.0 <= 1 && -1 <= a.1 - b.1 <= 1
  }

  lemma AdjacentSymmetric(a: Tile, b: Tile)
    ensures Adjacent(a, b) <==> Adjacent(b, a)
  {
  }

  /** The eight neighbour candidates, in the order every implementation lists them. */
  function Candidates(t: Tile): (c: seq<Tile>)
    ensures |c| == 8
    ensures forall n :: n in c <==> Adjacent(t, n)
    ensures Distinct(c)
  {
    var (x, y) := t;
    [(x + 1, y), (x - 1, y), (x, y + 1), (x, y - 1),
     (x + 1, y - 1), (x + 1, y + 1), (x - 1, y - 1), (x - 1, y + 1)]
  }

  function Elems<T>(s: seq<T>): set<T>
  {
    set x | x in s
  }

  predicate Distinct<T(==)>(s: seq<T>)
  {
    forall i, j :: 0 <= i < j < |s| ==> s[i] != s[j]
  }

  /** The candidates that are present in `tiles`, in candidate order. */
  function Present(cands: seq<Tile>, tiles: set<Tile>): (r: seq<Tile>)
    ensures Elems(r) == Elems(cands) * tiles
    ensures Distinct(cands) ==> Distinct(r)
    ensures forall n :: n in r ==> n in cands && n in tiles
  {
    if cands == [] then []
    else
      assert cands == [cands[0]] + cands[1..];
      assert Elems(cands) == {cands[0]} + Elems(cands[1..]);
      var rest := Present(cands[1..], tiles);
      if cands[0] in tiles then
        assert Elems([cands[0]] + rest) == {cands[0]} + Elems(rest);
        [cands[0]] + rest
      else rest
  }

  /** The neighbours of `t` present in `tiles`, in candidate order. */
  function PresentNeighbors(t: Tile, tiles: set<Tile>): (r: seq<Tile>)
    ensures Elems(r) == set n | n in tiles && Adjacent(t, n)
    ensures Distinct(r)
  {
    Present(Candidates(t), tiles)
  }

  lemma {:induction false} PresentSnoc(cands: seq<Tile>, c: Tile, tiles: set<Tile>)
    ensures Present(cands + [c], tiles) == Present(cands, tiles) + (if c in tiles then [c] else [])
  {
    if cands != [] {
      assert (cands + [c])[1..] == cands[1..] + [c];
      PresentSnoc(cands[1..], c, tiles);
    }
  }

  /** One candidate more at the front. */
  lemma PresentCons(c: Tile, cs: seq<Tile>, tiles: set<Tile>)
    ensures Present([c] + cs, tiles) == (if c in tiles then [c] else []) + Present(cs, tiles)
  {
    assert ([c] + cs)[1..] == cs;
  }

  /** Only the empty sequence has no elements. */
  lemma ElemsEmpty<T>(s: seq<T>)
    ensures Elems(s) == {} ==> s == []
  {
    if s != [] {
      assert s[0] in Elems(s);
    }
  }

  lemma ElemsAppend<T>(a: seq<T>, b: seq<T>)
    ensures Elems(a + b) == Elems(a) + Elems(b)
  {
  }

  lemma DistinctAppend<T>(a: seq<T>, b: seq<T>)
    requires Distinct(a) && Distinct(b) && Elems(a) !! Elems(b)
    ensures Distinct(a + b)
  {
    forall i, j | 0 <= i < j < |a + b| ensures (a + b)[i] != (a + b)[j] {
      if i < |a| && j >= |a| {
        assert (a + b)[i] in Elems(a) && (a + b)[j] in Elems(b);
      }
    }
  }

  /** A sequence without repetitions has as many distinct elements as entries. */
  lemma {:induction false} DistinctCard<T>(s: seq<T>)
    requires Distinct(s)
    ensures |Elems(s)| == |s|
  {
    if s != [] {
      var init := s[..|s| - 1];
      assert s == init + [s[|s| - 1]];
      assert Distinct(init);
      DistinctCard(init);
      assert s[|s| - 1] !in Elems(init);
      assert Elems(s) == Elems(init) + {s[|s| - 1]};
    }
  }

  /** The first components of a sequence of pairs. */
  function Firsts<K, V>(ps: seq<(K, V)>): (r: seq<K>)
    ensures |r| == |ps|
    ensures forall i :: 0 <= i < |ps| ==> r[i] == ps[i].0
  {
    seq(|ps|, i requires 0 <= i < |ps| => ps[i].0)
  }

  lemma FirstsAppend<K, V>(a: seq<(K, V)>, b: seq<(K, V)>)
    ensures Firsts(a + b) == Firsts(a) + Firsts(b)
  {
  }

  lemma FirstsPrefix<K, V>(a: seq<(K, V)>, n: int)
    requires 0 <= n <= |a|
    ensures Firsts(a[..n]) == Firsts(a)[..n]
  {
  }

  /** Whether some tile of `c` lies in column `x`. */
  predicate Touches(c: set<Tile>, x: int)
  {
    exists t :: t in c && t.0 == x
  }
}
