/**
 * 2_benchmark_rust/src/raster/par.rs: RASTER with the projection spread over batches and
 * the agglomeration over vertical slices of the grid. Threads and channels become a
 * sequential map over the batches and slices; the merge of their results is a fold.
 */
module RustPar {
  import opened Wrappers
  import opened Grid
  import opened Components
  import opened Pieces
  import opened Slices
  import opened Projection
  import RustLib
  import ParProjections

  // ---------------------------------------------------------------------------
  // Projection over batches
  // ---------------------------------------------------------------------------

  /** `slice::chunks(size)`: consecutive pieces of `size` points, the last one possibly shorter. */
  function Chunks(points: seq<Point>, size: nat): seq<seq<Point>>
    requires size >= 1
    decreases |points|
  {
    if points == [] then []
    else if |points| <= size then [points]
    else [points[..size]] + Chunks(points[size..], size)
  }

  /** The batches put back together, one after the other. */
  function Concat(bs: seq<seq<Point>>): seq<Point>
  {
    if bs == [] then [] else bs[0] + Concat(bs[1..])
  }

  lemma {:induction false} ConcatAppend(bs: seq<seq<Point>>, b: seq<Point>)
    ensures Concat(bs + [b]) == Concat(bs) + b
    decreases |bs|
  {
    if bs == [] {
      assert bs + [b] == [b];
      assert [b][1..] == [];
    } else {
      assert (bs + [b])[1..] == bs[1..] + [b];
      ConcatAppend(bs[1..], b);
    }
  }

  lemma ConcatSnoc(bs: seq<seq<Point>>, j: int)
    requires 0 <= j < |bs|
    ensures Concat(bs[..j + 1]) == Concat(bs[..j]) + bs[j]
  {
    assert bs[..j + 1] == bs[..j] + [bs[j]];
    ConcatAppend(bs[..j], bs[j]);
  }

  lemma Distrib(k: int, s: int)
    ensures (k + 1) * s == k * s + s
  {
  }

  /**
   * The chunks give back the points in order; every chunk but the last has exactly
   * `size` points, and the chunks are as few as can hold the points `size` at a time.
   */
  lemma ChunksFacts(points: seq<Point>, size: nat)
    requires size >= 1
    ensures Concat(Chunks(points, size)) == points
    ensures forall b :: b in Chunks(points, size) ==> 1 <= |b| <= size
    ensures forall i :: 0 <= i < |Chunks(points, size)| - 1 ==> |Chunks(points, size)[i]| == size
    ensures (|Chunks(points, size)| - 1) * size < |points| <= |Chunks(points, size)| * size
            || (points == [] && Chunks(points, size) == [])
  {
    ChunksConcat(points, size);
    ChunksSizes(points, size);
    ChunksCount(points, size);
  }

  lemma {:induction false} ChunksConcat(points: seq<Point>, size: nat)
    requires size >= 1
    ensures Concat(Chunks(points, size)) == points
    decreases |points|
  {
    if points == [] {
    } else if |points| <= size {
      assert [points][1..] == [];
    } else {
      var rest := points[size..];
      ChunksConcat(rest, size);
      assert Chunks(points, size)[1..] == Chunks(rest, size);
      assert points[..size] + rest == points;
    }
  }

  lemma {:induction false} ChunksSizes(points: seq<Point>, size: nat)
    requires size >= 1
    ensures forall b :: b in Chunks(points, size) ==> 1 <= |b| <= size
    ensures forall i :: 0 <= i < |Chunks(points, size)| - 1 ==> |Chunks(points, size)[i]| == size
    decreases |points|
  {
    var cs := Chunks(points, size);
    if |points| > size {
      var cr := Chunks(points[size..], size);
      ChunksSizes(points[size..], size);
      assert cs == [points[..size]] + cr;
      forall b | b in cs ensures 1 <= |b| <= size {
        if b != points[..size] {
          assert b in cr;
        }
      }
      forall i | 0 <= i < |cs| - 1 ensures |cs[i]| == size {
        if i > 0 {
          assert cs[i] == cr[i - 1];
        }
      }
    }
  }

  lemma {:induction false} ChunksCount(points: seq<Point>, size: nat)
    requires size >= 1
    ensures (|Chunks(points, size)| - 1) * size < |points| <= |Chunks(points, size)| * size
            || (points == [] && Chunks(points, size) == [])
    decreases |points|
  {
    if |points| > size {
      var k := |Chunks(points[size..], size)|;
      ChunksCount(points[size..], size);
      assert |Chunks(points, size)| == k + 1;
      Distrib(k - 1, size);
      Distrib(k, size);
    }
  }

  lemma MulMono(a: int, b: int, c: int)
    requires a <= b && c >= 0
    ensures a * c <= b * c
  {
  }

  lemma MulLess(a: int, b: int, c: int)
    requires c >= 1 && a * c < b * c
    ensures a < b
  {
    if a >= b {
      MulMono(b, a, c);
    }
  }

  /** `len / parts` is at least one and fits `parts` times into `len`, almost twice at most. */
  lemma DivFacts(len: nat, parts: nat)
    requires 1 <= parts <= len
    ensures len / parts >= 1
    ensures parts * (len / parts) <= len <= (2 * parts - 1) * (len / parts)
  {
    var c := len / parts;
    var r := len % parts;
    assert len == parts * c + r && 0 <= r < parts;
    assert parts * c > 0;
    MulMono(1, c, parts - 1);
    assert (2 * parts - 1) * c == parts * c + (parts - 1) * c;
  }

  /**
   * With chunks of `len / parts` points, as many chunks as it takes to hold `len` points
   * are at least `parts` and fewer than twice as many.
   */
  lemma ChunkCount(len: nat, parts: nat, n: int)
    requires 1 <= parts <= len
    requires (n - 1) * (len / parts) < len <= n * (len / parts)
    ensures len / parts >= 1 && parts <= n < 2 * parts
  {
    var c := len / parts;
    DivFacts(len, parts);
    Distrib(parts - 1, c);
    MulLess(parts - 1, n, c);
    MulLess(n - 1, 2 * parts - 1, c);
  }

  /** The chunk size `len / parts` is zero exactly when there are fewer points than parts. */
  lemma ZeroSize(len: nat, parts: nat)
    requires parts >= 1
    ensures len / parts == 0 <==> len < parts
  {
    if len >= parts {
      DivFacts(len, parts);
    }
  }

  /** What the chunks of `len / parts` points are, for `1 <= parts <= len`. */
  lemma BatchFacts(points: seq<Point>, nrParts: nat)
    requires 1 <= nrParts <= |points|
    ensures |points| / nrParts >= 1
    ensures Concat(Chunks(points, |points| / nrParts)) == points
    ensures forall b :: b in Chunks(points, |points| / nrParts) ==> 1 <= |b| <= |points| / nrParts
    ensures nrParts <= |Chunks(points, |points| / nrParts)| < 2 * nrParts
  {
    DivFacts(|points|, nrParts);
    var size := |points| / nrParts;
    ChunksFacts(points, size);
    ChunkCount(|points|, nrParts, |Chunks(points, size)|);
  }

  /**
   * `batch_data`: the points in chunks of `len / nrParts` points. A zero chunk size
   * makes `chunks` panic, and `nrParts == 0` is a division by zero.
   */
  function BatchData(points: seq<Point>, nrParts: nat): (r: Result<seq<seq<Point>>>)
    ensures r.Success? <==> 1 <= nrParts <= |points|
    ensures r.Success? ==> Concat(r.value) == points
    ensures r.Success? ==> forall b :: b in r.value ==> 1 <= |b| <= |points| / nrParts
    ensures r.Success? ==> nrParts <= |r.value| < 2 * nrParts
  {
    if nrParts == 0 then Failure("attempt to divide by zero")
    else if |points| / nrParts == 0 then
      ZeroSize(|points|, nrParts);
      Failure("chunk size must be non-zero")
    else
      ZeroSize(|points|, nrParts);
      BatchFacts(points, nrParts);
      Success(Chunks(points, |points| / nrParts))
  }

  /** The worker threads of `map_to_tiles`: each batch counted on its own. */
  method CountBatches(bs: seq<seq<Point>>, scalar: real) returns (counters: seq<map<Tile, nat>>)
    ensures |counters| == |bs|
    ensures forall k :: 0 <= k < |bs| ==> counters[k] == CountMap(TilesOf(bs[k], scalar))
  {
    counters := [];
    for j := 0 to |bs|
      invariant |counters| == j
      invariant forall k :: 0 <= k < j ==> counters[k] == CountMap(TilesOf(bs[k], scalar))
    {
      var tiles := RustLib.ToTileCounts(bs[j], scalar);
      counters := counters + [tiles];
    }
  }

  lemma SumStart(bs: seq<seq<Point>>, scalar: real)
    requires 1 <= |bs|
    ensures CountMap(TilesOf(Concat(bs[..1]), scalar)) == CountMap(TilesOf(bs[0], scalar))
  {
    ConcatSnoc(bs, 0);
    assert Concat(bs[..1]) == bs[0];
  }

  /** Adding the counts of one more batch gives the counts of the longer prefix. */
  lemma SumStep(bs: seq<seq<Point>>, j: int, scalar: real)
    requires 0 <= j < |bs|
    ensures CountMap(TilesOf(Concat(bs[..j + 1]), scalar))
            == AddCounts(CountMap(TilesOf(Concat(bs[..j]), scalar)), CountMap(TilesOf(bs[j], scalar)))
  {
    ConcatSnoc(bs, j);
    TilesOfAppend(Concat(bs[..j]), bs[j], scalar);
    CountMapAppend(TilesOf(Concat(bs[..j]), scalar), TilesOf(bs[j], scalar));
  }

  /**
   * The receiving loop of `map_to_tiles`: the first counter received, then every
   * other one added into it. The sum counts the tiles of all batches together.
   */
  method SumCounters(bs: seq<seq<Point>>, counters: seq<map<Tile, nat>>, scalar: real)
    returns (accumulateTiles: map<Tile, nat>)
    requires 1 <= |bs| == |counters|
    requires forall k :: 0 <= k < |bs| ==> counters[k] == CountMap(TilesOf(bs[k], scalar))
    ensures accumulateTiles == CountMap(TilesOf(Concat(bs), scalar))
  {
    accumulateTiles := counters[0];
    SumStart(bs, scalar);
    for j := 1 to |bs|
      invariant accumulateTiles == CountMap(TilesOf(Concat(bs[..j]), scalar))
    {
      SumStep(bs, j, scalar);
      accumulateTiles := ParProjections.MergeCounts(accumulateTiles, counters[j]);
    }
    assert bs[..|bs|] == bs;
  }

  /**
   * `map_to_tiles`: every batch counted by a thread of its own, the counts summed into
   * the first counter received, and the tiles with at least `threshold` points kept,
   * with the scalar used. The result is the sequential projection's. Counters are
   * received here in batch order; a sum does not depend on it.
   */
  method MapToTiles(points: seq<Point>, precision: int, threshold: nat, nrThreads: nat)
    returns (r: Result<(set<Tile>, real)>)
    ensures r.Success? <==> 1 <= nrThreads <= |points|
    ensures r.Success? ==> r.value == (Dense(points, Scalar(precision), threshold), Scalar(precision))
  {
    var scalar := Scalar(precision);
    var batches := BatchData(points, nrThreads);
    if batches.Failure? {
      return Failure(batches.error);
    }
    var bs := batches.value;
    var counters := CountBatches(bs, scalar);
    var accumulateTiles := SumCounters(bs, counters, scalar);
    SignificantCounts(points, scalar, threshold);
    return Success((Significant(accumulateTiles, threshold), scalar));
  }

  // ---------------------------------------------------------------------------
  // Vertical slicing
  // ---------------------------------------------------------------------------

  /** Rust's `as i32` on a float: toward zero, saturating at both ends of the range. */
  function CastI32(r: real): (n: int)
    ensures I32Min <= n <= I32Max
    ensures I32Min as real <= r <= I32Max as real ==> n == Trunc(r)
  {
    if r < I32Min as real then I32Min else if r > I32Max as real then I32Max else Trunc(r)
  }

  /** `as i32` keeps the order of its arguments. */
  lemma CastMono(a: real, b: real)
    requires a <= b
    ensures CastI32(a) <= CastI32(b)
  {
  }

  /** `as i32` on a whole number in range gives that number back. */
  lemma CastWhole(n: int)
    requires I32Min <= n <= I32Max
    ensures CastI32(n as real) == n
  {
  }

  function Abs(x: int): nat
  {
    if x < 0 then -x else x
  }

  /** The width of a slice before scaling: `(|max| + |min|) / nrSlices`, cast to `i32`. */
  function Step(min: int, max: int, nrSlices: nat): int
    requires nrSlices >= 1
  {
    CastI32((Abs(max) + Abs(min)) as real / nrSlices as real)
  }

  /** `(c as f64 * scalar) as i32`: a column scaled to tile coordinates. */
  function Scaled(c: int, scalar: real): int
  {
    CastI32(c as real * scalar)
  }

  /** Splitting column `k`, counted from 1: `min + k * step`, scaled. */
  function SplitAt(min: int, step: int, scalar: real, k: int): int
  {
    Scaled(min + k * step, scalar)
  }

  /** The splitting columns: `min + k * step` for `k` from 1 to `nrSlices - 1`, scaled and cast. */
  function SplitPoints(min: int, max: int, scalar: real, nrSlices: nat): seq<int>
    requires nrSlices >= 2
  {
    seq(nrSlices - 1, j requires 0 <= j < nrSlices - 1 => SplitAt(min, Step(min, max, nrSlices), scalar, j + 1))
  }

  /** `i32::wrapping_sub(1)`. */
  function WrapDec(v: int): int
  {
    if v == I32Min then I32Max else v - 1
  }

  /** The left border of slice `i`: the split before it, `i32::MIN` for the first. */
  function LoBound(splits: seq<int>, i: int): int
  {
    if 0 < i <= |splits| then splits[i - 1] else I32Min
  }

  /** The right border of slice `i`: one left of its split, `i32::MAX` for the last. */
  function HiBound(splits: seq<int>, i: int): int
  {
    WrapDec(if 0 <= i < |splits| then splits[i] else I32Min)
  }

  /**
   * Whether a tile in column `x` goes into slice `i`: the slice of the first split right
   * of `x`, and the last slice whenever `x` is at or right of the last split.
   */
  predicate Lands(x: int, splits: seq<int>, i: int)
    requires |splits| >= 1
  {
    || (0 <= i < |splits| && x < splits[i] && forall j :: 0 <= j < i ==> x >= splits[j])
    || (i == |splits| && x >= splits[|splits| - 1])
  }

  /** The tiles of `ts` that go into slice `i`. */
  ghost function Bucket(ts: set<Tile>, splits: seq<int>, i: int): set<Tile>
    requires |splits| >= 1
  {
    set t | t in ts && Lands(t.0, splits, i)
  }

  /** The slices laid out around `splits`, with the tiles of `ts` placed in them. */
  ghost predicate Sliced(r: seq<Slice>, ts: set<Tile>, splits: seq<int>)
    requires |splits| >= 1
  {
    && |r| == |splits| + 1
    && (forall i :: 0 <= i < |r| ==> r[i].lo == LoBound(splits, i) && r[i].hi == HiBound(splits, i))
    && (forall i :: 0 <= i < |r| ==> r[i].tiles == Bucket(ts, splits, i))
  }

  /**
   * The body of the placement loop for one tile `x`: into the slice of the first split
   * right of it, and into the last slice if it is at or right of the last split.
   */
  method PlaceTile(tileSlices: seq<Slice>, x: Tile, splits: seq<int>) returns (r: seq<Slice>)
    requires 1 <= |splits| && |tileSlices| == |splits| + 1
    ensures |r| == |tileSlices|
    ensures forall i :: 0 <= i < |r| ==>
              r[i] == tileSlices[i].(tiles := tileSlices[i].tiles + if Lands(x.0, splits, i) then {x} else {})
  {
    r := tileSlices;
    for i := 0 to |splits|
      invariant forall j :: 0 <= j < i ==> x.0 >= splits[j]
      invariant r == tileSlices
    {
      if x.0 < splits[i] {
        r := r[i := r[i].(tiles := r[i].tiles + {x})];
        break;
      }
    }
    if x.0 >= splits[|splits| - 1] {
      r := r[|splits| := r[|splits|].(tiles := r[|splits|].tiles + {x})];
    }
  }

  lemma BucketAdd(done: set<Tile>, x: Tile, splits: seq<int>, i: int)
    requires |splits| >= 1
    ensures Bucket(done + {x}, splits, i) == Bucket(done, splits, i) + if Lands(x.0, splits, i) then {x} else {}
  {
  }

  /** The first loop of `split_vertically`: the splitting columns, left to right. */
  method Splits(min: int, max: int, scalar: real, nrSlices: nat) returns (splits: seq<int>)
    requires nrSlices >= 2
    ensures splits == SplitPoints(min, max, scalar, nrSlices)
  {
    var step := CastI32((Abs(max) + Abs(min)) as real / nrSlices as real);
    splits := [];
    var split := min + step;
    for k := 1 to nrSlices
      invariant |splits| == k - 1 && split == min + k * step
      invariant forall j :: 0 <= j < k - 1 ==> splits[j] == SplitAt(min, step, scalar, j + 1)
    {
      splits := splits + [Scaled(split, scalar)];
      Distrib(k, step);
      split := split + step;
    }
  }

  /** The second loop of `split_vertically`: one empty slice per gap between the splits. */
  method EmptySlices(splits: seq<int>) returns (tileSlices: seq<Slice>)
    requires |splits| >= 1
    ensures Sliced(tileSlices, {}, splits)
  {
    tileSlices := [];
    for i := 0 to |splits| + 1
      invariant |tileSlices| == i
      invariant forall k :: 0 <= k < i ==> tileSlices[k] == Slice(LoBound(splits, k), {}, HiBound(splits, k))
    {
      var leftBound := if i == 0 then I32Min else splits[i - 1];
      var rightBound := WrapDec(if i < |splits| then splits[i] else I32Min);
      tileSlices := tileSlices + [Slice(leftBound, {}, rightBound)];
    }
  }

  /**
   * `split_vertically`: for fewer than two slices one slice over all columns; otherwise
   * `nrSlices` slices separated by the scaled splitting columns, every tile placed as
   * `Lands` says. The tiles come in the unspecified order of the projection's map.
   */
  method SplitVertically(allTiles: set<Tile>, min: int, max: int, scalar: real, nrSlices: nat)
    returns (r: seq<Slice>)
    ensures nrSlices < 2 ==> r == [Slice(I32Min, allTiles, I32Max)]
    ensures nrSlices >= 2 ==> Sliced(r, allTiles, SplitPoints(min, max, scalar, nrSlices))
  {
    if nrSlices < 2 {
      return [Slice(I32Min, allTiles, I32Max)];
    }
    var splits := Splits(min, max, scalar, nrSlices);
    var tileSlices := EmptySlices(splits);
    var todo := allTiles;
    ghost var done: set<Tile> := {};
    while todo != {}
      invariant todo == allTiles - done && done <= allTiles
      invariant Sliced(tileSlices, done, splits)
      decreases |todo|
    {
      var x :| x in todo;
      tileSlices := PlaceTile(tileSlices, x, splits);
      forall i | 0 <= i < |tileSlices| {
        BucketAdd(done, x, splits, i);
      }
      todo := todo - {x};
      done := done + {x};
    }
    return tileSlices;
  }

  /** Every column lands in some slice: the first split right of it, or the last slice. */
  lemma {:induction false} LandsFrom(x: int, splits: seq<int>, k: nat)
    requires 1 <= |splits| && k <= |splits|
    requires forall j :: 0 <= j < k ==> x >= splits[j]
    ensures exists i :: 0 <= i <= |splits| && Lands(x, splits, i)
    decreases |splits| - k
  {
    if k == |splits| {
      assert Lands(x, splits, |splits|);
    } else if x < splits[k] {
      assert Lands(x, splits, k);
    } else {
      LandsFrom(x, splits, k + 1);
    }
  }

  /** The slices hold exactly the tiles given, as the `n_core` test of the source checks. */
  lemma SlicesCover(r: seq<Slice>, ts: set<Tile>, splits: seq<int>)
    requires |splits| >= 1 && Sliced(r, ts, splits)
    ensures Tiles(r, 0) == ts
  {
    forall t | t in ts ensures t in Tiles(r, 0) {
      LandsFrom(t.0, splits, 0);
      var i :| 0 <= i <= |splits| && Lands(t.0, splits, i);
      assert t in r[i].tiles;
      TilesMember(r, 0, t);
    }
    forall t | t in Tiles(r, 0) ensures t in ts {
      TilesMember(r, 0, t);
    }
  }

  predicate Ascending(s: seq<int>)
  {
    forall i, j :: 0 <= i < j < |s| ==> s[i] <= s[j]
  }

  predicate StrictlyAscending(s: seq<int>)
  {
    forall i, j :: 0 <= i < j < |s| ==> s[i] < s[j]
  }

  /** With splits in order, a column lands in one slice only. */
  lemma LandsOnce(x: int, splits: seq<int>, i: int, j: int)
    requires |splits| >= 1 && Ascending(splits)
    requires Lands(x, splits, i) && Lands(x, splits, j)
    ensures i == j
  {
  }

  /** With splits in order, no tile is placed in two slices. */
  lemma SlicesDisjoint(r: seq<Slice>, ts: set<Tile>, splits: seq<int>)
    requires |splits| >= 1 && Sliced(r, ts, splits) && Ascending(splits)
    ensures forall i, j, t :: 0 <= i < |r| && 0 <= j < |r| && t in r[i].tiles && t in r[j].tiles ==> i == j
  {
    forall i, j, t | 0 <= i < |r| && 0 <= j < |r| && t in r[i].tiles && t in r[j].tiles
      ensures i == j
    {
      LandsOnce(t.0, splits, i, j);
    }
  }

  lemma RealMono(a: real, b: real, c: real)
    requires a <= b && c >= 0.0
    ensures a * c <= b * c
  {
  }

  /** Splitting columns further right stay further right once scaled. */
  lemma SplitMono(min: int, step: int, scalar: real, a: int, b: int)
    requires a <= b && step >= 0 && scalar > 0.0
    ensures SplitAt(min, step, scalar, a) <= SplitAt(min, step, scalar, b)
  {
    MulMono(a, b, step);
    RealMono((min + a * step) as real, (min + b * step) as real, scalar);
    CastMono((min + a * step) as real * scalar, (min + b * step) as real * scalar);
  }

  /** For a positive scale the splitting columns come out in order. */
  lemma SplitsAscending(min: int, max: int, scalar: real, nrSlices: nat)
    requires nrSlices >= 2 && scalar > 0.0
    ensures Ascending(SplitPoints(min, max, scalar, nrSlices))
  {
    var step := Step(min, max, nrSlices);
    var s := SplitPoints(min, max, scalar, nrSlices);
    forall i, j | 0 <= i < j < |s| ensures s[i] <= s[j] {
      SplitMono(min, step, scalar, i + 1, j + 1);
    }
  }

  /**
   * Strictly increasing splits right of `i32::MIN` lay the slices side by side over all
   * `i32` columns, each tile within its slice.
   */
  lemma SlicesValid(r: seq<Slice>, ts: set<Tile>, splits: seq<int>)
    requires |splits| >= 1 && Sliced(r, ts, splits)
    requires StrictlyAscending(splits) && I32Min < splits[0] && splits[|splits| - 1] <= I32Max
    requires forall t :: t in ts ==> I32Min <= t.0 <= I32Max
    ensures ValidSlices(r)
  {
    var n := |splits|;
    forall i | 0 < i < |r| ensures r[i].lo == r[i - 1].hi + 1 {
      assert splits[0] <= splits[i - 1];
    }
    forall i, t | 0 <= i < |r| && t in r[i].tiles ensures r[i].lo <= t.0 <= r[i].hi {
      assert Lands(t.0, splits, i);
      if 0 < i < n {
        assert t.0 >= splits[i - 1];
        assert splits[0] <= splits[i];
      } else if i == 0 {
        assert t.0 < splits[0];
      }
    }
    forall i | 0 <= i < |r| ensures r[i].lo <= r[i].hi {
      if 0 < i < n {
        assert splits[0] <= splits[i - 1] < splits[i];
      }
    }
  }

  /** A whole-number column scaled by a whole-number factor, in range, is its product. */
  lemma ScaledWhole(c: int, p: nat)
    requires I32Min <= c * p <= I32Max
    ensures Scaled(c, p as real) == c * p
  {
    assert c as real * p as real == (c * p) as real;
    CastWhole(c * p);
  }

  /** Later columns `min + k * step` scale to larger tile columns. */
  lemma SplitOrder(min: int, step: int, p: nat, i: int, j: int)
    requires step >= 1 && p >= 1 && i < j
    ensures (min + i * step) * p < (min + j * step) * p
  {
    MulMono(i + 1, j, step);
    Distrib(i, step);
    Distrib(min + i * step, p);
    MulMono(min + i * step + 1, min + j * step, p);
  }

  /**
   * With a whole-number scale, a step of at least one column and no split beyond the
   * `i32` range, the splits are strictly increasing and right of `i32::MIN`.
   */
  lemma StrictSplits(min: int, max: int, precision: int, nrSlices: nat)
    requires nrSlices >= 2 && precision >= 0 && Step(min, max, nrSlices) >= 1
    requires I32Min < (min + Step(min, max, nrSlices)) * Pow10(precision)
    requires (min + (nrSlices - 1) * Step(min, max, nrSlices)) * Pow10(precision) <= I32Max
    ensures var s := SplitPoints(min, max, Scalar(precision), nrSlices);
            StrictlyAscending(s) && I32Min < s[0] && s[|s| - 1] <= I32Max
  {
    var step := Step(min, max, nrSlices);
    var p := Pow10(precision);
    var s := SplitPoints(min, max, Scalar(precision), nrSlices);
    forall k | 0 <= k < |s| ensures s[k] == (min + (k + 1) * step) * p {
      if k > 0 {
        SplitOrder(min, step, p, 1, k + 1);
      }
      if k < |s| - 1 {
        SplitOrder(min, step, p, k + 1, nrSlices - 1);
      }
      ScaledWhole(min + (k + 1) * step, p);
    }
    forall i, j | 0 <= i < j < |s| ensures s[i] < s[j] {
      SplitOrder(min, step, p, i + 1, j + 1);
    }
  }

  /** `is_neighbors`: some neighbour candidate of `t` is in `tiles`. */
  function IsNeighbors(t: Tile, tiles: set<Tile>): (r: bool)
    ensures r <==> exists n :: n in tiles && Adjacent(t, n)
  {
    exists c :: c in Candidates(t) && c in tiles
  }

  /** `is_cluster_neighbors`: some tile of `c1` neighbours some tile of `c2`. */
  method IsClusterNeighbors(c1: set<Tile>, c2: set<Tile>) returns (r: bool)
    ensures r <==> Touching(c1, c2)
  {
    var rest := c1;
    while rest != {}
      invariant rest <= c1
      invariant !Touching(c1 - rest, c2)
      decreases |rest|
    {
      var tile :| tile in rest;
      if IsNeighbors(tile, c2) {
        var n :| n in c2 && Adjacent(tile, n);
        return true;
      }
      rest := rest - {tile};
    }
    assert c1 - rest == c1;
    return false;
  }

  /**
   * `Iterator::partition` by `is_cluster_neighbors(c, visit)`: the pieces that touch
   * `visit` and those that do not, each in list order.
   */
  method Partition(ps: seq<set<Tile>>, visit: set<Tile>) returns (neighbors: seq<set<Tile>>, leftovers: seq<set<Tile>>)
    ensures neighbors == Meeting(ps, visit) && leftovers == Apart(ps, visit)
  {
    neighbors, leftovers := [], [];
    for i := 0 to |ps|
      invariant neighbors == Meeting(ps[..i], visit) && leftovers == Apart(ps[..i], visit)
    {
      assert ps[..i + 1][..i] == ps[..i];
      var near := IsClusterNeighbors(ps[i], visit);
      if near {
        neighbors := neighbors + [ps[i]];
      } else {
        leftovers := leftovers + [ps[i]];
      }
    }
    assert ps[..|ps|] == ps;
  }

  /** `to_visit.push((goRight, n))` for every `n` of `ps`, in order. */
  method PushAll(toVisit: seq<(bool, set<Tile>)>, ps: seq<set<Tile>>, goRight: bool)
    returns (r: seq<(bool, set<Tile>)>)
    ensures r == toVisit + Tag(ps, goRight)
  {
    r := toVisit;
    for i := 0 to |ps|
      invariant r == toVisit + Tag(ps[..i], goRight)
    {
      assert Tag(ps[..i + 1], goRight) == Tag(ps[..i], goRight) + [(goRight, ps[i])];
      r := r + [(goRight, ps[i])];
    }
    assert ps[..|ps|] == ps;
  }

  /**
   * One round of the inner loop of `cluster_slice`: pops the last tile off the stack,
   * adds it to the cluster, notes the edge columns it lies on, and pushes its neighbours
   * still to visit. The flood fill stays sound and gets closer to its end.
   */
  method FillPop(ghost w0: set<Tile>, ghost x: Tile, cluster: set<Tile>, toCheck: seq<Tile>, rest: set<Tile>,
                 le: int, re: int, isLeftEdgeCluster: bool, isRightEdgeCluster: bool)
    returns (cluster': set<Tile>, toCheck': seq<Tile>, rest': set<Tile>, isLeft': bool, isRight': bool)
    requires FillInv(w0, x, cluster, Elems(toCheck), rest) && Distinct(toCheck) && toCheck != []
    requires isLeftEdgeCluster == Touches(cluster, le) && isRightEdgeCluster == Touches(cluster, re)
    ensures FillInv(w0, x, cluster', Elems(toCheck'), rest') && Distinct(toCheck')
    ensures isLeft' == Touches(cluster', le) && isRight' == Touches(cluster', re)
    ensures |rest'| + |toCheck'| < |rest| + |toCheck|
  {
    var p := toCheck[|toCheck| - 1];
    isLeft' := isLeftEdgeCluster || p.0 == le;
    isRight' := isRightEdgeCluster || p.0 == re;
    TouchesPlus(cluster, p, le);
    TouchesPlus(cluster, p, re);
    cluster' := cluster + {p};
    var newNeighbors;
    newNeighbors, rest' := RustLib.PopNeighbors(p, rest);
    FillAdvance(w0, x, cluster, toCheck, rest, newNeighbors);
    toCheck' := toCheck[..|toCheck| - 1] + newNeighbors;
  }

  /**
   * The inner loop of `cluster_slice`: starting from `x`, already taken out of
   * `toVisit`, pops neighbours off a stack until none is left. The result is the whole
   * component of `x` in `toVisit + {x}`, what is left of `toVisit`, and whether the
   * component has a tile in the left or the right edge column.
   */
  method FillCluster(x: Tile, toVisit: set<Tile>, le: int, re: int)
    returns (cluster: set<Tile>, rest: set<Tile>, isLeftEdgeCluster: bool, isRightEdgeCluster: bool)
    requires x !in toVisit
    ensures FillInv(toVisit + {x}, x, cluster, {}, rest)
    ensures isLeftEdgeCluster == Touches(cluster, le)
    ensures isRightEdgeCluster == Touches(cluster, re)
  {
    ghost var w0 := toVisit + {x};
    assert toVisit == w0 - {x};
    isLeftEdgeCluster := x.0 == le;
    isRightEdgeCluster := x.0 == re;
    TouchesOne(x, le);
    TouchesOne(x, re);
    cluster := {x};
    var toCheck;
    toCheck, rest := RustLib.PopNeighbors(x, toVisit);
    FillBegin(w0, x, toCheck);
    while toCheck != []
      invariant FillInv(w0, x, cluster, Elems(toCheck), rest)
      invariant Distinct(toCheck)
      invariant isLeftEdgeCluster == Touches(cluster, le)
      invariant isRightEdgeCluster == Touches(cluster, re)
      decreases |rest| + |toCheck|
    {
      cluster, toCheck, rest, isLeftEdgeCluster, isRightEdgeCluster :=
        FillPop(w0, x, cluster, toCheck, rest, le, re, isLeftEdgeCluster, isRightEdgeCluster);
    }
    assert Elems(toCheck) == {};
  }

  /**
   * `cluster_slice`: the components of the slice `tiles` between the columns `leftEdge`
   * and `rightEdge`, each put in the list its edges decide; those touching no edge with
   * fewer than `minClusterSize` tiles are dropped.
   */
  method ClusterSlice(tiles: set<Tile>, minClusterSize: nat, leftEdge: int, rightEdge: int)
    returns (sp: Split)
    ensures SliceSplit(tiles, minClusterSize, leftEdge, rightEdge, sp)
  {
    var m, le, re := minClusterSize, leftEdge, rightEdge;
    var toVisit := tiles;
    var clusters, leftClusters, rightClusters, leftRightClusters := [], [], [], [];
    SliceStart(tiles, m, le, re);
    while toVisit != {}
      invariant SliceInv(tiles, m, le, re, toVisit, Split(clusters, leftClusters, leftRightClusters, rightClusters))
      decreases |toVisit|
    {
      ghost var w0 := toVisit;
      var x :| x in toVisit;
      toVisit := toVisit - {x};
      assert toVisit + {x} == w0;
      var cluster, isLeftEdgeCluster, isRightEdgeCluster;
      cluster, toVisit, isLeftEdgeCluster, isRightEdgeCluster := FillCluster(x, toVisit, le, re);
      SliceStep(tiles, m, le, re, w0, Split(clusters, leftClusters, leftRightClusters, rightClusters),
                x, cluster, toVisit);
      if isLeftEdgeCluster && isRightEdgeCluster {
        leftRightClusters := leftRightClusters + [cluster];
      } else if isLeftEdgeCluster {
        leftClusters := leftClusters + [cluster];
      } else if isRightEdgeCluster {
        rightClusters := rightClusters + [cluster];
      } else if |cluster| >= m {
        clusters := clusters + [cluster];
      }
    }
    sp := Split(clusters, leftClusters, leftRightClusters, rightClusters);
    SliceDone(tiles, m, le, re, sp);
  }

  /**
   * The inner loop of `join_clusters`: the search from `start` through the pieces that
   * touch, taking each piece it reaches out of its list.
   */
  method Search(ghost o: Sides, ghost m: int, ghost ready: bool, ghost cs: seq<set<Tile>>, ghost tr: seq<set<Tile>>,
                start: set<Tile>, left: seq<set<Tile>>, lr: seq<set<Tile>>, right: seq<set<Tile>>)
    returns (cluster: set<Tile>, isLeftAndRight: bool,
             left': seq<set<Tile>>, lr': seq<set<Tile>>, right': seq<set<Tile>>)
    requires ready ==> JoinReady(o) && BfsInv(o, m, left, lr, right, cs, tr, {}, [(false, start)], false)
    ensures ready ==> BfsInv(o, m, left', lr', right', cs, tr, cluster, [], isLeftAndRight)
    ensures |right'| <= |right|
  {
    left', lr', right' := left, lr, right;
    isLeftAndRight := false;
    var toVisit := [(false, start)];
    cluster := {};
    while toVisit != []
      invariant ready ==> BfsInv(o, m, left', lr', right', cs, tr, cluster, toVisit, isLeftAndRight)
      invariant |right'| <= |right|
      decreases |left'| + |lr'| + |right'| + |toVisit|
    {
      var (goRight, visit) := toVisit[|toVisit| - 1];
      if goRight {
        if ready {
          BfsGoRight(o, m, left', lr', right', cs, tr, cluster, toVisit, isLeftAndRight);
        }
        SplitCovers(right', visit);
        toVisit := toVisit[..|toVisit| - 1];
        var neighbors, leftovers := Partition(right', visit);
        right' := leftovers;
        toVisit := PushAll(toVisit, neighbors, false);
      } else {
        if ready {
          BfsGoLeft(o, m, left', lr', right', cs, tr, cluster, toVisit, isLeftAndRight);
        }
        SplitCovers(left', visit);
        SplitCovers(lr', visit);
        toVisit := toVisit[..|toVisit| - 1];
        var neighbors, leftovers := Partition(left', visit);
        left' := leftovers;
        toVisit := PushAll(toVisit, neighbors, true);
        var joined, rest := Partition(lr', visit);
        lr' := rest;
        ghost var before := isLeftAndRight;
        for i := 0 to |joined|
          invariant isLeftAndRight == (before || i > 0)
        {
          isLeftAndRight := true;
        }
        toVisit := PushAll(toVisit, joined, true);
      }
      cluster := cluster + visit;
    }
  }

  /**
   * `join_clusters`: joins the pieces at one border into the clusters they form. When
   * the pieces are as slice clustering leaves them, the result is a correct join: the
   * finished clusters, and the clusters that take in a `leftRightClusters` piece and so
   * may grow further at the next border.
   */
  method JoinClusters(leftClusters: seq<set<Tile>>, rightClusters: seq<set<Tile>>,
                      leftRightClusters: seq<set<Tile>>, minClusterSize: nat)
    returns (clusters: seq<set<Tile>>, leftRight: seq<set<Tile>>)
    ensures forall c :: c in clusters ==> |c| >= minClusterSize
    ensures JoinReady(Sides(leftClusters, rightClusters, leftRightClusters)) ==>
              IsJoin(Sides(leftClusters, rightClusters, leftRightClusters), minClusterSize, clusters, leftRight)
  {
    ghost var o := Sides(leftClusters, rightClusters, leftRightClusters);
    ghost var ready := JoinReady(o);
    var m := minClusterSize;
    clusters := [];
    var newLeftRight: seq<set<Tile>> := [];
    var lr, left, right := leftRightClusters, leftClusters, rightClusters;
    if ready {
      JoinStart(o, m);
    }
    while right != []
      invariant ready ==> JoinInv(o, m, left, lr, right, clusters, newLeftRight)
      invariant forall c :: c in clusters ==> |c| >= m
      decreases |right|
    {
      if ready {
        BfsStart(o, m, left, lr, right, clusters, newLeftRight);
      }
      var start := right[|right| - 1];
      right := right[..|right| - 1];
      var cluster, isLeftAndRight;
      cluster, isLeftAndRight, left, lr, right := Search(o, m, ready, clusters, newLeftRight, start, left, lr, right);
      if ready {
        BfsEnd(o, m, left, lr, right, clusters, newLeftRight, cluster, isLeftAndRight);
      }
      if isLeftAndRight {
        newLeftRight := newLeftRight + [cluster];
      } else if |cluster| >= m {
        clusters := clusters + [cluster];
      }
    }
    ghost var found := clusters;
    for i := 0 to |left|
      invariant clusters == found + Large(left[..i], m)
    {
      assert left[..i + 1][..i] == left[..i];
      if |left[i]| >= m {
        clusters := clusters + [left[i]];
      }
    }
    assert left[..|left|] == left;
    if ready {
      JoinDone(o, m, left, lr, found, newLeftRight);
    }
    leftRight := lr + newLeftRight;
  }

  /** The workers of `cluster_tiles`: every slice clustered on its own, in slice order. */
  method ClusterSlices(slices: seq<Slice>, minClusterSize: nat) returns (sps: seq<Split>)
    ensures SplitsOf(slices, sps, minClusterSize)
  {
    sps := [];
    for i := 0 to |slices|
      invariant SplitsOf(slices[..i], sps, minClusterSize)
    {
      var sp := ClusterSlice(slices[i].tiles, minClusterSize, slices[i].lo, slices[i].hi);
      SplitsSnoc(slices[..i], sps, minClusterSize, slices[i], sp);
      assert slices[..i + 1] == slices[..i] + [slices[i]];
      sps := sps + [sp];
    }
    assert slices[..|slices|] == slices;
  }

  /** The finished clusters of all slices, one slice after the other. */
  method Flatten(sps: seq<Split>) returns (clusters: seq<set<Tile>>)
    ensures clusters == Inner(sps)
  {
    clusters := [];
    for i := 0 to |sps|
      invariant clusters == Inner(sps[..i])
    {
      assert sps[..i + 1][..i] == sps[..i];
      clusters := clusters + sps[i].inner;
    }
    assert sps[..|sps|] == sps;
  }

  /**
   * The loop of `cluster_tiles` over the borders, from right to left: the clusters
   * joined at each border, in order, and what still reaches the left edge of the first
   * slice.
   */
  method JoinBorders(slices: seq<Slice>, sps: seq<Split>, minClusterSize: nat)
    returns (joined: seq<set<Tile>>, trans: seq<set<Tile>>)
    requires 1 <= |sps| == |slices|
    ensures ValidSlices(slices) && SplitsOf(slices, sps, minClusterSize) &&
            sps[|sps| - 1].both == [] && sps[|sps| - 1].right == [] ==>
              Stage(slices, sps, minClusterSize, 0, trans, joined)
  {
    var m, n := minClusterSize, |slices|;
    ghost var valid := ValidSlices(slices) && SplitsOf(slices, sps, m) &&
                       sps[n - 1].both == [] && sps[n - 1].right == [];
    if valid {
      StageStart(slices, sps, m);
    }
    trans, joined := [], [];
    var k := n - 1;
    while k > 0
      invariant 0 <= k < n
      invariant valid ==> Stage(slices, sps, m, k, trans, joined)
    {
      if valid {
        StageReady(slices, sps, m, k, trans, joined);
      }
      var cs, tr := JoinClusters(sps[k - 1].right, sps[k].left + trans, sps[k - 1].both, m);
      if valid {
        StageStep(slices, sps, m, k, trans, joined, cs, tr);
      }
      joined, trans := joined + cs, tr;
      k := k - 1;
    }
  }

  /**
   * `cluster_tiles`: clusters every slice on its own, then joins the edge clusters border
   * by border from right to left. The source asserts that nothing reaches the right edge
   * of the last slice and nothing only the left edge of the first; a failed assertion is
   * a `Failure`. On slices side by side the result is the clustering of all their tiles.
   */
  method ClusterTiles(slices: seq<Slice>, minClusterSize: nat) returns (r: Result<seq<set<Tile>>>)
    ensures |slices| < 2 ==> r.Success?
    ensures |slices| >= 2 ==>
      (r.Success? <==>
        && (forall t :: t in slices[|slices| - 1].tiles ==> t.0 != slices[|slices| - 1].hi)
        && (forall c :: IsComponent(c, slices[0].tiles) && Touches(c, slices[0].lo) ==> Touches(c, slices[0].hi)))
    ensures ValidSlices(slices) && r.Success? ==> IsClustering(Tiles(slices, 0), minClusterSize, r.value)
  {
    var m := minClusterSize;
    if |slices| < 2 {
      if |slices| == 1 {
        var cs := RustLib.ClusterTiles(slices[0].tiles, m);
        assert Tiles(slices, 0) == slices[0].tiles;
        return Success(cs);
      }
      return Success([]);
    }
    var n := |slices|;
    var sps := ClusterSlices(slices, m);
    var clusters := Flatten(sps);
    assert SliceSplit(slices[n - 1].tiles, m, slices[n - 1].lo, slices[n - 1].hi, sps[n - 1]);
    assert SliceSplit(slices[0].tiles, m, slices[0].lo, slices[0].hi, sps[0]);
    LastClear(slices[n - 1].tiles, m, slices[n - 1].lo, slices[n - 1].hi, sps[n - 1]);
    FirstClear(slices[0].tiles, m, slices[0].lo, slices[0].hi, sps[0]);
    if sps[n - 1].right != [] {
      return Failure("a cluster touches the right edge of the last slice");
    }
    if sps[n - 1].both != [] {
      return Failure("a cluster touches both edges of the last slice");
    }
    var joined, trans := JoinBorders(slices, sps, m);
    clusters := clusters + joined + Large(trans, m);
    if sps[0].left != [] {
      return Failure("a cluster touches the left edge of the first slice");
    }
    if ValidSlices(slices) {
      StageDone(slices, sps, m, trans, joined);
    }
    return Success(clusters);
  }

  /**
   * The pieces of the test `join_right_to_left_n_right_to_right`: one piece reaching
   * further left at the border, and two pieces on its right that each neighbour it.
   */
  function ExampleSides(): Sides
  {
    Sides([], [{(0, 0)}, {(0, 2)}], [{(-2, 1), (-1, 1)}])
  }

  /** The four tiles that the example joins into one cluster. */
  function ExampleCluster(): set<Tile>
  {
    {(-2, 1), (-1, 1), (0, 0), (0, 2)}
  }

  /** The example pieces are as slice clustering leaves them. */
  lemma ExampleReady()
    ensures JoinReady(ExampleSides())
  {
    var o := ExampleSides();
    SingletonConnected((-2, 1));
    SingletonConnected((-1, 1));
    SingletonConnected((0, 0));
    SingletonConnected((0, 2));
    Glue({(-2, 1)}, {(-1, 1)}, (-2, 1), (-1, 1));
    assert {(-2, 1)} + {(-1, 1)} == {(-2, 1), (-1, 1)};
    assert !Touching({(0, 0)}, {(0, 2)}) && !Touching({(0, 2)}, {(0, 0)});
  }

  /** Disjoint pieces that are all the same non-empty set are at most one. */
  lemma OneCopy(ps: seq<set<Tile>>, s: set<Tile>)
    requires Disjoint(ps) && s != {}
    requires forall i :: 0 <= i < |ps| ==> ps[i] == s
    ensures |ps| <= 1
  {
    if |ps| >= 2 {
      assert ps[0] !! ps[1];
    }
  }

  /**
   * When all tiles at a border form one connected set that contains a tile of a `both`
   * piece, a correct join has a single cluster, which goes on to the next border.
   */
  lemma JoinOfConnected(o: Sides, m: int, cs: seq<set<Tile>>, tr: seq<set<Tile>>)
    requires IsJoin(o, m, cs, tr)
    requires Connected(Whole(o)) && Whole(o) * Union(o.both) != {}
    ensures cs == [] && tr == [Whole(o)]
  {
    var s, x := Whole(o), Union(o.both);
    assert IsComponent(s, s);
    if |cs| > 0 {
      ComponentsMeet(cs[0], s, s);
      assert false;
    }
    forall i | 0 <= i < |tr| ensures tr[i] == s {
      ComponentsMeet(tr[i], s, s);
    }
    assert cs + tr == tr;
    OneCopy(tr, s);
    var t :| t in s;
    if |tr| == 0 {
      assert false;
    }
  }

  /**
   * Every correct join of the example pieces with `minClusterSize` two, and so the one
   * `JoinClusters` returns, has no finished cluster and exactly one cluster that goes on
   * to the next border: all four tiles.
   */
  lemma ExampleJoin(cs: seq<set<Tile>>, tr: seq<set<Tile>>)
    requires IsJoin(ExampleSides(), 2, cs, tr)
    ensures cs == [] && tr == [ExampleCluster()]
  {
    var o := ExampleSides();
    var s, x := Whole(o), Union(o.both);
    var a, b := {(-2, 1)}, {(-1, 1)};
    SingletonConnected((-2, 1));
    SingletonConnected((-1, 1));
    SingletonConnected((0, 0));
    SingletonConnected((0, 2));
    Glue(a, b, (-2, 1), (-1, 1));
    Glue(a + b, {(0, 0)}, (-1, 1), (0, 0));
    Glue(a + b + {(0, 0)}, {(0, 2)}, (-1, 1), (0, 2));
    assert a + b + {(0, 0)} + {(0, 2)} == ExampleCluster();
    assert o.left + o.both + o.right == [{(-2, 1), (-1, 1)}] + ([{(0, 0)}] + [{(0, 2)}]);
    UnionAppend([{(-2, 1), (-1, 1)}], [{(0, 0)}] + [{(0, 2)}]);
    UnionAppend([{(0, 0)}], [{(0, 2)}]);
    UnionSingle({(-2, 1), (-1, 1)});
    UnionSingle({(0, 0)});
    UnionSingle({(0, 2)});
    assert s == ExampleCluster();
    assert x == {(-2, 1), (-1, 1)};
    JoinOfConnected(o, 2, cs, tr);
  }

  /** The four slices of the `left_right_edge_case` test, lib.rs:229-234. */
  function EdgeCaseSlices(): seq<Slice>
  {
    [ Slice(I32Min, {(-2, 0)}, -2), Slice(-1, {(-1, 0), (0, 0), (0, -2)}, 0),
      Slice(1, {(1, 1), (2, 1), (1, -2)}, 2), Slice(3, {}, I32Max) ]
  }

  /** The regular input of the same test. */
  function EdgeCaseTiles(): set<Tile>
  {
    {(-2, 0), (-1, 0), (0, 0), (0, -2), (1, 1), (2, 1), (1, -2)}
  }

  /** The test's slices are valid and hold exactly its regular input. */
  lemma EdgeCaseValid()
    ensures ValidSlices(EdgeCaseSlices()) && Tiles(EdgeCaseSlices(), 0) == EdgeCaseTiles()
  {
    EdgeCaseColumns();
    var sl := EdgeCaseSlices();
    assert Tiles(sl, 4) == {};
    assert Tiles(sl, 3) == {};
    assert Tiles(sl, 2) == sl[2].tiles;
    assert Tiles(sl, 1) == sl[1].tiles + sl[2].tiles;
  }

  /** Each tile of the test's slices lies within the columns of its slice. */
  lemma EdgeCaseColumns()
    ensures forall i, t :: 0 <= i < 4 && t in EdgeCaseSlices()[i].tiles ==>
              EdgeCaseSlices()[i].lo <= t.0 <= EdgeCaseSlices()[i].hi
  {
    var sl := EdgeCaseSlices();
    assert sl[0].tiles == {(-2, 0)} && sl[3].tiles == {};
    assert sl[1].tiles == {(-1, 0), (0, 0), (0, -2)};
    assert sl[2].tiles == {(1, 1), (2, 1), (1, -2)};
  }

  /** The test's slices meet both conditions under which `ClusterTiles` succeeds. */
  lemma EdgeCaseReady()
    ensures forall t :: t in EdgeCaseSlices()[3].tiles ==> t.0 != EdgeCaseSlices()[3].hi
    ensures forall c :: IsComponent(c, EdgeCaseSlices()[0].tiles) ==> !Touches(c, EdgeCaseSlices()[0].lo)
  {
    var first := EdgeCaseSlices()[0];
    assert first.tiles == {(-2, 0)} && first.lo == I32Min;
    forall c | IsComponent(c, first.tiles) ensures !Touches(c, first.lo) {
      assert forall t :: t in c ==> t == (-2, 0);
    }
  }

  /**
   * `left_right_edge_case`: the clusters `ClusterTiles` returns for the test's slices
   * (a clustering of `EdgeCaseTiles` by `EdgeCaseValid` and `EdgeCaseReady`) and those `cluster_tiles`
   * returns for the regular input agree in number and content.
   */
  lemma LeftRightEdgeCase(clusters1: seq<set<Tile>>, clusters2: seq<set<Tile>>)
    requires IsClustering(EdgeCaseTiles(), 2, clusters1)
    requires IsClustering(Tiles(EdgeCaseSlices(), 0), 2, clusters2)
    ensures |clusters1| == |clusters2| && forall c :: c in clusters2 ==> c in clusters1
  {
    EdgeCaseValid();
    SameClusters(EdgeCaseTiles(), 2, clusters1, clusters2);
  }

  // ---------------------------------------------------------------------------
  // The parallel pipeline end to end
  // ---------------------------------------------------------------------------

  /** Points on the globe: every longitude within [-180, 180]. */
  ghost predicate OnGlobe(points: seq<Point>)
  {
    forall i :: 0 <= i < |points| ==> -180.0 <= points[i].x <= 180.0
  }

  lemma {:induction false} Pow10Mono(a: nat, b: nat)
    requires a <= b
    ensures Pow10(a) <= Pow10(b)
    decreases b
  {
    if a < b {
      Pow10Mono(a, b - 1);
    }
  }

  /** A precision of at most six digits scales by at most a million. */
  lemma Pow10Six(p: nat)
    requires p <= 6
    ensures 1 <= Pow10(p) <= 1000000
  {
    Pow10Mono(p, 6);
    assert Pow10(6) == 1000000;
  }

  /** A longitude on the globe, scaled, stays within 180 times the scale of zero. */
  lemma ScaledLongitude(x: real, scalar: real)
    requires -180.0 <= x <= 180.0 && scalar >= 0.0
    ensures -(180.0 * scalar) <= x * scalar <= 180.0 * scalar
  {
    RealMono(x, 180.0, scalar);
    RealMono(-180.0, x, scalar);
  }

  /** Truncation keeps a value within a bound around zero. */
  lemma TruncWithin(r: real, b: real)
    requires -b <= r <= b
    ensures -b <= Trunc(r) as real <= b
  {
  }

  /** The column of a point on the globe, at a precision of at most six digits. */
  lemma PointColumn(pt: Point, precision: nat)
    requires -180.0 <= pt.x <= 180.0 && precision <= 6
    ensures -180000000 <= Quantize(pt, Scalar(precision)).0 <= 180000000
  {
    ScalarSix(precision);
    ColumnWithin(pt.x, Scalar(precision));
  }

  lemma ColumnWithin(x: real, s: real)
    requires -180.0 <= x <= 180.0 && 1.0 <= s <= 1000000.0
    ensures -180000000 <= Trunc(x * s) <= 180000000
  {
    ScaledLongitude(x, s);
    TruncWithin(x * s, 180.0 * s);
  }

  lemma ScalarSix(precision: nat)
    requires precision <= 6
    ensures 1.0 <= Scalar(precision) <= 1000000.0
  {
    Pow10Six(precision);
  }

  /** The dense tiles of points on the globe lie within 180 million columns of zero. */
  lemma DenseColumns(points: seq<Point>, precision: nat, threshold: nat)
    requires OnGlobe(points) && precision <= 6
    ensures forall t :: t in Dense(points, Scalar(precision), threshold) ==> -180000000 <= t.0 <= 180000000
  {
    forall t | t in Dense(points, Scalar(precision), threshold) ensures -180000000 <= t.0 <= 180000000 {
      var tiles := TilesOf(points, Scalar(precision));
      assert t in Elems(tiles);
      var i :| 0 <= i < |tiles| && tiles[i] == t;
      PointColumn(points[i], precision);
    }
  }

  /** Between longitudes -180 and 180 at most 360 slices are at least one column wide. */
  lemma GlobeStep(nrSlices: nat)
    requires 1 <= nrSlices <= 360
    ensures 1 <= Step(-180, 180, nrSlices) && nrSlices * Step(-180, 180, nrSlices) <= 360
  {
    var q := 360.0 / nrSlices as real;
    assert q * nrSlices as real == 360.0;
    assert q >= 1.0 by {
      RealMono(nrSlices as real, 360.0, 1.0 / nrSlices as real);
    }
    var step := Step(-180, 180, nrSlices);
    assert step as real <= q;
    RealMono(step as real, q, nrSlices as real);
    assert (step * nrSlices) as real == step as real * nrSlices as real;
  }

  /**
   * For points on the globe, a precision of at most six digits and at most 360 slices,
   * the slices `split_vertically` builds between longitudes -180 and 180 lie side by side,
   * hold exactly the dense tiles, and no tile touches the outer borders.
   */
  lemma GlobeSlices(points: seq<Point>, precision: nat, threshold: nat, nrSlices: nat, slices: seq<Slice>)
    requires OnGlobe(points) && precision <= 6 && 1 <= nrSlices <= 360
    requires nrSlices < 2 ==> slices == [Slice(I32Min, Dense(points, Scalar(precision), threshold), I32Max)]
    requires nrSlices >= 2 ==>
      Sliced(slices, Dense(points, Scalar(precision), threshold), SplitPoints(-180, 180, Scalar(precision), nrSlices))
    ensures ValidSlices(slices) && Tiles(slices, 0) == Dense(points, Scalar(precision), threshold)
    ensures |slices| >= 1 && slices[0].lo == I32Min && slices[|slices| - 1].hi == I32Max
    ensures forall t :: t in slices[|slices| - 1].tiles ==> t.0 != slices[|slices| - 1].hi
    ensures forall c :: IsComponent(c, slices[0].tiles) ==> !Touches(c, slices[0].lo)
  {
    var tiles := Dense(points, Scalar(precision), threshold);
    var p := Pow10(precision);
    Pow10Six(precision);
    DenseColumns(points, precision, threshold);
    if nrSlices < 2 {
      assert ValidSlices(slices);
      assert Tiles(slices, 1) == {};
    } else {
      var splits := SplitPoints(-180, 180, Scalar(precision), nrSlices);
      var step := Step(-180, 180, nrSlices);
      GlobeStep(nrSlices);
      MulMono(-179, -180 + step, p);
      Distrib(nrSlices - 1, step);
      MulMono(-180 + (nrSlices - 1) * step, 179, p);
      StrictSplits(-180, 180, precision, nrSlices);
      SlicesValid(slices, tiles, splits);
      SlicesCover(slices, tiles, splits);
    }
    forall t | t in slices[|slices| - 1].tiles ensures t in tiles {
      TilesMember(slices, 0, t);
    }
    forall t | t in slices[0].tiles ensures t in tiles {
      TilesMember(slices, 0, t);
    }
  }

  /**
   * `par_raster` of the benchmark: the parallel projection, `split_vertically` between
   * longitudes -180 and 180 into `nrCores` slices, and the parallel clustering. For points
   * on the globe, a precision of at most six digits and at most 360 cores it succeeds
   * and returns the clustering of the dense tiles, which is the sequential result.
   */
  method ParRaster(points: seq<Point>, precision: int, threshold: nat, nrCores: nat, minClusterSize: nat)
    returns (r: Result<seq<set<Tile>>>)
    ensures r.Success? ==> 1 <= nrCores <= |points|
    ensures OnGlobe(points) && 0 <= precision <= 6 && 1 <= nrCores <= |points| && nrCores <= 360 ==>
              r.Success? && IsClustering(Dense(points, Scalar(precision), threshold), minClusterSize, r.value)
  {
    var projected := MapToTiles(points, precision, threshold, nrCores);
    if projected.Failure? {
      return Failure(projected.error);
    }
    var (tiles, scalar) := projected.value;
    var slices := SplitVertically(tiles, -180, 180, scalar, nrCores);
    r := ClusterTiles(slices, minClusterSize);
    ghost var onGlobe := OnGlobe(points) && 0 <= precision <= 6 && nrCores <= 360;
    if onGlobe {
      GlobeSlices(points, precision, threshold, nrCores, slices);
    }
  }
}
