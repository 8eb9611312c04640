/**
 * 2_benchmark_python/par_projections.py: the per-batch projections that the worker
 * processes run over the shared point array, and the loops that merge their results.
 * The process machinery is left out: every batch is projected in turn, and results
 * are merged in batch order.
 */
module ParProjections {
  import opened Wrappers
  import opened Grid
  import opened Projection
  import opened DataLoader

  /** The three ways of running the workers. */
  datatype Parallelize = MpProcess | MpPool | PoolExecutor

  /** Python indexing into a list of length `n`: negative indices count from the end. */
  predicate Indexable(n: nat, i: int)
  {
    -(n as int) <= i < n
  }

  function At(points: seq<Point>, i: int): Point
    requires Indexable(|points|, i)
  {
    if i >= 0 then points[i] else points[|points| + i]
  }

  /** Every index of the range can be read from a list of length `n`. */
  predicate InBounds(r: Range, n: nat)
  {
    Len(r) == 0 || (-(n as int) <= r.start && r.stop <= n)
  }

  predicate AllInBounds(points: seq<Point>, batches: seq<Range>)
  {
    forall k :: 0 <= k < |batches| ==> InBounds(batches[k], |points|)
  }

  /** The points a range reads, in index order. */
  function Gather(points: seq<Point>, r: Range): (g: seq<Point>)
    requires InBounds(r, |points|)
    ensures |g| == Len(r)
  {
    seq(Len(r), k requires 0 <= k < Len(r) => At(points, r.start + k))
  }

  /** A range within the list reads the corresponding slice. */
  lemma GatherSlice(points: seq<Point>, r: Range)
    requires 0 <= r.start <= r.stop <= |points|
    ensures InBounds(r, |points|) && Gather(points, r) == points[r.start..r.stop]
  {
    var g, sl := Gather(points, r), points[r.start..r.stop];
    assert |g| == |sl|;
    forall k | 0 <= k < |g| ensures g[k] == sl[k] {
      assert g[k] == At(points, r.start + k);
    }
  }

  lemma GatherSnoc(points: seq<Point>, start: int, i: int)
    requires start <= i && InBounds(Range(start, i), |points|) && Indexable(|points|, i)
    ensures InBounds(Range(start, i + 1), |points|)
    ensures Gather(points, Range(start, i + 1)) == Gather(points, Range(start, i)) + [At(points, i)]
  {
  }

  lemma CountGatherSnoc(points: seq<Point>, start: int, i: int, scalar: real)
    requires start <= i && InBounds(Range(start, i), |points|) && Indexable(|points|, i)
    ensures InBounds(Range(start, i + 1), |points|)
    ensures var before := CountMap(TilesOf(Gather(points, Range(start, i)), scalar));
      var t := Quantize(At(points, i), scalar);
      CountMap(TilesOf(Gather(points, Range(start, i + 1)), scalar)) == before[t := Get(before, t) + 1]
  {
    var g, p := Gather(points, Range(start, i)), At(points, i);
    GatherSnoc(points, start, i);
    var g' := Gather(points, Range(start, i + 1));
    assert g' == g + [p];
    TilesOfAppend(g, [p], scalar);
    var ts, t := TilesOf(g, scalar), Quantize(p, scalar);
    assert TilesOf(g', scalar) == ts + [t];
    CountMapSnoc(ts, t);
  }

  lemma PointGatherSnoc(points: seq<Point>, start: int, i: int, scalar: real)
    requires start <= i && InBounds(Range(start, i), |points|) && Indexable(|points|, i)
    ensures InBounds(Range(start, i + 1), |points|)
    ensures var before := PointMap(Gather(points, Range(start, i)), scalar);
      var t := Quantize(At(points, i), scalar);
      PointMap(Gather(points, Range(start, i + 1)), scalar) == before[t := GetPoints(before, t) + [At(points, i)]]
  {
    GatherSnoc(points, start, i);
    PointMapSnoc(Gather(points, Range(start, i)), scalar, At(points, i));
  }

  /** `partial_projection`: the tile counts of the points at the indices of one range. */
  method PartialProjection(points: seq<Point>, partialRange: Range, scalar: real) returns (res: Result<map<Tile, nat>>)
    ensures res.Success? <==> InBounds(partialRange, |points|)
    ensures res.Failure? ==> res.error == "IndexError"
    ensures res.Success? ==> res.value == CountMap(TilesOf(Gather(points, partialRange), scalar))
    ensures res.Success? ==> Total(res.value) == Len(partialRange)
  {
    var myTiles: map<Tile, nat> := map[];
    var i := partialRange.start;
    while i < partialRange.stop
      invariant partialRange.start <= i
      invariant i <= partialRange.stop || i == partialRange.start
      invariant InBounds(Range(partialRange.start, i), |points|)
      invariant myTiles == CountMap(TilesOf(Gather(points, Range(partialRange.start, i)), scalar))
      decreases partialRange.stop - i
    {
      if !Indexable(|points|, i) {
        return Failure("IndexError");
      }
      var p := At(points, i);
      var coordinate := Quantize(p, scalar);
      CountGatherSnoc(points, partialRange.start, i, scalar);
      var numPointsInTile := Get(myTiles, coordinate);
      myTiles := myTiles[coordinate := numPointsInTile + 1];
      i := i + 1;
    }
    assert Gather(points, Range(partialRange.start, i)) == Gather(points, partialRange);
    CountMapTotal(TilesOf(Gather(points, partialRange), scalar));
    return Success(myTiles);
  }

  /** `partial_projection_prime`: every point of the range appended to its own tile's list. */
  method PartialProjectionPrime(points: seq<Point>, partialRange: Range, scalar: real)
    returns (res: Result<map<Tile, seq<Point>>>)
    ensures res.Success? <==> InBounds(partialRange, |points|)
    ensures res.Failure? ==> res.error == "IndexError"
    ensures res.Success? ==> res.value == PointMap(Gather(points, partialRange), scalar)
  {
    var myTiles: map<Tile, seq<Point>> := map[];
    var i := partialRange.start;
    while i < partialRange.stop
      invariant partialRange.start <= i
      invariant i <= partialRange.stop || i == partialRange.start
      invariant InBounds(Range(partialRange.start, i), |points|)
      invariant myTiles == PointMap(Gather(points, Range(partialRange.start, i)), scalar)
      decreases partialRange.stop - i
    {
      if !Indexable(|points|, i) {
        return Failure("IndexError");
      }
      var p := At(points, i);
      var coordinate := Quantize(p, scalar);
      PointGatherSnoc(points, partialRange.start, i, scalar);
      var pointsInTile := GetPoints(myTiles, coordinate);
      pointsInTile := pointsInTile + [p];
      myTiles := myTiles[coordinate := pointsInTile];
      i := i + 1;
    }
    assert Gather(points, Range(partialRange.start, i)) == Gather(points, partialRange);
    return Success(myTiles);
  }

  /** The points read by all batches, batch after batch. */
  function Gathered(points: seq<Point>, batches: seq<Range>): seq<Point>
    requires AllInBounds(points, batches)
  {
    if batches == [] then []
    else Gathered(points, batches[..|batches| - 1]) + Gather(points, batches[|batches| - 1])
  }

  /** The partial counts of all batches summed in batch order. */
  function MergedCounts(points: seq<Point>, batches: seq<Range>, scalar: real): map<Tile, nat>
    requires AllInBounds(points, batches)
  {
    if batches == [] then map[]
    else AddCounts(MergedCounts(points, batches[..|batches| - 1], scalar),
                   CountMap(TilesOf(Gather(points, batches[|batches| - 1]), scalar)))
  }

  /** The partial point lists of all batches extended in batch order. */
  function MergedPoints(points: seq<Point>, batches: seq<Range>, scalar: real): map<Tile, seq<Point>>
    requires AllInBounds(points, batches)
  {
    if batches == [] then map[]
    else ExtendPoints(MergedPoints(points, batches[..|batches| - 1], scalar),
                      PointMap(Gather(points, batches[|batches| - 1]), scalar))
  }

  /** One more batch adds its partial counts. */
  lemma MergedCountsSnoc(points: seq<Point>, batches: seq<Range>, j: int, scalar: real)
    requires 0 <= j < |batches|
    requires AllInBounds(points, batches[..j]) && InBounds(batches[j], |points|)
    ensures AllInBounds(points, batches[..j + 1])
    ensures MergedCounts(points, batches[..j + 1], scalar)
         == AddCounts(MergedCounts(points, batches[..j], scalar), CountMap(TilesOf(Gather(points, batches[j]), scalar)))
  {
    assert batches[..j + 1][..j] == batches[..j];
  }

  /** One more batch extends the lists by its own points. */
  lemma MergedPointsSnoc(points: seq<Point>, batches: seq<Range>, j: int, scalar: real)
    requires 0 <= j < |batches|
    requires AllInBounds(points, batches[..j]) && InBounds(batches[j], |points|)
    ensures AllInBounds(points, batches[..j + 1])
    ensures MergedPoints(points, batches[..j + 1], scalar)
         == ExtendPoints(MergedPoints(points, batches[..j], scalar), PointMap(Gather(points, batches[j]), scalar))
  {
    assert batches[..j + 1][..j] == batches[..j];
  }

  /** Summing the partial counts gives the counts of everything the batches read. */
  lemma {:induction false} MergedCountsGathered(points: seq<Point>, batches: seq<Range>, scalar: real)
    requires AllInBounds(points, batches)
    ensures MergedCounts(points, batches, scalar) == CountMap(TilesOf(Gathered(points, batches), scalar))
  {
    if batches != [] {
      var init, last := batches[..|batches| - 1], batches[|batches| - 1];
      MergedCountsGathered(points, init, scalar);
      TilesOfAppend(Gathered(points, init), Gather(points, last), scalar);
      CountMapAppend(TilesOf(Gathered(points, init), scalar), TilesOf(Gather(points, last), scalar));
    } else {
      assert CountMap(TilesOf([], scalar)) == map[];
    }
  }

  lemma {:induction false} MergedPointsGathered(points: seq<Point>, batches: seq<Range>, scalar: real)
    requires AllInBounds(points, batches)
    ensures MergedPoints(points, batches, scalar) == PointMap(Gathered(points, batches), scalar)
  {
    if batches != [] {
      var init, last := batches[..|batches| - 1], batches[|batches| - 1];
      MergedPointsGathered(points, init, scalar);
      PointMapAppend(Gathered(points, init), Gather(points, last), scalar);
    } else {
      assert PointMap([], scalar) == map[];
    }
  }

  /** Consecutive batches from 0 to `hi` read exactly the first `hi` points, in order. */
  lemma {:induction false} GatheredConsecutive(points: seq<Point>, batches: seq<Range>, hi: int)
    requires Consecutive(batches, hi) && hi <= |points|
    ensures AllInBounds(points, batches)
    ensures 0 <= hi
    ensures Gathered(points, batches) == points[..hi]
    decreases |batches|
  {
    forall k | 0 <= k < |batches| ensures InBounds(batches[k], |points|) {
      ConsecutiveBounds(batches, hi, k);
    }
    var n := |batches|;
    var last := batches[n - 1];
    ConsecutiveBounds(batches, hi, n - 1);
    GatherSlice(points, last);
    if n == 1 {
      assert batches[..0] == [];
    } else {
      var init := batches[..n - 1];
      assert Consecutive(init, last.start);
      GatheredConsecutive(points, init, last.start);
      assert points[..last.start] + points[last.start..hi] == points[..hi];
    }
  }

  /**
   * When the batches partition the input, the merged counts are the sequential
   * per-tile counts...
   */
  lemma MergedCountsSequential(points: seq<Point>, batches: seq<Range>, scalar: real)
    requires Consecutive(batches, |points|)
    ensures AllInBounds(points, batches)
    ensures MergedCounts(points, batches, scalar) == CountMap(TilesOf(points, scalar))
  {
    GatheredConsecutive(points, batches, |points|);
    assert points[..|points|] == points;
    MergedCountsGathered(points, batches, scalar);
  }

  /** ... and the merged point lists are the sequential per-tile lists. */
  lemma MergedPointsSequential(points: seq<Point>, batches: seq<Range>, scalar: real)
    requires Consecutive(batches, |points|)
    ensures AllInBounds(points, batches)
    ensures MergedPoints(points, batches, scalar) == PointMap(points, scalar)
  {
    GatheredConsecutive(points, batches, |points|);
    assert points[..|points|] == points;
    MergedPointsGathered(points, batches, scalar);
  }

  /** Summing count maps in any order gives the same result. */
  function FoldAdd(parts: seq<map<Tile, nat>>): map<Tile, nat>
  {
    if parts == [] then map[] else AddCounts(FoldAdd(parts[..|parts| - 1]), parts[|parts| - 1])
  }

  lemma FoldAddSnoc(w: seq<map<Tile, nat>>, y: map<Tile, nat>)
    ensures FoldAdd(w + [y]) == AddCounts(FoldAdd(w), y)
  {
    assert (w + [y])[..|w|] == w;
  }

  lemma {:induction false} FoldAddRemove(parts: seq<map<Tile, nat>>, j: int)
    requires 0 <= j < |parts|
    ensures FoldAdd(parts) == AddCounts(FoldAdd(parts[..j] + parts[j + 1..]), parts[j])
    decreases |parts|
  {
    var n := |parts|;
    if j < n - 1 {
      var init := parts[..n - 1];
      var w := init[..j] + init[j + 1..];
      FoldAddRemove(init, j);
      assert parts[..j] + parts[j + 1..] == w + [parts[n - 1]];
      FoldAddSnoc(w, parts[n - 1]);
      assert FoldAdd(parts) == AddCounts(FoldAdd(init), parts[n - 1]);
      AddCountsAssociative(FoldAdd(w), parts[j], parts[n - 1]);
      AddCountsCommutative(parts[j], parts[n - 1]);
      AddCountsAssociative(FoldAdd(w), parts[n - 1], parts[j]);
    } else {
      assert parts[..j] + parts[j + 1..] == parts[..n - 1];
    }
  }

  /** The merged counts depend only on which partial results arrive, not on their order. */
  lemma {:induction false} MergeOrderIrrelevant(parts: seq<map<Tile, nat>>, arrived: seq<map<Tile, nat>>)
    requires multiset(parts) == multiset(arrived)
    ensures FoldAdd(parts) == FoldAdd(arrived)
    decreases |parts|
  {
    if parts == [] {
      assert |arrived| == |multiset(arrived)| == 0;
    } else {
      var n := |parts|;
      var x := parts[n - 1];
      assert parts == parts[..n - 1] + [x];
      assert x in multiset(arrived);
      var j :| 0 <= j < |arrived| && arrived[j] == x;
      var rest := arrived[..j] + arrived[j + 1..];
      assert arrived == arrived[..j] + [x] + arrived[j + 1..];
      assert multiset(arrived) == multiset(arrived[..j]) + multiset{x} + multiset(arrived[j + 1..]);
      assert multiset(rest) == multiset(arrived[..j]) + multiset(arrived[j + 1..]);
      assert multiset(parts) == multiset(parts[..n - 1]) + multiset{x};
      assert multiset(rest) == multiset(arrived) - multiset{x};
      assert multiset(parts[..n - 1]) == multiset(parts) - multiset{x};
      MergeOrderIrrelevant(parts[..n - 1], rest);
      FoldAddRemove(arrived, j);
    }
  }

  lemma AddCountsEmpty(m: map<Tile, nat>)
    ensures AddCounts(map[], m) == m
  {
  }

  lemma ExtendPointsEmpty(m: map<Tile, seq<Point>>)
    ensures ExtendPoints(map[], m) == m
  {
    forall t | t in m ensures ExtendPoints(map[], m)[t] == m[t] {
      assert [] + m[t] == m[t];
    }
  }

  /** `Counter.update`: adds the counts of `partial` to those of `counter`. */
  function Update(counter: map<Tile, nat>, partial: map<Tile, nat>): (r: map<Tile, nat>)
    ensures r.Keys == counter.Keys + partial.Keys
    ensures forall t :: t in r ==> r[t] == Get(counter, t) + Get(partial, t)
  {
    AddCounts(counter, partial)
  }

  /**
   * `processPoolExecutor`: the batch results, in submission order, folded with
   * `Counter.update`. With no batch, `max_workers=0` is a `ValueError`; a batch past
   * the data re-raises its `IndexError` from `f.result()`.
   */
  method ProcessPoolExecutor(points: seq<Point>, batches: seq<Range>, scalar: real) returns (res: Result<map<Tile, nat>>)
    ensures |batches| == 0 ==> res == Failure("ValueError")
    ensures res.Success? <==> |batches| >= 1 && AllInBounds(points, batches)
    ensures res.Failure? && |batches| >= 1 ==> res.error == "IndexError"
    ensures res.Success? ==> res.value == MergedCounts(points, batches, scalar)
  {
    if |batches| == 0 {
      return Failure("ValueError");
    }
    var allPoints: map<Tile, nat> := map[];
    for j := 0 to |batches|
      invariant AllInBounds(points, batches[..j])
      invariant allPoints == MergedCounts(points, batches[..j], scalar)
    {
      var f := PartialProjection(points, batches[j], scalar);
      if f.Failure? {
        return Failure(f.error);
      }
      MergedCountsSnoc(points, batches, j, scalar);
      allPoints := Update(allPoints, f.value);
    }
    assert batches[..|batches|] == batches;
    return Success(allPoints);
  }

  /**
   * `pool`: the same fold over `apply_async` results. `mp.Pool(0)` is a
   * `ValueError`; `f.get()` re-raises a batch's `IndexError`.
   */
  method Pool(points: seq<Point>, batches: seq<Range>, scalar: real) returns (res: Result<map<Tile, nat>>)
    ensures |batches| == 0 ==> res == Failure("ValueError")
    ensures res.Success? <==> |batches| >= 1 && AllInBounds(points, batches)
    ensures res.Failure? && |batches| >= 1 ==> res.error == "IndexError"
    ensures res.Success? ==> res.value == MergedCounts(points, batches, scalar)
  {
    if |batches| == 0 {
      return Failure("ValueError");
    }
    var allPoints: map<Tile, nat> := map[];
    var fs: seq<Result<map<Tile, nat>>> := [];
    for j := 0 to |batches|
      invariant |fs| == j
      invariant forall k :: 0 <= k < j ==> (fs[k].Success? <==> InBounds(batches[k], |points|))
      invariant forall k :: 0 <= k < j && fs[k].Failure? ==> fs[k].error == "IndexError"
      invariant forall k :: 0 <= k < j && fs[k].Success? ==>
                  fs[k].value == CountMap(TilesOf(Gather(points, batches[k]), scalar))
    {
      var f := PartialProjection(points, batches[j], scalar);
      fs := fs + [f];
    }
    for j := 0 to |batches|
      invariant AllInBounds(points, batches[..j])
      invariant allPoints == MergedCounts(points, batches[..j], scalar)
    {
      if fs[j].Failure? {
        return Failure(fs[j].error);
      }
      MergedCountsSnoc(points, batches, j, scalar);
      allPoints := Update(allPoints, fs[j].value);
    }
    assert batches[..|batches|] == batches;
    return Success(allPoints);
  }

  /** The entries of `m` whose key lies in `keys`. */
  function Restrict<V>(m: map<Tile, V>, keys: set<Tile>): map<Tile, V>
  {
    map t | t in m && t in keys :: m[t]
  }

  lemma RestrictNone<V>(m: map<Tile, V>)
    ensures Restrict(m, {}) == map[]
  {
  }

  lemma RestrictAll<V>(m: map<Tile, V>)
    ensures Restrict(m, m.Keys) == m
  {
  }

  lemma AddCountsNone(a: map<Tile, nat>)
    ensures AddCounts(a, map[]) == a
  {
  }

  lemma ExtendPointsNone(a: map<Tile, seq<Point>>)
    ensures ExtendPoints(a, map[]) == a
  {
    forall t | t in a ensures ExtendPoints(a, map[])[t] == a[t] {
      assert a[t] + [] == a[t];
    }
  }

  lemma AddCountsStep(a: map<Tile, nat>, p: map<Tile, nat>, done: set<Tile>, k: Tile)
    requires k in p && k !in done
    ensures var m := AddCounts(a, Restrict(p, done));
      AddCounts(a, Restrict(p, done + {k})) == m[k := Get(m, k) + p[k]]
  {
  }

  lemma ExtendPointsStep(a: map<Tile, seq<Point>>, p: map<Tile, seq<Point>>, done: set<Tile>, k: Tile)
    requires k in p && k !in done
    ensures var m := ExtendPoints(a, Restrict(p, done));
      ExtendPoints(a, Restrict(p, done + {k})) == m[k := GetPoints(m, k) + p[k]]
  {
    var m := ExtendPoints(a, Restrict(p, done));
    var l, r := ExtendPoints(a, Restrict(p, done + {k})), m[k := GetPoints(m, k) + p[k]];
    assert l.Keys == r.Keys;
    forall t | t in l ensures l[t] == r[t] {
      if t != k {
        assert GetPoints(Restrict(p, done + {k}), t) == GetPoints(Restrict(p, done), t);
      } else {
        assert GetPoints(Restrict(p, done), t) == [];
        assert GetPoints(a, t) + [] == GetPoints(a, t);
      }
    }
  }

  /** The explicit merge loop of `process`: `all_points[k] = all_points.get(k, 0) + v`. */
  method MergeCounts(allPoints: map<Tile, nat>, partialCount: map<Tile, nat>) returns (merged: map<Tile, nat>)
    ensures merged == AddCounts(allPoints, partialCount)
  {
    merged := allPoints;
    var todo := partialCount.Keys;
    ghost var done: set<Tile> := {};
    RestrictNone(partialCount);
    AddCountsNone(allPoints);
    while todo != {}
      invariant todo <= partialCount.Keys
      invariant done == partialCount.Keys - todo
      invariant merged == AddCounts(allPoints, Restrict(partialCount, done))
      decreases |todo|
    {
      var k :| k in todo;
      AddCountsStep(allPoints, partialCount, done, k);
      var num := Get(merged, k);
      merged := merged[k := num + partialCount[k]];
      todo := todo - {k};
      done := done + {k};
    }
    assert done == partialCount.Keys;
    RestrictAll(partialCount);
  }

  /** The explicit merge loop of `process_prime`: `points.extend(v)` on the key's list. */
  method MergePoints(allPoints: map<Tile, seq<Point>>, partialDict: map<Tile, seq<Point>>) returns (merged: map<Tile, seq<Point>>)
    ensures merged == ExtendPoints(allPoints, partialDict)
  {
    merged := allPoints;
    var todo := partialDict.Keys;
    ghost var done: set<Tile> := {};
    RestrictNone(partialDict);
    ExtendPointsNone(allPoints);
    while todo != {}
      invariant todo <= partialDict.Keys
      invariant done == partialDict.Keys - todo
      invariant merged == ExtendPoints(allPoints, Restrict(partialDict, done))
      decreases |todo|
    {
      var k :| k in todo;
      ExtendPointsStep(allPoints, partialDict, done, k);
      var pts := GetPoints(merged, k);
      pts := pts + partialDict[k];
      merged := merged[k := pts];
      todo := todo - {k};
      done := done + {k};
    }
    assert done == partialDict.Keys;
    RestrictAll(partialDict);
  }

  /**
   * What the main process of `process` ends with: the merged results once it has
   * taken one result per batch from the queue, or no return at all because fewer
   * results than batches ever arrive and a `result_queue.get()` waits forever.
   */
  datatype Awaited<T> = Received(value: T) | BlocksForever

  /** A prefix one batch longer is in bounds exactly when the shorter one and the new batch are. */
  lemma AllInBoundsSnoc(points: seq<Point>, batches: seq<Range>, j: int)
    requires 0 <= j < |batches|
    ensures AllInBounds(points, batches[..j + 1]) <==>
              AllInBounds(points, batches[..j]) && InBounds(batches[j], |points|)
  {
    assert batches[..j + 1] == batches[..j] + [batches[j]];
  }

  /**
   * The workers of `process` and `process_prime`: every queued task is run by some
   * worker, and an `IndexError` ends its worker before `output.put`, so only the
   * in-bounds batches put a result on the queue. Arrival order is taken to be
   * batch order.
   */
  method RunCountTasks(points: seq<Point>, batches: seq<Range>, scalar: real) returns (results: seq<map<Tile, nat>>)
    ensures |results| <= |batches|
    ensures |results| == |batches| <==> AllInBounds(points, batches)
    ensures |results| == |batches| ==>
              forall k :: 0 <= k < |results| ==> results[k] == CountMap(TilesOf(Gather(points, batches[k]), scalar))
  {
    results := [];
    for j := 0 to |batches|
      invariant |results| <= j
      invariant |results| == j <==> AllInBounds(points, batches[..j])
      invariant |results| == j ==>
                  forall k :: 0 <= k < j ==> results[k] == CountMap(TilesOf(Gather(points, batches[k]), scalar))
    {
      AllInBoundsSnoc(points, batches, j);
      var f := PartialProjection(points, batches[j], scalar);
      if f.Success? {
        results := results + [f.value];
      }
    }
    assert batches[..|batches|] == batches;
  }

  /** As `RunCountTasks`, for the tasks of `process_prime`. */
  method RunPointTasks(points: seq<Point>, batches: seq<Range>, scalar: real) returns (results: seq<map<Tile, seq<Point>>>)
    ensures |results| <= |batches|
    ensures |results| == |batches| <==> AllInBounds(points, batches)
    ensures |results| == |batches| ==>
              forall k :: 0 <= k < |results| ==> results[k] == PointMap(Gather(points, batches[k]), scalar)
  {
    results := [];
    for j := 0 to |batches|
      invariant |results| <= j
      invariant |results| == j <==> AllInBounds(points, batches[..j])
      invariant |results| == j ==>
                  forall k :: 0 <= k < j ==> results[k] == PointMap(Gather(points, batches[k]), scalar)
    {
      AllInBoundsSnoc(points, batches, j);
      var f := PartialProjectionPrime(points, batches[j], scalar);
      if f.Success? {
        results := results + [f.value];
      }
    }
    assert batches[..|batches|] == batches;
  }

  /**
   * `process`: one task per batch; the first result starts the merge and the
   * other `len(batches) - 1` results are added to it. The main process blocks
   * forever when there is no batch, or when a batch runs past the data and its
   * worker dies without a result.
   */
  method Process(points: seq<Point>, batches: seq<Range>, scalar: real) returns (res: Awaited<map<Tile, nat>>)
    ensures res.BlocksForever? <==> |batches| == 0 || !AllInBounds(points, batches)
    ensures res.Received? ==> res.value == MergedCounts(points, batches, scalar)
  {
    var results := RunCountTasks(points, batches, scalar);
    if |batches| == 0 || |results| < |batches| {
      return BlocksForever;
    }
    var allPoints := results[0];
    assert batches[..0] == [];
    MergedCountsSnoc(points, batches, 0, scalar);
    AddCountsEmpty(allPoints);
    for j := 1 to |batches|
      invariant allPoints == MergedCounts(points, batches[..j], scalar)
    {
      MergedCountsSnoc(points, batches, j, scalar);
      allPoints := MergeCounts(allPoints, results[j]);
    }
    assert batches[..|batches|] == batches;
    return Received(allPoints);
  }

  /** `process_prime`: as `process`, extending point lists instead of adding counts. */
  method ProcessPrime(points: seq<Point>, batches: seq<Range>, scalar: real) returns (res: Awaited<map<Tile, seq<Point>>>)
    ensures res.BlocksForever? <==> |batches| == 0 || !AllInBounds(points, batches)
    ensures res.Received? ==> res.value == MergedPoints(points, batches, scalar)
  {
    var results := RunPointTasks(points, batches, scalar);
    if |batches| == 0 || |results| < |batches| {
      return BlocksForever;
    }
    var allPoints := results[0];
    assert batches[..0] == [];
    MergedPointsSnoc(points, batches, 0, scalar);
    ExtendPointsEmpty(allPoints);
    for j := 1 to |batches|
      invariant allPoints == MergedPoints(points, batches[..j], scalar)
    {
      MergedPointsSnoc(points, batches, j, scalar);
      allPoints := MergePoints(allPoints, results[j]);
    }
    assert batches[..|batches|] == batches;
    return Received(allPoints);
  }

  /**
   * When the as-written ranges run past the data, some batch is out of bounds:
   * `process` and `process_prime` then block forever, and `pool` and
   * `processPoolExecutor` fail with `IndexError`.
   */
  lemma PastTheEndOutOfBounds(points: seq<Point>, numProcesses: nat)
    requires numProcesses >= 2
    requires (numProcesses - 1) * RoundHalfEven(|points|, numProcesses) > |points|
    ensures !AllInBounds(points, BatchedRanges(|points|, numProcesses).value)
  {
    PastTheEnd(|points|, numProcesses);
    var rs := BatchedRanges(|points|, numProcesses).value;
    var k :| 0 <= k < |rs| && Contains(rs[k], (numProcesses - 1) * RoundHalfEven(|points|, numProcesses) - 1);
    assert !InBounds(rs[k], |points|);
  }

  /** Three points and five processes give such an out-of-bounds batch. */
  lemma PastTheEndOutOfBoundsExample(points: seq<Point>)
    requires |points| == 3
    ensures !AllInBounds(points, BatchedRanges(3, 5).value)
  {
    assert RoundHalfEven(3, 5) == 1;
    PastTheEndOutOfBounds(points, 5);
  }

  /**
   * With the ranges as data_loader.py builds them, one process counts every point
   * twice: the merged count of every tile is double its true count.
   */
  lemma SingleProcessDoubles(points: seq<Point>, scalar: real)
    ensures AllInBounds(points, BatchedRanges(|points|, 1).value)
    ensures var merged := MergedCounts(points, BatchedRanges(|points|, 1).value, scalar);
      var counts := CountMap(TilesOf(points, scalar));
      merged.Keys == counts.Keys && forall t :: t in merged ==> merged[t] == 2 * counts[t]
  {
    SingleProcessTwice(|points|);
    var r := Range(0, |points|);
    var batches := [r, r];
    GatherSlice(points, r);
    assert points[0..|points|] == points;
    assert batches[..1] == [r] && batches[..1][..0] == [];
    var counts := CountMap(TilesOf(points, scalar));
    AddCountsEmpty(counts);
    assert MergedCounts(points, batches[..1], scalar) == counts;
  }

  /**
   * For instance three points in one tile reach a threshold of five once doubled,
   * although sequential projection finds no dense tile.
   */
  lemma SingleProcessDoublesExample()
    ensures var points := [Point(0.0, 0.0), Point(0.0, 0.0), Point(0.0, 0.0)];
      && AllInBounds(points, BatchedRanges(|points|, 1).value)
      && Significant(MergedCounts(points, BatchedRanges(|points|, 1).value, 1.0), 5) == {(0, 0)}
      && Dense(points, 1.0, 5) == {}
  {
    var p := Point(0.0, 0.0);
    var points := [p, p, p];
    SingleProcessDoubles(points, 1.0);
    assert Quantize(p, 1.0) == (0, 0);
    var tiles := TilesOf(points, 1.0);
    assert tiles == [(0, 0), (0, 0), (0, 0)];
    assert multiset(tiles)[(0, 0)] == 3;
    assert Elems(tiles) == {(0, 0)};
  }
}
