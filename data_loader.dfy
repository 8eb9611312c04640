/**
 * `batched_ranges` of 1_benchmark_sklearn/data_loader.py: splits the index range of
 * the input into one range per process. Only the length of the input matters.
 */
module DataLoader {
  import opened Wrappers

  /** Python `range(start, stop)` with step 1. */
  datatype Range = Range(start: int, stop: int)

  function Len(r: Range): nat
  {
    if r.stop > r.start then r.stop - r.start else 0
  }

  predicate Contains(r: Range, i: int)
  {
    r.start <= i < r.stop
  }

  /** Python's `round(n / d)` on the exact quotient: nearest integer, ties to even. */
  function RoundHalfEven(n: nat, d: nat): (r: nat)
    requires d > 0
    ensures 2 * n - d <= 2 * r * d <= 2 * n + d
    ensures 2 * r * d == 2 * n - d || 2 * r * d == 2 * n + d ==> r % 2 == 0
  {
    var q, rem := n / d, n % d;
    assert n == q * d + rem;
    assert 2 * (q + 1) * d == 2 * q * d + 2 * d;
    if 2 * rem < d then q
    else if 2 * rem > d then q + 1
    else if q % 2 == 0 then q
    else q + 1
  }

  /**
   * The ranges exactly as data_loader.py builds them: a first range of `batchSize`
   * indices, the middle ranges for processes 2 .. numProcesses - 1, and a final
   * range from `(numProcesses - 1) * batchSize` to the end. Zero processes divide by zero.
   */
  function BatchedRanges(len: nat, numProcesses: nat): (r: Result<seq<Range>>)
    ensures r.Success? <==> numProcesses > 0
  {
    if numProcesses == 0 then Failure("ZeroDivisionError")
    else
      var b := RoundHalfEven(len, numProcesses);
      var mids := if numProcesses > 2
                  then seq(numProcesses - 2, k requires 0 <= k => Range((k + 1) * b, (k + 2) * b))
                  else [];
      Success([Range(0, b)] + mids + [Range((numProcesses - 1) * b, len)])
  }

  /** The ranges follow each other without gap or overlap from 0 to `len`. */
  predicate Consecutive(rs: seq<Range>, len: int)
  {
    && |rs| > 0
    && rs[0].start == 0
    && rs[|rs| - 1].stop == len
    && (forall k :: 0 <= k < |rs| ==> rs[k].start <= rs[k].stop)
    && (forall k :: 0 <= k < |rs| - 1 ==> rs[k].stop == rs[k + 1].start)
  }

  lemma {:induction false} ConsecutiveOrdered(rs: seq<Range>, len: int, j: int, k: int)
    requires Consecutive(rs, len)
    requires 0 <= j < k < |rs|
    ensures rs[j].stop <= rs[k].start
    decreases k - j
  {
    if j + 1 < k {
      ConsecutiveOrdered(rs, len, j + 1, k);
    }
  }

  lemma {:induction false} ConsecutiveBounds(rs: seq<Range>, len: int, k: int)
    requires Consecutive(rs, len)
    requires 0 <= k < |rs|
    ensures 0 <= rs[k].start <= rs[k].stop <= len
  {
    if 0 < k {
      ConsecutiveOrdered(rs, len, 0, k);
    }
    if k < |rs| - 1 {
      ConsecutiveOrdered(rs, len, k, |rs| - 1);
    }
  }

  predicate Covered(rs: seq<Range>, i: int)
  {
    exists k :: 0 <= k < |rs| && Contains(rs[k], i)
  }

  /** Consecutive ranges partition `0 .. len`: every index lies in exactly one of them. */
  lemma ConsecutivePartition(rs: seq<Range>, len: int)
    requires Consecutive(rs, len)
    ensures forall k, i :: 0 <= k < |rs| && Contains(rs[k], i) ==> 0 <= i < len
    ensures forall i :: 0 <= i < len ==> Covered(rs, i)
    ensures forall j, k, i :: 0 <= j < |rs| && 0 <= k < |rs| && Contains(rs[j], i) && Contains(rs[k], i) ==> j == k
  {
    forall k, i | 0 <= k < |rs| && Contains(rs[k], i) ensures 0 <= i < len {
      ConsecutiveBounds(rs, len, k);
    }
    forall i | 0 <= i < len ensures Covered(rs, i) {
      var k := Covering(rs, len, i, |rs| - 1);
      assert 0 <= k < |rs| && Contains(rs[k], i);
    }
    forall j, k, i | 0 <= j < |rs| && 0 <= k < |rs| && Contains(rs[j], i) && Contains(rs[k], i)
      ensures j == k
    {
      if j < k {
        ConsecutiveOrdered(rs, len, j, k);
      } else if k < j {
        ConsecutiveOrdered(rs, len, k, j);
      }
    }
  }

  /** The range among `rs[..n + 1]` that holds an index below `rs[n].stop`. */
  lemma {:induction false} Covering(rs: seq<Range>, len: int, i: int, n: int) returns (k: int)
    requires Consecutive(rs, len)
    requires 0 <= n < |rs| && 0 <= i < rs[n].stop
    ensures 0 <= k <= n && Contains(rs[k], i)
    decreases n
  {
    if i >= rs[n].start {
      k := n;
    } else {
      k := Covering(rs, len, i, n - 1);
    }
  }

  /** For at least two processes there is one range per process, each starting where the previous stops. */
  lemma BatchedRangesShape(len: nat, numProcesses: nat)
    requires numProcesses >= 2
    ensures var rs := BatchedRanges(len, numProcesses).value;
      && |rs| == numProcesses
      && rs[0].start == 0
      && rs[|rs| - 1] == Range((numProcesses - 1) * RoundHalfEven(len, numProcesses), len)
      && (forall k :: 0 <= k < |rs| - 1 ==> rs[k].stop == rs[k + 1].start)
  {
  }

  /**
   * When the final range does not start past the end, the ranges partition the
   * indices of the input.
   */
  lemma BatchedRangesPartition(len: nat, numProcesses: nat)
    requires numProcesses >= 2
    requires (numProcesses - 1) * RoundHalfEven(len, numProcesses) <= len
    ensures Consecutive(BatchedRanges(len, numProcesses).value, len)
  {
    BatchedRangesShape(len, numProcesses);
  }

  /** As written, one process gets the whole range twice. */
  lemma SingleProcessTwice(len: nat)
    ensures BatchedRanges(len, 1) == Success([Range(0, len), Range(0, len)])
    ensures forall i :: 0 <= i < len ==> Contains(Range(0, len), i)
  {
    assert len / 1 == len && len % 1 == 0;
    assert RoundHalfEven(len, 1) == len;
    var rs := BatchedRanges(len, 1).value;
    assert rs[0] == Range(0, len);
    assert rs[1] == Range(0, len);
    assert |rs| == 2;
    assert rs == [Range(0, len), Range(0, len)];
  }

  /**
   * As written, when `(numProcesses - 1) * batchSize` exceeds the length, the last
   * middle range reaches past the end of the input; for instance three points and
   * five processes give the range 3 .. 4.
   */
  lemma PastTheEnd(len: nat, numProcesses: nat)
    requires numProcesses >= 2
    requires (numProcesses - 1) * RoundHalfEven(len, numProcesses) > len
    ensures var rs := BatchedRanges(len, numProcesses).value;
      exists k :: 0 <= k < |rs| && Contains(rs[k], (numProcesses - 1) * RoundHalfEven(len, numProcesses) - 1)
    ensures (numProcesses - 1) * RoundHalfEven(len, numProcesses) - 1 >= len
  {
    var b := RoundHalfEven(len, numProcesses);
    var rs := BatchedRanges(len, numProcesses).value;
    if numProcesses == 2 {
      assert false;
    }
    assert rs[numProcesses - 2] == Range((numProcesses - 2) * b, (numProcesses - 1) * b);
    assert b >= 1;
  }

  lemma PastTheEndExample()
    ensures BatchedRanges(3, 5).value[3] == Range(3, 4)
  {
    assert RoundHalfEven(3, 5) == 1;
  }

  /**
   * The evident intent: `numProcesses` ranges of `len / numProcesses` indices, the
   * last one absorbing the remainder.
   */
  function BatchedRangesCorrected(len: nat, numProcesses: nat): (r: Result<seq<Range>>)
    ensures r.Success? <==> numProcesses > 0
    ensures r.Success? ==> |r.value| == numProcesses
  {
    if numProcesses == 0 then Failure("ZeroDivisionError")
    else
      var b := len / numProcesses;
      Success(seq(numProcesses, k requires 0 <= k < numProcesses =>
                    Range(k * b, if k == numProcesses - 1 then len else (k + 1) * b)))
  }

  /** The corrected ranges partition the indices of the input for every positive process count. */
  lemma CorrectedConsecutive(len: nat, numProcesses: nat)
    requires numProcesses > 0
    ensures Consecutive(BatchedRangesCorrected(len, numProcesses).value, len)
  {
    var rs := BatchedRangesCorrected(len, numProcesses).value;
    var b := len / numProcesses;
    assert b * numProcesses <= len;
    assert (numProcesses - 1) * b <= len by {
      assert (numProcesses - 1) * b == b * numProcesses - b;
    }
    forall k | 0 <= k < numProcesses
      ensures rs[k].start <= rs[k].stop
    {
      assert (k + 1) * b == k * b + b;
      if k == numProcesses - 1 {
        assert rs[k].start == (numProcesses - 1) * b;
      }
    }
    assert rs[0].start == 0;
  }
}
