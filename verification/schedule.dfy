/**
 The page offsets `range(offset, offset + limit * 20, limit)`: twenty page
 requests, `limit` apart, starting at `offset`.
 */
module PageSchedule {
  import opened Wrappers

  /** The number of pages requested, fixed in the driver. */
  const PageCount: nat := 20

  /**
   Python's `range(start, stop, step)` for a non-zero step: `start`,
   `start + step`, ... for as long as the value is still short of `stop`
   (below it for a positive step, above it for a negative one).
   */
  function Range(start: int, stop: int, step: int): (r: seq<int>)
    requires step != 0
    ensures |r| > 0 ==> r[0] == start
    ensures forall i :: 0 <= i < |r| - 1 ==> r[i + 1] == r[i] + step
    ensures forall i :: 0 <= i < |r| ==> if step > 0 then r[i] < stop else r[i] > stop
    ensures |r| == 0 ==> if step > 0 then start >= stop else start <= stop
    ensures |r| > 0 ==> if step > 0 then r[|r| - 1] + step >= stop else r[|r| - 1] + step <= stop
    decreases if step > 0 then stop - start else start - stop
  {
    if (step > 0 && start >= stop) || (step < 0 && start <= stop) then []
    else [start] + Range(start + step, stop, step)
  }

  /**
   The offsets the driver hands to the workers. A zero limit makes `range`
   raise `ValueError`, which ends the run before any request.
   */
  function PageOffsets(offset: int, limit: int): (r: Result<seq<int>>)
    ensures r.Failure? <==> limit == 0
  {
    if limit == 0 then Failure("range() arg 3 must not be zero")
    else Success(Range(offset, offset + limit * PageCount, limit))
  }

  /** `k` positive steps of `step` move in `step`'s direction. */
  lemma {:induction false} StepsKeepSign(k: int, step: int)
    requires k > 0
    ensures step > 0 ==> step * k > 0
    ensures step < 0 ==> step * k < 0
    decreases k
  {
    if k > 1 {
      StepsKeepSign(k - 1, step);
      assert step * k == step * (k - 1) + step;
    }
  }

  /** A sequence that starts at `start` and moves by `step` holds `start + i * step` at `i`. */
  lemma {:induction false} Arithmetic(r: seq<int>, start: int, step: int, i: nat)
    requires i < |r| && r[0] == start
    requires forall j :: 0 <= j < |r| - 1 ==> r[j + 1] == r[j] + step
    ensures r[i] == start + i * step
    decreases i
  {
    if i > 0 {
      Arithmetic(r, start, step, i - 1);
      assert i * step == (i - 1) * step + step;
    }
  }

  /** Moving by a positive step climbs, moving by a negative one descends. */
  lemma {:induction false} StepsOrdered(r: seq<int>, step: int, i: nat, j: nat)
    requires i < j < |r|
    requires forall k :: 0 <= k < |r| - 1 ==> r[k + 1] == r[k] + step
    ensures step > 0 ==> r[i] < r[j]
    ensures step < 0 ==> r[i] > r[j]
    decreases j - i
  {
    if i + 1 < j {
      StepsOrdered(r, step, i + 1, j);
    }
  }

  /** A range whose stop is `n` steps past its start holds exactly `n` values. */
  lemma {:induction false} RangeOfSteps(start: int, step: int, n: nat)
    requires step != 0
    ensures |Range(start, start + step * n, step)| == n
    decreases n
  {
    if n == 0 {
      assert step * n == 0;
    } else {
      assert start + step * n == (start + step) + step * (n - 1);
      RangeOfSteps(start + step, step, n - 1);
      StepsKeepSign(n, step);
    }
  }

  /**
   For every non-zero limit there are exactly twenty offsets, the i-th being
   `offset + i * limit`: increasing for a positive limit, decreasing for a
   negative one.
   */
  lemma PageOffsetsSchedule(offset: int, limit: int)
    requires limit != 0
    ensures PageOffsets(offset, limit).Success?
    ensures var offsets := PageOffsets(offset, limit).value;
      && |offsets| == PageCount
      && (forall i :: 0 <= i < |offsets| ==> offsets[i] == offset + i * limit)
      && (limit > 0 ==> forall i, j :: 0 <= i < j < |offsets| ==> offsets[i] < offsets[j])
      && (limit < 0 ==> forall i, j :: 0 <= i < j < |offsets| ==> offsets[i] > offsets[j])
  {
    RangeOfSteps(offset, limit, PageCount);
    var offsets := PageOffsets(offset, limit).value;
    forall i | 0 <= i < |offsets|
      ensures offsets[i] == offset + i * limit
    {
      Arithmetic(offsets, offset, limit, i);
    }
    forall i, j | 0 <= i < j < |offsets|
      ensures limit > 0 ==> offsets[i] < offsets[j]
      ensures limit < 0 ==> offsets[i] > offsets[j]
    {
      StepsOrdered(offsets, limit, i, j);
    }
  }
}
