/** How the TokenCake scheduler tells computed from recomputed tokens (vllm/tokencake/scheduling.py,
    SchedulingController.executed): per request it keeps the token positions that have been executed as a
    list of ranges, and counts the overlap with it as recomputed. */
module ExecutedRanges {
  import opened Sorting

  datatype Range = Range(a: int, b: int) {
    predicate Has(x: int) {
      a <= x < b
    }

    predicate Before(other: Range) {
      a < other.a || (a == other.a && b <= other.b)
    }
  }

  function Min(x: int, y: int): int {
    if x < y then x else y
  }

  function Max(x: int, y: int): int {
    if x < y then y else x
  }

  /** max(0, min(end, b) - max(start, a)). */
  function Overlap(r: Range, start: int, end: int): nat {
    Max(0, Min(end, r.b) - Max(start, r.a))
  }

  function Repeated(ranges: seq<Range>, start: int, end: int): nat {
    if ranges == [] then 0
    else Repeated(ranges[..|ranges| - 1], start, end) + Overlap(ranges[|ranges| - 1], start, end)
  }

  ghost predicate Covers(ranges: seq<Range>, x: int) {
    exists i :: 0 <= i < |ranges| && ranges[i].Has(x)
  }

  /** Sorted, and with a gap between any two neighbours. */
  ghost predicate Separated(ranges: seq<Range>) {
    && (forall i :: 0 <= i < |ranges| ==> ranges[i].a <= ranges[i].b)
    && (forall i, j :: 0 <= i < j < |ranges| ==> ranges[i].b < ranges[j].a)
  }

  ghost predicate Sorted(ranges: seq<Range>) {
    forall i, j :: 0 <= i < j < |ranges| ==> ranges[i].Before(ranges[j])
  }

  predicate Earlier(x: Range, y: Range) {
    !y.Before(x)
  }

  /** sorted([*ranges, r]). */
  function With(ranges: seq<Range>, r: Range): seq<Range> {
    Sort(ranges + [r], Earlier)
  }

  /** It holds the ranges and r, in order. */
  lemma WithRange(ranges: seq<Range>, r: Range)
    requires Separated(ranges) && r.a <= r.b
    ensures Sorted(With(ranges, r)) && forall i :: 0 <= i < |With(ranges, r)| ==> With(ranges, r)[i].a <= With(ranges, r)[i].b
    ensures forall x :: Covers(With(ranges, r), x) <==> Covers(ranges, x) || r.Has(x)
  {
    SortOrders(ranges + [r], Earlier);
    SortPermutes(ranges + [r], Earlier);
    var all := With(ranges, r);
    assert forall i, j :: 0 <= i < j < |all| ==> !Earlier(all[j], all[i]);
    SameRanges(all, ranges + [r]);
    CoversAppend(ranges, r);
    hide Sort;
    forall i | 0 <= i < |all|
      ensures all[i].a <= all[i].b
    {
      assert all[i] in multiset(ranges + [r]);
    }
  }

  lemma SameRanges(s: seq<Range>, t: seq<Range>)
    requires multiset(s) == multiset(t)
    ensures forall x :: Covers(s, x) <==> Covers(t, x)
  {
    forall x, i | 0 <= i < |s| && s[i].Has(x)
      ensures Covers(t, x)
    {
      assert s[i] in multiset(t);
    }
    forall x, i | 0 <= i < |t| && t[i].Has(x)
      ensures Covers(s, x)
    {
      assert t[i] in multiset(s);
    }
  }

  /** The merging loop: the same positions, in separate ranges. */
  method Merge(sorted: seq<Range>) returns (merged: seq<Range>)
    requires Sorted(sorted) && forall i :: 0 <= i < |sorted| ==> sorted[i].a <= sorted[i].b
    ensures Separated(merged) && forall x :: Covers(merged, x) <==> Covers(sorted, x)
  {
    merged := [];
    for i := 0 to |sorted|
      invariant Separated(merged) && (merged == [] <==> i == 0)
      invariant merged != [] ==> merged[|merged| - 1].a <= sorted[i - 1].a
      invariant forall x :: Covers(merged, x) <==> Covers(sorted[..i], x)
    {
      var r := sorted[i];
      ghost var before := merged;
      if merged != [] && r.a <= merged[|merged| - 1].b {
        var last := merged[|merged| - 1];
        merged := merged[..|merged| - 1] + [Range(last.a, Max(last.b, r.b))];
        Widened(before, merged, r);
      } else {
        if merged != [] {
          assert sorted[i - 1].Before(r);
        }
        merged := merged + [r];
        CoversAppend(before, r);
      }
      assert sorted[..i + 1] == sorted[..i] + [r];
      CoversAppend(sorted[..i], r);
    }
    assert sorted[..|sorted|] == sorted;
  }

  lemma CoversAppend(ranges: seq<Range>, r: Range)
    ensures forall x :: Covers(ranges + [r], x) <==> Covers(ranges, x) || r.Has(x)
  {
    forall x
      ensures Covers(ranges + [r], x) <==> Covers(ranges, x) || r.Has(x)
    {
      var all := ranges + [r];
      if Covers(ranges, x) {
        var i :| 0 <= i < |ranges| && ranges[i].Has(x);
        assert all[i].Has(x);
      }
      if r.Has(x) {
        assert all[|ranges|].Has(x);
      }
    }
  }

  lemma Widened(ranges: seq<Range>, merged: seq<Range>, r: Range)
    requires ranges != [] && ranges[|ranges| - 1].a <= r.a <= ranges[|ranges| - 1].b && r.a <= r.b
    requires var last := ranges[|ranges| - 1]; last.a <= last.b && merged == ranges[..|ranges| - 1] + [Range(last.a, Max(last.b, r.b))]
    ensures forall x :: Covers(merged, x) <==> Covers(ranges, x) || r.Has(x)
  {
    var init, last := ranges[..|ranges| - 1], ranges[|ranges| - 1];
    assert ranges == init + [last];
    CoversAppend(init, last);
    CoversAppend(init, Range(last.a, Max(last.b, r.b)));
  }

  /** How many positions of lo .. hi - 1 have been executed. */
  ghost function Seen(ranges: seq<Range>, lo: int, hi: int): nat
    decreases hi - lo
  {
    if hi <= lo then 0 else Seen(ranges, lo, hi - 1) + if Covers(ranges, hi - 1) then 1 else 0
  }

  lemma {:induction false} SeenSplit(ranges: seq<Range>, r: Range, lo: int, hi: int)
    requires forall x :: r.Has(x) ==> !Covers(ranges, x)
    ensures Seen(ranges + [r], lo, hi) == Seen(ranges, lo, hi) + Overlap(r, lo, hi)
    decreases hi - lo
  {
    CoversAppend(ranges, r);
    if lo < hi {
      SeenSplit(ranges, r, lo, hi - 1);
    }
  }

  /** In separate ranges the overlaps add up to the number of positions seen. */
  lemma {:induction false} RepeatedIsSeen(ranges: seq<Range>, lo: int, hi: int)
    requires Separated(ranges)
    ensures Repeated(ranges, lo, hi) == Seen(ranges, lo, hi)
  {
    if ranges == [] {
      NothingSeen(lo, hi);
    } else {
      var init, last := ranges[..|ranges| - 1], ranges[|ranges| - 1];
      RepeatedIsSeen(init, lo, hi);
      assert ranges == init + [last];
      hide Seen, Overlap;
      SeenSplit(init, last, lo, hi);
    }
  }

  lemma {:induction false} NothingSeen(lo: int, hi: int)
    ensures Seen([], lo, hi) == 0
    decreases hi - lo
  {
    if lo < hi {
      NothingSeen(lo, hi - 1);
    }
  }

  lemma {:induction false} SeenGrows(ranges: seq<Range>, merged: seq<Range>, r: Range, lo: int, hi: int)
    requires forall x :: Covers(merged, x) <==> Covers(ranges, x) || r.Has(x)
    requires lo <= r.a <= r.b
    ensures var end := Max(r.a, Min(r.b, hi));
            Seen(merged, lo, hi) + Seen(ranges, r.a, end) == Seen(ranges, lo, hi) + (end - r.a)
    decreases hi - lo
  {
    if lo < hi {
      SeenGrows(ranges, merged, r, lo, hi - 1);
    }
  }

  /** The number of positions held. */
  function Size(ranges: seq<Range>): int {
    if ranges == [] then 0 else Size(ranges[..|ranges| - 1]) + ranges[|ranges| - 1].b - ranges[|ranges| - 1].a
  }

  lemma {:induction false} SizeIsRepeated(ranges: seq<Range>, lo: int, hi: int)
    requires forall i :: 0 <= i < |ranges| ==> lo <= ranges[i].a <= ranges[i].b <= hi
    ensures Size(ranges) == Repeated(ranges, lo, hi)
  {
    if ranges != [] {
      SizeIsRepeated(ranges[..|ranges| - 1], lo, hi);
    }
  }

  lemma {:induction false} Bounds(ranges: seq<Range>) returns (lo: int, hi: int)
    ensures forall i :: 0 <= i < |ranges| ==> lo <= ranges[i].a && ranges[i].b <= hi
  {
    lo, hi := 0, 0;
    if ranges != [] {
      lo, hi := Bounds(ranges[..|ranges| - 1]);
      lo, hi := Min(lo, ranges[|ranges| - 1].a), Max(hi, ranges[|ranges| - 1].b);
    }
  }

  /** Conservation: what a call executes is either counted as recomputed or new in the ranges. */
  lemma NewOrRepeated(ranges: seq<Range>, merged: seq<Range>, r: Range)
    requires Separated(ranges) && Separated(merged) && r.a <= r.b
    requires forall x :: Covers(merged, x) <==> Covers(ranges, x) || r.Has(x)
    ensures Size(merged) + Repeated(ranges, r.a, r.b) == Size(ranges) + (r.b - r.a)
  {
    var lo1, hi1 := Bounds(ranges);
    var lo2, hi2 := Bounds(merged);
    var lo, hi := Min(Min(lo1, lo2), r.a), Max(Max(hi1, hi2), r.b);
    SizeIsRepeated(ranges, lo, hi);
    SizeIsRepeated(merged, lo, hi);
    RepeatedIsSeen(ranges, lo, hi);
    RepeatedIsSeen(merged, lo, hi);
    RepeatedIsSeen(ranges, r.a, r.b);
    SeenGrows(ranges, merged, r, lo, hi);
  }

  /** One request in one call of executed: the ranges and the metrics. */
  class Progress {
    var ranges: seq<Range>
    var executedTokens: nat
    var recomputedTokens: nat

    /** Executed tokens that were not recomputed are exactly the positions held. */
    ghost predicate Valid()
      reads this
    {
      Separated(ranges) && executedTokens == recomputedTokens + Size(ranges)
    }

    constructor ()
      ensures Valid() && ranges == []
    {
      ranges, executedTokens, recomputedTokens := [], 0, 0;
    }

    method CountRepeated(start: int, end: int) returns (repeated: nat)
      ensures repeated == Repeated(ranges, start, end)
    {
      repeated := 0;
      for i := 0 to |ranges|
        invariant repeated == Repeated(ranges[..i], start, end)
      {
        assert ranges[..i + 1][..i] == ranges[..i];
        repeated := repeated + Overlap(ranges[i], start, end);
      }
      assert ranges[..|ranges|] == ranges;
    }

    method Executed(start: int, count: nat)
      requires Valid()
      modifies this
      ensures Valid() && executedTokens == old(executedTokens) + count
      ensures recomputedTokens == old(recomputedTokens) + Seen(old(ranges), start, start + count)
      ensures forall x :: Covers(ranges, x) <==> Covers(old(ranges), x) || start <= x < start + count
    {
      hide Covers, Separated, Repeated, Size, Seen, With, Sorted;
      var r := Range(start, start + count);
      var repeated := CountRepeated(start, r.b);
      RepeatedIsSeen(ranges, start, r.b);
      WithRange(ranges, r);
      var merged := Merge(With(ranges, r));
      NewOrRepeated(ranges, merged, r);
      executedTokens, recomputedTokens := executedTokens + count, recomputedTokens + repeated;
      ranges := merged;
    }
  }
}
