/** partition_capacity of vllm/tokencake/scheduling.py: which agent types are critical, and how the reserved
    part of the KV cache is shared among them.  Agent types are numbered in the order of their names;
    arithmetic is over exact reals. */
module Capacity {
  import opened Sorting

  type Key = nat

  function Max(x: real, y: real): real {
    if x < y then y else x
  }

  function SumReal(keys: seq<Key>, m: map<Key, real>): real
    requires forall i :: 0 <= i < |keys| ==> keys[i] in m
  {
    if keys == [] then 0.0 else SumReal(keys[..|keys| - 1], m) + m[keys[|keys| - 1]]
  }

  function Sum(keys: seq<Key>, m: map<Key, int>): int
    requires forall i :: 0 <= i < |keys| ==> keys[i] in m
  {
    if keys == [] then 0 else Sum(keys[..|keys| - 1], m) + m[keys[|keys| - 1]]
  }

  /** reserved * w / weight_sum. */
  function Share(amount: real, w: real, total: real): real
    requires total > 0.0
  {
    amount * w / total
  }

  lemma ShareAdds(amount: real, w: real, w': real, total: real)
    requires total > 0.0
    ensures Share(amount, w, total) + Share(amount, w', total) == Share(amount, w + w', total)
    ensures Share(amount, total, total) == amount && Share(amount, 0.0, total) == 0.0
  {
  }

  lemma ShareGrows(amount: real, w: real, w': real, total: real)
    requires total > 0.0 && amount >= 0.0 && 0.0 <= w <= w'
    ensures 0.0 <= Share(amount, w, total) <= Share(amount, w', total)
    ensures amount > 0.0 && w < w' ==> Share(amount, w, total) < Share(amount, w', total)
  {
    var d := w' - w;
    ShareAdds(amount, w, d, total);
    ShareSign(amount, w, total);
    ShareSign(amount, d, total);
  }

  lemma ShareOfNone(w: real, total: real)
    requires total > 0.0
    ensures Share(0.0, w, total) == 0.0
  {
  }

  lemma ShareSign(amount: real, w: real, total: real)
    requires total > 0.0 && amount >= 0.0 && w >= 0.0
    ensures Share(amount, w, total) >= 0.0 && (amount > 0.0 && w > 0.0 ==> Share(amount, w, total) > 0.0)
  {
    assert amount * w >= 0.0;
    assert amount > 0.0 && w > 0.0 ==> amount * w > 0.0;
  }

  /** The exact shares add up to the amount. */
  lemma {:induction false} SharesAddUp(keys: seq<Key>, w: map<Key, real>, exact: map<Key, real>, amount: real, total: real)
    requires total > 0.0 && forall i :: 0 <= i < |keys| ==> keys[i] in w && keys[i] in exact
    requires forall i :: 0 <= i < |keys| ==> exact[keys[i]] == Share(amount, w[keys[i]], total)
    ensures SumReal(keys, exact) == Share(amount, SumReal(keys, w), total)
  {
    hide Share;
    if keys == [] {
      ShareAdds(amount, 0.0, 0.0, total);
    } else {
      var init, last := keys[..|keys| - 1], keys[|keys| - 1];
      SharesAddUp(init, w, exact, amount, total);
      ShareAdds(amount, SumReal(init, w), w[last], total);
    }
  }

  /** Rounding down loses less than one per key. */
  lemma {:induction false} FloorsAddUp(keys: seq<Key>, exact: map<Key, real>, counts: map<Key, int>)
    requires forall i :: 0 <= i < |keys| ==> keys[i] in exact && keys[i] in counts && counts[keys[i]] == exact[keys[i]].Floor
    ensures Sum(keys, counts) as real <= SumReal(keys, exact)
    ensures keys != [] ==> SumReal(keys, exact) < (Sum(keys, counts) + |keys|) as real
  {
    if keys != [] {
      FloorsAddUp(keys[..|keys| - 1], exact, counts);
    }
  }

  lemma {:induction false} SumUpdate(keys: seq<Key>, m: map<Key, int>, k: Key, v: int)
    requires Distinct(keys) && (forall i :: 0 <= i < |keys| ==> keys[i] in m) && k in m
    ensures Sum(keys, m[k := v]) == Sum(keys, m) + if k in keys then v - m[k] else 0
  {
    if keys != [] {
      var init, last := keys[..|keys| - 1], keys[|keys| - 1];
      assert keys == init + [last];
      SumUpdate(init, m, k, v);
    }
  }

  /** exact[k] - int(exact[k]). */
  function Fraction(exact: map<Key, real>, k: Key): real {
    if k in exact then exact[k] - exact[k].Floor as real else 0.0
  }

  /** Larger fractions first, later names first among equals. */
  function ByFraction(exact: map<Key, real>): (Key, Key) -> bool {
    (x: Key, y: Key) => Fraction(exact, x) > Fraction(exact, y) || (Fraction(exact, x) == Fraction(exact, y) && x > y)
  }

  /** What largest remainders give: every key its exact share rounded down or up, the sum exact, and no key
      less than one with a smaller share. */
  ghost predicate Apportioned(keys: seq<Key>, exact: map<Key, real>, counts: map<Key, int>, reserved: int) {
    && (forall k :: k in keys ==> k in exact && k in counts)
    && Sum(keys, counts) == reserved
    && (forall k :: k in keys ==> exact[k].Floor <= counts[k] <= exact[k].Floor + 1 && counts[k] as real - exact[k] < 1.0)
    && (forall k, j :: k in keys && j in keys && exact[k] > exact[j] ==> counts[k] >= counts[j])
  }

  method Apportion(keys: seq<Key>, exact: map<Key, real>, reserved: nat) returns (counts: map<Key, int>)
    requires Distinct(keys) && (forall k :: k in exact <==> k in keys)
    requires SumReal(keys, exact) == reserved as real
    ensures counts.Keys == exact.Keys && Apportioned(keys, exact, counts, reserved)
  {
    var floors := map k | k in exact :: exact[k].Floor;
    FloorsAddUp(keys, exact, floors);
    var remainder := reserved - Sum(keys, floors);
    var order := Sort(keys, ByFraction(exact));
    FractionOrder(keys, exact);
    SortDistinct(keys, ByFraction(exact));
    SortOrders(keys, ByFraction(exact));
    FractionsLast(keys, exact, floors, order, remainder);
    hide Sort, ByFraction, Sum, SumReal;
    counts := AddOnes(keys, floors, order, remainder);
    LargerGetsMore(keys, exact, counts, order, remainder);
    ApportionedAll(keys, exact, counts, order, remainder, reserved);
  }

  /** The last loop: one more for the first keys of the order. */
  method AddOnes(keys: seq<Key>, floors: map<Key, int>, order: seq<Key>, remainder: nat) returns (counts: map<Key, int>)
    requires Distinct(keys) && Distinct(order) && remainder <= |order|
    requires forall k :: (k in floors <==> k in keys) && (k in keys <==> k in order)
    ensures counts.Keys == floors.Keys && Sum(keys, counts) == Sum(keys, floors) + remainder
    ensures forall j :: 0 <= j < |order| ==> counts[order[j]] == floors[order[j]] + if j < remainder then 1 else 0
  {
    counts := floors;
    for i := 0 to remainder
      invariant counts.Keys == floors.Keys && Sum(keys, counts) == Sum(keys, floors) + i
      invariant forall j :: 0 <= j < |order| ==> counts[order[j]] == floors[order[j]] + if j < i then 1 else 0
    {
      SumUpdate(keys, counts, order[i], counts[order[i]] + 1);
      counts := counts[order[i] := counts[order[i]] + 1];
    }
  }

  lemma FractionOrder(keys: seq<Key>, exact: map<Key, real>)
    ensures Comparison(keys, ByFraction(exact))
  {
  }

  lemma LargerGetsMore(keys: seq<Key>, exact: map<Key, real>, counts: map<Key, int>, order: seq<Key>, remainder: int)
    requires Ordered(order, ByFraction(exact)) && forall k :: k in keys <==> k in order
    requires (forall k :: k in exact <==> k in keys) && counts.Keys == exact.Keys
    requires forall j :: 0 <= j < |order| ==> counts[order[j]] == exact[order[j]].Floor + if j < remainder then 1 else 0
    ensures forall k, j :: k in keys && j in keys && exact[k] > exact[j] ==> counts[k] >= counts[j]
  {
    forall k, j | k in keys && j in keys && exact[k] > exact[j]
      ensures counts[k] >= counts[j]
    {
      var a :| 0 <= a < |order| && order[a] == k;
      var b :| 0 <= b < |order| && order[b] == j;
      if exact[k].Floor == exact[j].Floor {
        assert ByFraction(exact)(k, j);
      }
    }
  }

  lemma ApportionedAll(keys: seq<Key>, exact: map<Key, real>, counts: map<Key, int>, order: seq<Key>, remainder: int, reserved: int)
    requires (forall k :: (k in exact <==> k in keys) && (k in keys <==> k in order)) && counts.Keys == exact.Keys
    requires Sum(keys, counts) == reserved
    requires forall j :: 0 <= j < |order| ==> counts[order[j]] == exact[order[j]].Floor + if j < remainder then 1 else 0
    requires forall j :: 0 <= j < |order| && j < remainder ==> Fraction(exact, order[j]) > 0.0
    requires forall k, j :: k in keys && j in keys && exact[k] > exact[j] ==> counts[k] >= counts[j]
    ensures Apportioned(keys, exact, counts, reserved)
  {
    forall k | k in keys
      ensures exact[k].Floor <= counts[k] <= exact[k].Floor + 1 && counts[k] as real - exact[k] < 1.0
    {
      var a :| 0 <= a < |order| && order[a] == k;
    }
  }

  lemma {:induction false} SumRemove(s: seq<Key>, i: nat, m: map<Key, int>, r: map<Key, real>)
    requires i < |s| && forall k :: k in s ==> k in m && k in r
    ensures Sum(s, m) == Sum(s[..i] + s[i + 1..], m) + m[s[i]]
    ensures SumReal(s, r) == SumReal(s[..i] + s[i + 1..], r) + r[s[i]]
  {
    var init, last := s[..|s| - 1], s[|s| - 1];
    assert s == init + [last];
    if i == |s| - 1 {
      assert s[..i] + s[i + 1..] == init;
    } else {
      SumRemove(init, i, m, r);
      var rest := s[..i] + s[i + 1..];
      assert rest[..|rest| - 1] == init[..i] + init[i + 1..] && rest[|rest| - 1] == last;
    }
  }

  /** A sum does not depend on the order. */
  lemma {:induction false} SumPermutes(s: seq<Key>, t: seq<Key>, m: map<Key, int>, r: map<Key, real>)
    requires multiset(s) == multiset(t) && (forall k :: k in s ==> k in m && k in r) && forall k :: k in t ==> k in m && k in r
    ensures Sum(s, m) == Sum(t, m) && SumReal(s, r) == SumReal(t, r)
    decreases |s|
  {
    if s == [] {
      assert |multiset(t)| == 0;
    } else {
      hide Sum, SumReal;
      var i := LastAlsoIn(s, t);
      SumRemove(t, i, m, r);
      SumRemove(s, |s| - 1, m, r);
      assert s[..|s| - 1] + s[|s|..] == s[..|s| - 1];
      SumPermutes(s[..|s| - 1], t[..i] + t[i + 1..], m, r);
    }
  }

  lemma Find(t: seq<Key>, k: Key) returns (i: nat)
    requires k in multiset(t)
    ensures i < |t| && t[i] == k
  {
    i :| 0 <= i < |t| && t[i] == k;
  }

  lemma LastAlsoIn(s: seq<Key>, t: seq<Key>) returns (i: nat)
    requires multiset(s) == multiset(t) && s != []
    ensures i < |t| && t[i] == s[|s| - 1] && multiset(s[..|s| - 1]) == multiset(t[..i] + t[i + 1..])
    ensures forall k :: k in t[..i] + t[i + 1..] ==> k in t
  {
    var last := s[|s| - 1];
    RemoveAt(s, |s| - 1);
    assert s[..|s| - 1] + s[|s| - 1 + 1..] == s[..|s| - 1];
    i := Find(t, last);
    RemoveAt(t, i);
  }

  /** The keys that get one more all have a share that is not whole. */
  lemma FractionsLast(keys: seq<Key>, exact: map<Key, real>, floors: map<Key, int>, order: seq<Key>, remainder: int)
    requires order == Sort(keys, ByFraction(exact)) && Ordered(order, ByFraction(exact)) && |order| == |keys|
    requires (forall k :: (k in exact <==> k in keys) && (k in keys <==> k in order)) && floors.Keys == exact.Keys
    requires forall k :: k in exact ==> floors[k] == exact[k].Floor
    requires SumReal(keys, exact) - Sum(keys, floors) as real == remainder as real
    ensures 0 <= remainder <= |order|
    ensures forall j :: 0 <= j < |order| && j < remainder ==> Fraction(exact, order[j]) > 0.0
  {
    FloorsAddUp(keys, exact, floors);
    SortPermutes(keys, ByFraction(exact));
    SumPermutes(order, keys, floors, exact);
    hide Sort, ByFraction, Sum, SumReal, Ordered;
    forall j | 0 <= j < |order| && j < remainder
      ensures Fraction(exact, order[j]) > 0.0
    {
      if Fraction(exact, order[j]) <= 0.0 {
        ZerosAfter(order, exact, j);
        FewFractions(order, exact, floors, j, |order|);
      }
    }
  }

  lemma ZerosAfter(order: seq<Key>, exact: map<Key, real>, j: nat)
    requires Ordered(order, ByFraction(exact)) && j < |order| && Fraction(exact, order[j]) <= 0.0
    ensures forall i :: j <= i < |order| ==> Fraction(exact, order[i]) == 0.0
  {
    forall i | j <= i < |order|
      ensures Fraction(exact, order[i]) == 0.0
    {
      assert i > j ==> !ByFraction(exact)(order[i], order[j]);
    }
  }

  /** If the fractions are 0 from position j on, they add up to at most j. */
  lemma {:induction false} FewFractions(order: seq<Key>, exact: map<Key, real>, floors: map<Key, int>, j: nat, n: nat)
    requires n <= |order| && floors.Keys == exact.Keys && forall k :: k in order ==> k in exact && floors[k] == exact[k].Floor
    requires forall i :: j <= i < |order| ==> Fraction(exact, order[i]) == 0.0
    ensures SumReal(order[..n], exact) - Sum(order[..n], floors) as real <= (if n < j then n else j) as real
    ensures order[..|order|] == order
  {
    if n > 0 {
      FewFractions(order, exact, floors, j, n - 1);
      assert order[..n][..n - 1] == order[..n - 1];
    }
  }

  function At(m: map<Key, real>, k: Key): real {
    if k in m then m[k] else 0.0
  }

  /** Higher score first, then higher importance, then later name. */
  function ByScore(scores: map<Key, real>, importance: map<Key, real>): (Key, Key) -> bool {
    (x: Key, y: Key) =>
      || At(scores, x) > At(scores, y)
      || (At(scores, x) == At(scores, y) && At(importance, x) > At(importance, y))
      || (At(scores, x) == At(scores, y) && At(importance, x) == At(importance, y) && x > y)
  }

  lemma ScoreOrder(keys: seq<Key>, scores: map<Key, real>, importance: map<Key, real>)
    ensures Comparison(keys, ByScore(scores, importance))
    ensures forall x: Key, y: Key :: x != y ==> ByScore(scores, importance)(x, y) || ByScore(scores, importance)(y, x)
  {
  }

  function Weight(score: real, scoreSum: real, used: real, usedSum: real): (w: real)
    requires scoreSum > 0.0
    ensures w >= 0.000001
  {
    var scoreShare := score / scoreSum;
    var memoryShare := if usedSum != 0.0 then used / usedSum else 0.0;
    Max(Max(scoreShare, (memoryShare + scoreShare) / 2.0), 0.000001)
  }

  /** More score and no less memory weigh no less; more, unless both are at the floor. */
  lemma WeightGrows(score: real, score': real, scoreSum: real, used: real, used': real, usedSum: real)
    requires scoreSum > 0.0 && usedSum >= 0.0 && score < score' && used <= used'
    ensures Weight(score, scoreSum, used, usedSum) <= Weight(score', scoreSum, used', usedSum)
    ensures Weight(score', scoreSum, used', usedSum) > 0.000001 ==>
            Weight(score, scoreSum, used, usedSum) < Weight(score', scoreSum, used', usedSum)
  {
    QuotientGrows(score, score', scoreSum);
    if usedSum > 0.0 {
      QuotientGrows(used, used', usedSum);
    }
  }

  lemma QuotientGrows(a: real, b: real, d: real)
    requires d > 0.0 && a <= b
    ensures a / d <= b / d && (a < b ==> a / d < b / d)
  {
    var t := 1.0 / d;
    assert b / d - a / d == (b - a) * t;
    assert a < b ==> (b - a) * t > 0.0;
  }

  datatype Plan = Plan(critical: seq<Key>, reserved: map<Key, int>, shared: int)

  /** What the plan is made from. */
  /** m is n * ratio rounded down. */
  ghost predicate IsPart(m: int, n: nat, ratio: real) {
    m as real <= n as real * ratio < m as real + 1.0
  }

  /** int(n * ratio). */
  function PartOf(n: nat, ratio: real): (m: nat)
    requires 0.0 <= ratio <= 1.0
    ensures m <= n && IsPart(m, n, ratio)
  {
    Portion(n as real, ratio);
    var x := n as real * ratio;
    x.Floor
  }

  lemma Portion(n: real, ratio: real)
    requires 0.0 <= ratio <= 1.0 && n >= 0.0
    ensures 0.0 <= n * ratio <= n
  {
    assert n * ratio + n * (1.0 - ratio) == n;
  }

  datatype Demand = Demand(keys: seq<Key>, scores: map<Key, real>, importance: map<Key, real>, used: map<Key, real>, total: nat,
                           reserveRatio: real, criticalRatio: real) {
    ghost predicate Valid() {
      && Distinct(keys) && (forall k :: k in keys <==> k in scores) && (forall k :: k in keys <==> k in used)
      && (forall k :: k in scores ==> scores[k] > 0.0) && (forall k :: k in used ==> used[k] >= 0.0)
      && 0.0 <= reserveRatio <= 1.0 && 0.0 < criticalRatio <= 1.0
    }

    /** max(1, int(len(ordered) * critical_ratio)), as far as there are that many. */
    function CriticalCount(): (n: nat)
      requires 0.0 < criticalRatio <= 1.0
      ensures n <= |keys| && (n == 0 <==> keys == [])
      ensures keys != [] ==> IsPart(n, |keys|, criticalRatio) || (n == 1 && IsPart(0, |keys|, criticalRatio))
    {
      var n := PartOf(|keys|, criticalRatio);
      if keys == [] then 0 else if n < 1 then 1 else n
    }

    /** int(total * reserve_ratio). */
    function ReservedCount(): (n: nat)
      requires 0.0 <= reserveRatio <= 1.0
      ensures n <= total && IsPart(n, total, reserveRatio)
    {
      PartOf(total, reserveRatio)
    }

    function WeightOf(critical: seq<Key>, k: Key): real
      requires Valid() && critical != [] && forall i :: 0 <= i < |critical| ==> critical[i] in scores
    {
      PositiveSum(critical, scores);
      Weight(At(scores, k), SumReal(critical, scores), At(used, k), SumReal(keys, used))
    }

    function Weights(critical: seq<Key>): (w: map<Key, real>)
      requires Valid() && critical != [] && forall i :: 0 <= i < |critical| ==> critical[i] in scores
      ensures (forall k :: k in w <==> k in critical) && SumReal(critical, w) > 0.0
    {
      var w := map k | k in critical :: WeightOf(critical, k);
      PositiveSum(critical, w);
      w
    }

    /** The share of the reserved blocks that a critical type is owed. */
    function Owed(critical: seq<Key>, reserved: nat, k: Key): real
      requires Valid() && critical != [] && (forall i :: 0 <= i < |critical| ==> critical[i] in scores) && k in critical
    {
      Share(reserved as real, Weights(critical)[k], SumReal(critical, Weights(critical)))
    }
  }

  lemma {:induction false} PositiveSum(keys: seq<Key>, m: map<Key, real>)
    requires forall i :: 0 <= i < |keys| ==> keys[i] in m && m[keys[i]] > 0.0
    ensures SumReal(keys, m) >= 0.0 && (keys != [] ==> SumReal(keys, m) > 0.0)
  {
    if keys != [] {
      PositiveSum(keys[..|keys| - 1], m);
    }
  }

  /** partition_capacity. */
  method PartitionCapacity(d: Demand) returns (plan: Plan)
    requires d.Valid()
    ensures |plan.critical| == d.CriticalCount() && Distinct(plan.critical) && forall k :: k in plan.critical ==> k in d.keys
    // the critical types are the highest ranked
    ensures forall k, j :: k in plan.critical && j in d.keys && j !in plan.critical ==>
              || d.scores[k] > d.scores[j]
              || (d.scores[k] == d.scores[j] && At(d.importance, k) > At(d.importance, j))
              || (d.scores[k] == d.scores[j] && At(d.importance, k) == At(d.importance, j) && k > j)
    // as many as the ratio says, but one at least
    ensures d.keys != [] ==>
              IsPart(|plan.critical|, |d.keys|, d.criticalRatio) || (|plan.critical| == 1 && IsPart(0, |d.keys|, d.criticalRatio))
    // nothing is lost or made up
    ensures (forall k :: k in plan.reserved <==> k in plan.critical) && Sum(plan.critical, plan.reserved) + plan.shared == d.total
    ensures plan.shared == d.total - if plan.critical == [] then 0 else d.ReservedCount()
    ensures plan.critical != [] ==> IsPart(d.total - plan.shared, d.total, d.reserveRatio)
    // more weight never gets less
    ensures forall k, j :: k in plan.critical && j in plan.critical && d.Weights(plan.critical)[k] > d.Weights(plan.critical)[j] ==>
              plan.reserved[k] >= plan.reserved[j]
    // everyone gets what they are owed, to less than one block
    ensures forall k :: k in plan.critical ==>
              plan.reserved[k] >= 0 && -1.0 < plan.reserved[k] as real - d.Owed(plan.critical, d.ReservedCount(), k) < 1.0
  {
    hide IsPart, ByScore, Sum, SumReal, Demand.CriticalCount, Demand.ReservedCount, Demand.Weights, Demand.Owed;
    var critical := Critical(d);
    RankMeans(d, critical);
    var reserved := if critical == [] then 0 else d.ReservedCount();
    var counts: map<Key, int> := map[];
    if critical != [] {
      counts := Divide(d, critical, reserved);
    } else {
      NoSum(counts);
    }
    plan := Plan(critical, counts, d.total - reserved);
  }

  lemma NoSum(counts: map<Key, int>)
    ensures Sum([], counts) == 0
  {
  }

  /** set(ordered[: max(1, int(len(ordered) * critical_ratio))]). */
  method Critical(d: Demand) returns (critical: seq<Key>)
    requires d.Valid()
    ensures |critical| == d.CriticalCount() && Distinct(critical) && forall k :: k in critical ==> k in d.keys
    ensures forall k, j :: k in critical && j in d.keys && j !in critical ==> ByScore(d.scores, d.importance)(k, j)
  {
    var ordered := Sort(d.keys, ByScore(d.scores, d.importance));
    ScoreOrder(d.keys, d.scores, d.importance);
    SortDistinct(d.keys, ByScore(d.scores, d.importance));
    SortOrders(d.keys, ByScore(d.scores, d.importance));
    hide Sort, ByScore, Demand.CriticalCount, Ordered;
    critical := ordered[..d.CriticalCount()];
    TopRanked(d, ordered, critical);
  }

  lemma TopRanked(d: Demand, ordered: seq<Key>, critical: seq<Key>)
    requires Distinct(ordered) && Ordered(ordered, ByScore(d.scores, d.importance)) && forall k :: k in ordered <==> k in d.keys
    requires critical <= ordered
    ensures forall k, j :: k in critical && j in d.keys && j !in critical ==> ByScore(d.scores, d.importance)(k, j)
  {
    var before := ByScore(d.scores, d.importance);
    ScoreOrder(d.keys, d.scores, d.importance);
    forall k, j | k in critical && j in d.keys && j !in critical
      ensures before(k, j)
    {
      var a :| 0 <= a < |critical| && critical[a] == k;
      var b :| 0 <= b < |ordered| && ordered[b] == j;
      assert b >= |critical| && !before(ordered[b], ordered[a]);
    }
  }

  /** The weights of the critical types and their shares of the reserved blocks. */
  method Divide(d: Demand, critical: seq<Key>, reserved: nat) returns (counts: map<Key, int>)
    requires d.Valid() && critical != [] && Distinct(critical) && forall k :: k in critical ==> k in d.keys
    ensures (forall k :: k in counts <==> k in critical) && Sum(critical, counts) == reserved
    ensures forall k :: k in critical ==> counts[k] >= 0 && -1.0 < counts[k] as real - d.Owed(critical, reserved, k) < 1.0
    ensures forall k, j :: k in critical && j in critical && d.Weights(critical)[k] > d.Weights(critical)[j] ==> counts[k] >= counts[j]
  {
    var weights := d.Weights(critical);
    var weightSum := SumReal(critical, weights);
    var exact := map k | k in critical :: d.Owed(critical, reserved, k);
    SharesAddUp(critical, weights, exact, reserved as real, weightSum);
    ShareAdds(reserved as real, 0.0, 0.0, weightSum);
    counts := Apportion(critical, exact, reserved);
    hide SumReal, Sum, Demand.Weights, Apportioned;
    WeightsPositive(d, critical);
    MoreWeightMore(critical, weights, exact, counts, reserved, weightSum);
  }

  lemma WeightsPositive(d: Demand, critical: seq<Key>)
    requires d.Valid() && critical != [] && forall i :: 0 <= i < |critical| ==> critical[i] in d.scores
    ensures forall k :: k in critical ==> d.Weights(critical)[k] > 0.0
  {
  }

  lemma MoreWeightMore(critical: seq<Key>, weights: map<Key, real>, exact: map<Key, real>, counts: map<Key, int>, reserved: nat, weightSum: real)
    requires weightSum > 0.0 && Apportioned(critical, exact, counts, reserved)
    requires forall k :: k in critical ==> k in weights && weights[k] > 0.0 && exact[k] == Share(reserved as real, weights[k], weightSum)
    ensures forall k, j :: k in critical && j in critical && weights[k] > weights[j] ==> counts[k] >= counts[j]
    ensures forall k :: k in critical ==> counts[k] >= 0 && -1.0 < counts[k] as real - exact[k] < 1.0
  {
    hide Share, Sum;
    forall k | k in critical
      ensures counts[k] >= 0 && -1.0 < counts[k] as real - exact[k] < 1.0
    {
      ShareSign(reserved as real, weights[k], weightSum);
    }
    forall k, j | k in critical && j in critical && weights[k] > weights[j]
      ensures counts[k] >= counts[j]
    {
      ShareGrows(reserved as real, weights[j], weights[k], weightSum);
      if reserved == 0 {
        ShareOfNone(weights[k], weightSum);
        ShareOfNone(weights[j], weightSum);
      }
    }
  }

  lemma RankMeans(d: Demand, critical: seq<Key>)
    requires d.Valid() && forall k :: k in critical ==> k in d.keys
    requires forall k, j :: k in critical && j in d.keys && j !in critical ==> ByScore(d.scores, d.importance)(k, j)
    ensures forall k, j :: k in critical && j in d.keys && j !in critical ==>
              || d.scores[k] > d.scores[j]
              || (d.scores[k] == d.scores[j] && At(d.importance, k) > At(d.importance, j))
              || (d.scores[k] == d.scores[j] && At(d.importance, k) == At(d.importance, j) && k > j)
  {
  }

  /** The weight of a type is the largest of its share of the scores, the mean of that and its share of the
      memory, and the floor; shares being given as quotients. */
  lemma WeightIsLargest(score: real, scoreSum: real, used: real, usedSum: real, scoreShare: real, memoryShare: real)
    requires scoreSum > 0.0 && usedSum >= 0.0 && scoreShare * scoreSum == score
    requires if usedSum == 0.0 then memoryShare == 0.0 else memoryShare * usedSum == used
    ensures var w := Weight(score, scoreSum, used, usedSum);
            && w >= scoreShare && 2.0 * w >= scoreShare + memoryShare && w >= 0.000001
            && (w == scoreShare || 2.0 * w == scoreShare + memoryShare || w == 0.000001)
  {
    QuotientIs(score, scoreSum, scoreShare);
    if usedSum > 0.0 {
      QuotientIs(used, usedSum, memoryShare);
    }
  }

  lemma QuotientIs(a: real, d: real, q: real)
    requires d > 0.0 && q * d == a
    ensures a / d == q
  {
  }

  /** What the critical types are owed is in proportion to their weights and adds up to what is reserved. */
  lemma OwedIsProportional(d: Demand, critical: seq<Key>, reserved: nat, exact: map<Key, real>)
    requires d.Valid() && critical != [] && Distinct(critical) && forall k :: k in critical ==> k in d.keys
    requires (forall k :: k in exact <==> k in critical) && forall k :: k in critical ==> exact[k] == d.Owed(critical, reserved, k)
    ensures SumReal(critical, exact) == reserved as real
    ensures forall k, j :: k in critical && j in critical ==>
              Balanced(exact[k], d.Weights(critical)[j], exact[j], d.Weights(critical)[k])
  {
    var weights := d.Weights(critical);
    var weightSum := SumReal(critical, weights);
    SharesAddUp(critical, weights, exact, reserved as real, weightSum);
    ShareAdds(reserved as real, 0.0, 0.0, weightSum);
    forall k, j | k in critical && j in critical
      ensures Balanced(exact[k], weights[j], exact[j], weights[k])
    {
      SharesBalance(reserved as real, weights[k], weights[j], weightSum);
    }
  }

  /** a : d as c : b, said without division. */
  ghost predicate Balanced(a: real, b: real, c: real, d: real) {
    a * b == c * d
  }

  lemma SharesBalance(amount: real, w: real, w': real, total: real)
    requires total > 0.0
    ensures Balanced(Share(amount, w, total), w', Share(amount, w', total), w)
  {
    ShareTimes(amount, w, total);
    ShareTimes(amount, w', total);
    var a, b := Share(amount, w, total), Share(amount, w', total);
    assert (a * w' - b * w) * total == (a * total) * w' - (b * total) * w;
    assert (a * w' - b * w) * total == 0.0;
  }

  lemma ShareTimes(amount: real, w: real, total: real)
    requires total > 0.0
    ensures Share(amount, w, total) * total == amount * w
  {
  }
}
