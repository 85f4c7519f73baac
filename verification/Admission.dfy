/** How the TokenCake scheduler charges KV blocks to shared and reserved capacity
    (vllm/tokencake/scheduling.py: _update_available, _consumption, commit, release). */
module Admission {
  import opened Options
  import opened Sorting
  import opened Capacity

  datatype Owner = Shared | Of(key: Key)

  function Min(x: int, y: int): int {
    if x < y then x else y
  }

  function Positive(x: int): nat {
    if x < 0 then 0 else x
  }

  /** Lower score first. */
  function ByPlanScore(scores: map<Key, real>): (Key, Key) -> bool {
    (x: Key, y: Key) => At(scores, x) < At(scores, y)
  }

  /** What one pass of reductions leaves: keys in the order given up the excess, the first ones first. */
  ghost predicate Reduced(order: seq<Key>, before: map<Key, int>, after: map<Key, int>, given: int) {
    && (forall k :: k in order ==> k in before && k in after && 0 <= after[k] <= before[k])
    && Sum(order, after) == Sum(order, before) - given
    && (forall i, j :: 0 <= i < j < |order| && after[order[j]] < before[order[j]] ==> after[order[i]] == 0)
  }

  /** The loop over the reservations in _update_available. */
  method Reduce(order: seq<Key>, before: map<Key, int>, excess: nat) returns (after: map<Key, int>, left: nat)
    requires Distinct(order) && (forall k :: k in order <==> k in before) && forall k :: k in before ==> before[k] >= 0
    ensures after.Keys == before.Keys && Reduced(order, before, after, excess - left)
    ensures left == Positive(excess - Sum(order, before))
  {
    hide Sum;
    after, left := before, excess;
    for i := 0 to |order|
      invariant after.Keys == before.Keys && left <= excess
      invariant Sum(order, after) == Sum(order, before) - (excess - left)
      invariant forall k :: k in before ==> 0 <= after[k] <= before[k]
      invariant forall j :: i <= j < |order| ==> after[order[j]] == before[order[j]]
      invariant left > 0 ==> forall j :: 0 <= j < i ==> after[order[j]] == 0
      invariant forall a, b :: 0 <= a < b < |order| && after[order[b]] < before[order[b]] ==> after[order[a]] == 0
    {
      var k := order[i];
      var reduction := Min(left, after[k]);
      SumUpdate(order, after, k, after[k] - reduction);
      after, left := after[k := after[k] - reduction], left - reduction;
    }
    if left > 0 {
      SumZero(order, after);
    } else {
      SumNonnegative(order, after);
    }
  }

  lemma {:induction false} SumZero(keys: seq<Key>, m: map<Key, int>)
    requires forall i :: 0 <= i < |keys| ==> keys[i] in m && m[keys[i]] == 0
    ensures Sum(keys, m) == 0
  {
    if keys != [] {
      SumZero(keys[..|keys| - 1], m);
    }
  }

  lemma {:induction false} SumNonnegative(keys: seq<Key>, m: map<Key, int>)
    requires forall i :: 0 <= i < |keys| ==> keys[i] in m && m[keys[i]] >= 0
    ensures Sum(keys, m) >= 0
  {
    if keys != [] {
      SumNonnegative(keys[..|keys| - 1], m);
    }
  }

  lemma SumSorts(s: seq<Key>, before: (Key, Key) -> bool, m: map<Key, int>)
    requires forall k :: k in s ==> k in m
    ensures (forall k :: k in Sort(s, before) ==> k in m) && Sum(Sort(s, before), m) == Sum(s, m)
  {
    SortPermutes(s, before);
    forall k | k in Sort(s, before)
      ensures k in m
    {
      assert k in multiset(Sort(s, before));
    }
    SumPermutes(Sort(s, before), s, m, map k | k in m :: 0.0);
  }

  function Counted(used: map<Owner, nat>, o: Owner): nat {
    if o in used then used[o] else 0
  }

  function Charged(charges: map<nat, Owner>, o: Owner): set<nat> {
    set b | b in charges && charges[b] == o
  }

  function Count(charges: map<nat, Owner>, o: Owner): nat {
    |Charged(charges, o)|
  }

  /** One block more. */
  lemma CountAdd(charges: map<nat, Owner>, b: nat, owner: Owner, o: Owner)
    requires b !in charges
    ensures Count(charges[b := owner], o) == Count(charges, o) + if o == owner then 1 else 0
  {
    var next := charges[b := owner];
    var was, now := Charged(charges, o), Charged(next, o);
    assert b !in was;
    forall x
      ensures x in now <==> x in was || (x == b && o == owner)
    {
    }
    hide Charged;
    if o == owner {
      assert now == was + {b};
    } else {
      assert now == was;
    }
  }

  function Total(usage: seq<(Owner, int)>): int {
    if usage == [] then 0 else Total(usage[..|usage| - 1]) + usage[|usage| - 1].1
  }

  function PaidTo(usage: seq<(Owner, int)>, o: Owner): int {
    if usage == [] then 0
    else PaidTo(usage[..|usage| - 1], o) + if usage[|usage| - 1].0 == o then usage[|usage| - 1].1 else 0
  }

  /** A request as the admission rules see it: whether it carries TokenCake metadata, its agent type and score. */
  datatype Requester = Requester(annotated: bool, agent: Option<Key>, score: Option<int>, borrow: bool)

  class Controller {
    const margin: nat
    var plan: Plan
    var planScores: map<Key, real>
    /** One charge per occupied block, and how many there are for each owner. */
    var charges: map<nat, Owner>
    var used: map<Owner, nat>
    var sharedAvailable: int
    var reservedAvailable: map<Key, int>
    var waitingCritical: set<Key>
    var waitingScores: map<Key, int>

    ghost predicate Planned()
      reads this`plan
    {
      Distinct(plan.critical) && (forall k :: k in plan.critical <==> k in plan.reserved)
    }

    /** The counters are those of the charges. */
    ghost predicate Exact()
      reads this`charges, this`used
    {
      forall o :: Counted(used, o) == Count(charges, o)
    }

    ghost predicate Available()
      reads this`plan, this`sharedAvailable, this`reservedAvailable
    {
      sharedAvailable >= 0 && reservedAvailable.Keys == plan.reserved.Keys && forall k :: k in reservedAvailable ==> reservedAvailable[k] >= 0
    }

    /** What is left of the plan before free memory is looked at. */
    function Unused(): (m: map<Key, int>)
      reads this`plan, this`used
      ensures m.Keys == plan.reserved.Keys && forall k :: k in m ==> m[k] >= 0
    {
      map k | k in plan.reserved :: Positive(plan.reserved[k] - Counted(used, Of(k)))
    }

    function UnusedShared(): nat
      reads this`plan, this`used
    {
      Positive(plan.shared - Counted(used, Shared))
    }

    /** _update_available: as much of the plan as memory is left for.  Shared capacity gives way first, then
        the reservations of the lower scores. */
    method UpdateAvailable(uncommitted: int)
      requires Planned()
      modifies this`sharedAvailable, this`reservedAvailable
      ensures Current()
      ensures sharedAvailable + Sum(plan.critical, reservedAvailable) ==
              Min(UnusedShared() + Sum(plan.critical, Unused()), Positive(uncommitted))
      ensures forall k :: k in reservedAvailable && reservedAvailable[k] < Unused()[k] ==>
        sharedAvailable == 0 && forall j :: j in reservedAvailable && At(planScores, j) < At(planScores, k) ==> reservedAvailable[j] == 0
    {
      hide Sum, At, Distinct;
      sharedAvailable, reservedAvailable := Limit(plan.critical, planScores, UnusedShared(), Unused(), uncommitted);
    }

    function Lenders(r: Requester): set<Key>
      reads this`reservedAvailable, this`waitingCritical, this`waitingScores
    {
      set k | k in reservedAvailable && Lends(waitingCritical, waitingScores, margin, r, k)
    }

    /** What the request may use of each reservation. */
    function OpenTo(r: Requester): map<Key, int>
      reads this`reservedAvailable, this`waitingCritical, this`waitingScores
    {
      Open(reservedAvailable, r.annotated, r.agent, Lenders(r))
    }

    /** _consumption. */
    method Consumption(r: Requester, demand: nat) returns (usage: Option<seq<(Owner, int)>>)
      requires Planned() && Available()
      ensures usage.Some? <==> demand <= sharedAvailable + Sum(plan.critical, OpenTo(r))
      ensures usage.Some? ==> Pays(sharedAvailable, reservedAvailable, OpenTo(r), usage.value, demand)
      ensures usage.Some? ==> OwnFirst(reservedAvailable, r.agent, usage.value)
      ensures usage.Some? ==> RichestFirst(reservedAvailable, planScores, r.agent, Lenders(r), usage.value)
      // a type with requests waiting lends only to those that outdo it by the margin
      ensures usage.Some? ==> forall i :: 0 <= i < |usage.value| && usage.value[i].0.Of? ==>
        var owner := usage.value[i].0.key;
        r.agent == Some(owner) || r.borrow || owner !in waitingCritical ||
        (margin > 0 && r.score.Some? && owner in waitingScores && waitingScores[owner] + margin <= r.score.value)
    {
      var open := OpenTo(r);
      if !r.annotated {
        SumZero(plan.critical, open);
      } else {
        SumNonnegative(plan.critical, open);
      }
      var shared := Min(demand, sharedAvailable);
      if demand == shared {
        return Some([(Shared, shared)]);
      }
      if !r.annotated {
        return None;
      }
      usage := UseReserved(plan.critical, planScores, sharedAvailable, reservedAvailable, Lenders(r), r.agent, demand);
    }

    /** The inner loop of commit: one owner's part of the new blocks. */
    method ChargeTo(ids: seq<nat>, owner: Owner)
      requires Exact() && Distinct(ids) && forall b :: b in ids ==> b !in charges
      modifies this`charges, this`used
      ensures Exact() && charges.Keys == old(charges.Keys) + (set b | b in ids)
      ensures forall b :: b in old(charges) ==> charges[b] == old(charges)[b]
      ensures forall o :: Counted(used, o) == old(Counted(used, o)) + if o == owner then |ids| else 0
    {
      hide Count;
      for i := 0 to |ids|
        invariant used == old(used) && charges.Keys == old(charges.Keys) + (set b | b in ids[..i])
        invariant forall b :: b in old(charges) ==> charges[b] == old(charges)[b]
        invariant forall o :: Count(charges, o) == old(Count(charges, o)) + if o == owner then i else 0
      {
        forall o
          ensures Count(charges[ids[i] := owner], o) == Count(charges, o) + if o == owner then 1 else 0
        {
          CountAdd(charges, ids[i], owner, o);
        }
        charges := charges[ids[i] := owner];
        assert ids[..i + 1] == ids[..i] + [ids[i]];
      }
      assert ids[..|ids|] == ids;
      used := used[owner := Counted(used, owner) + |ids|];
    }

    /** The loop of commit over the usage. */
    method ChargeAll(ids: seq<nat>, usage: seq<(Owner, int)>)
      requires Exact() && Distinct(ids) && (forall b :: b in ids ==> b !in charges)
      requires Total(usage) == |ids| && forall i :: 0 <= i < |usage| ==> usage[i].1 >= 0
      modifies this`charges, this`used
      ensures Exact() && charges.Keys == old(charges.Keys) + (set b | b in ids)
      ensures forall b :: b in old(charges) ==> charges[b] == old(charges)[b]
      ensures forall o :: Counted(used, o) == old(Counted(used, o)) + PaidTo(usage, o)
    {
      hide Count, Total, PaidTo, Counted, Distinct;
      NothingPaid();
      var offset: nat := 0;
      for j := 0 to |usage|
        invariant offset == Total(usage[..j]) && offset <= |ids|
        invariant Exact() && charges.Keys == old(charges.Keys) + (set b | b in ids[..offset])
        invariant forall b :: b in old(charges) ==> charges[b] == old(charges)[b]
        invariant forall o :: Counted(used, o) == old(Counted(used, o)) + PaidTo(usage[..j], o)
      {
        var owner, count := usage[j].0, usage[j].1;
        TotalNext(usage, j);
        NextIds(ids, offset, count);
        ChargeTo(ids[offset..offset + count], owner);
        offset := offset + count;
      }
      assert usage[..|usage|] == usage && ids[..|ids|] == ids;
    }

    /** The capacity on offer is within the plan. */
    ghost predicate Current()
      reads this`plan, this`used, this`sharedAvailable, this`reservedAvailable
    {
      Available() && sharedAvailable <= UnusedShared() && forall k :: k in reservedAvailable ==> reservedAvailable[k] <= Unused()[k]
    }

    /** commit, as far as capacity goes.  Work that was accepted before and has outgrown its plan is charged
        to shared capacity, so no reservation is overdrawn by a commit. */
    method Commit(r: Requester, ids: seq<nat>, accepted: bool, uncommitted: int) returns (ok: bool, ghost paid: seq<(Owner, int)>)
      requires Planned() && Current() && Exact() && Distinct(ids) && forall b :: b in ids ==> b !in charges
      modifies this`charges, this`used, this`sharedAvailable, this`reservedAvailable
      ensures Exact() && Current()
      ensures ok <==> accepted || |ids| <= old(sharedAvailable) + Sum(plan.critical, old(OpenTo(r)))
      ensures ok ==> charges.Keys == old(charges.Keys) + (set b | b in ids) && forall b :: b in old(charges) ==> charges[b] == old(charges)[b]
      ensures ok ==>
        && (forall o :: Counted(used, o) == old(Counted(used, o)) + PaidTo(paid, o))
        && if |ids| <= old(sharedAvailable) + Sum(plan.critical, old(OpenTo(r)))
           then Pays(old(sharedAvailable), old(reservedAvailable), old(OpenTo(r)), paid, |ids|) else paid == [(Shared, |ids|)]
      ensures !ok ==> charges == old(charges) && used == old(used)
      ensures forall k :: k in plan.reserved && Counted(used, Of(k)) > old(Counted(used, Of(k))) ==> Counted(used, Of(k)) <= plan.reserved[k]
    {
      hide Sum, Total, PaidTo, Count, Counted, Distinct;
      var usage := Consumption(r, |ids|);
      if usage == None && accepted {
        usage := Some([(Shared, |ids|)]);
        TotalOne(Shared, |ids|);
      }
      if usage == None {
        return false, [];
      }
      paid := usage.value;
      WithinPlan(plan.reserved, old(used), reservedAvailable, usage.value);
      ChargeAll(ids, usage.value);
      UpdateAvailable(uncommitted);
      ok := true;
    }

    /** release: blocks that nobody refers to any more lose their charge. */
    method Release(referenced: set<nat>, uncommitted: int)
      requires Planned()
      modifies this`charges, this`used, this`sharedAvailable, this`reservedAvailable
      ensures Exact() && Current()
      ensures charges == map b | b in old(charges) && b in referenced :: old(charges)[b]
      ensures forall o :: Counted(used, o) <= Count(old(charges), o)
    {
      hide Sum, Distinct;
      charges := map b | b in charges && b in referenced :: charges[b];
      used := Recount(charges);
      UpdateAvailable(uncommitted);
      forall o
        ensures Count(charges, o) <= Count(old(charges), o)
      {
        FewerCharged(charges, old(charges), o);
      }
    }
  }

  lemma FewerCharged(charges: map<nat, Owner>, before: map<nat, Owner>, o: Owner)
    requires forall b :: b in charges ==> b in before && charges[b] == before[b]
    ensures Count(charges, o) <= Count(before, o)
  {
    var fewer, more := Charged(charges, o), Charged(before, o);
    assert more == fewer + (more - fewer);
  }

  /** Counter(charges.values()). */
  method Recount(charges: map<nat, Owner>) returns (used: map<Owner, nat>)
    ensures forall o :: Counted(used, o) == Count(charges, o)
  {
    used := map[];
    ghost var done: map<nat, Owner> := map[];
    var todo := charges.Keys;
    NothingCharged();
    hide Count;
    while todo != {}
      invariant todo <= charges.Keys && done.Keys == charges.Keys - todo && forall b :: b in done ==> done[b] == charges[b]
      invariant forall o :: Counted(used, o) == Count(done, o)
    {
      var b :| b in todo;
      var owner := charges[b];
      ghost var next := done[b := owner];
      used := used[owner := Counted(used, owner) + 1];
      forall o
        ensures Counted(used, o) == Count(next, o)
      {
        CountAdd(done, b, owner, o);
      }
      done, todo := next, todo - {b};
      assert done.Keys == charges.Keys - todo;
    }
    assert done == charges;
  }

  lemma NothingCharged()
    ensures forall o :: Count(map[], o) == 0
  {
    forall o
      ensures Count(map[], o) == 0
    {
      assert Charged(map[], o) == {};
    }
  }

  lemma WithinPlan(reserved: map<Key, int>, used: map<Owner, nat>, avail: map<Key, int>, usage: seq<(Owner, int)>)
    requires avail.Keys == reserved.Keys && forall k :: k in avail ==> avail[k] <= Positive(reserved[k] - Counted(used, Of(k)))
    requires forall i, j :: 0 <= i < j < |usage| ==> usage[i].0 != usage[j].0
    requires forall i :: 0 <= i < |usage| && usage[i].0.Of? && usage[i].0.key in avail ==> usage[i].1 <= avail[usage[i].0.key]
    ensures forall k :: k in reserved && PaidTo(usage, Of(k)) > 0 ==> Counted(used, Of(k)) + PaidTo(usage, Of(k)) <= reserved[k]
  {
    PaidOnce(usage);
    hide PaidTo, Counted;
    forall k | k in reserved && PaidTo(usage, Of(k)) > 0
      ensures Counted(used, Of(k)) + PaidTo(usage, Of(k)) <= reserved[k]
    {
      var i :| 0 <= i < |usage| && usage[i] == (Of(k), PaidTo(usage, Of(k)));
    }
  }

  lemma NextIds(ids: seq<nat>, offset: nat, count: nat)
    requires Distinct(ids) && offset + count <= |ids|
    ensures Distinct(ids[offset..offset + count]) && ids[..offset + count] == ids[..offset] + ids[offset..offset + count]
    ensures forall b :: b in ids[offset..offset + count] ==> b in ids && b !in ids[..offset]
  {
  }

  lemma NothingPaid()
    ensures Total([]) == 0 && forall o :: PaidTo([], o) == 0
  {
  }

  lemma {:induction false} TotalNext(usage: seq<(Owner, int)>, j: nat)
    requires j < |usage| && forall i :: 0 <= i < |usage| ==> usage[i].1 >= 0
    ensures Total(usage[..j + 1]) == Total(usage[..j]) + usage[j].1 <= Total(usage)
    ensures forall o :: PaidTo(usage[..j + 1], o) == PaidTo(usage[..j], o) + if usage[j].0 == o then usage[j].1 else 0
    decreases |usage| - j
  {
    assert usage[..j + 1][..j] == usage[..j];
    if j + 1 < |usage| {
      TotalNext(usage, j + 1);
    } else {
      assert usage[..j + 1] == usage;
    }
  }

  /** Nobody pays more than one entry says. */
  lemma {:induction false} PaidOnce(usage: seq<(Owner, int)>)
    requires forall i, j :: 0 <= i < j < |usage| ==> usage[i].0 != usage[j].0
    ensures forall o :: PaidTo(usage, o) != 0 ==> exists i :: 0 <= i < |usage| && usage[i] == (o, PaidTo(usage, o))
  {
    if usage != [] {
      var init, last := usage[..|usage| - 1], usage[|usage| - 1];
      PaidOnce(init);
      forall o | PaidTo(usage, o) != 0
        ensures exists i :: 0 <= i < |usage| && usage[i] == (o, PaidTo(usage, o))
      {
        if PaidTo(init, o) != 0 {
          var i :| 0 <= i < |init| && init[i] == (o, PaidTo(init, o));
          assert usage[i] == init[i];
        } else {
          assert usage[|usage| - 1] == (o, PaidTo(usage, o));
        }
      }
    }
  }

  /** The usage pays for the demand out of what is there: shared capacity first, then reservations as far
      as they are open, none of them twice. */
  ghost predicate Pays(shared: int, avail: map<Key, int>, open: map<Key, int>, usage: seq<(Owner, int)>, demand: nat) {
    && Total(usage) == demand && |usage| > 0 && usage[0] == (Shared, Min(demand, shared))
    && PaysSoFar(avail, open, usage)
  }

  ghost predicate PaysSoFar(avail: map<Key, int>, open: map<Key, int>, usage: seq<(Owner, int)>) {
    && (forall i, j :: 0 <= i < j < |usage| ==> usage[i].0 != usage[j].0)
    && (forall i :: 0 < i < |usage| ==> usage[i].0.Of? && usage[i].0.key in open && 0 <= usage[i].1 <= open[usage[i].0.key])
  }

  /** Others lend only once the request's own reservation is used up. */
  ghost predicate OwnFirst(avail: map<Key, int>, agent: Option<Key>, usage: seq<(Owner, int)>) {
    agent.Some? && agent.value in avail && |usage| > 1 ==>
      usage[1].0 == Of(agent.value) && (|usage| > 2 ==> usage[1].1 == avail[agent.value])
  }

  function Others(keys: seq<Key>, agent: Option<Key>): (r: seq<Key>)
    ensures forall k :: k in r <==> k in keys && agent != Some(k)
    ensures Distinct(keys) ==> Distinct(r)
  {
    if keys == [] then []
    else
      var r := Others(keys[..|keys| - 1], agent);
      if agent == Some(keys[|keys| - 1]) then r else r + [keys[|keys| - 1]]
  }

  lemma SumAppend(keys: seq<Key>, k: Key, m: map<Key, int>)
    requires k in m && forall i :: 0 <= i < |keys| ==> keys[i] in m
    ensures Sum(keys + [k], m) == Sum(keys, m) + m[k]
  {
    assert (keys + [k])[..|keys|] == keys;
  }

  lemma {:induction false} SumOthers(keys: seq<Key>, agent: Option<Key>, m: map<Key, int>)
    requires Distinct(keys) && forall k :: k in keys ==> k in m
    ensures Sum(keys, m) == Sum(Others(keys, agent), m) + if agent.Some? && agent.value in keys then m[agent.value] else 0
  {
    if keys != [] {
      var init, last := keys[..|keys| - 1], keys[|keys| - 1];
      assert keys == init + [last];
      assert Sum(keys, m) == Sum(init, m) + m[last];
      SumOthers(init, agent, m);
      var r := Others(init, agent);
      SumAppend(r, last, m);
      hide Sum;
      if agent == Some(last) {
        assert last !in init;
      }
    }
  }

  /** Larger reservations lend first, higher scores among equals. */
  function ByStock(avail: map<Key, int>, scores: map<Key, real>): (Key, Key) -> bool {
    (x: Key, y: Key) =>
      var a, b := if x in avail then avail[x] else 0, if y in avail then avail[y] else 0;
      a > b || (a == b && At(scores, x) > At(scores, y))
  }

  lemma TotalAppend(usage: seq<(Owner, int)>, o: Owner, n: int)
    ensures Total(usage + [(o, n)]) == Total(usage) + n
  {
    assert (usage + [(o, n)])[..|usage|] == usage;
  }

  /** A reservation is open to its own agent type and to those its owner lends to. */
  function Open(avail: map<Key, int>, annotated: bool, agent: Option<Key>, lenders: set<Key>): (m: map<Key, int>)
    ensures m.Keys == avail.Keys
  {
    map k | k in avail :: if annotated && (agent == Some(k) || k in lenders) then avail[k] else 0
  }

  /** The part of _consumption after shared capacity has run out. */
  method UseReserved(critical: seq<Key>, scores: map<Key, real>, shared: nat, avail: map<Key, int>, lenders: set<Key>,
                     agent: Option<Key>, demand: nat) returns (usage: Option<seq<(Owner, int)>>)
    requires Distinct(critical) && (forall k :: k in critical <==> k in avail) && shared < demand
    requires forall k :: k in avail ==> 0 <= avail[k]
    ensures usage.Some? <==> demand <= shared + Sum(critical, Open(avail, true, agent, lenders))
    ensures usage.Some? ==> Pays(shared, avail, Open(avail, true, agent, lenders), usage.value, demand)
    ensures usage.Some? ==> OwnFirst(avail, agent, usage.value)
    ensures usage.Some? ==> OnlyLenders(agent, lenders, usage.value) && RichestFirst(avail, scores, agent, lenders, usage.value)
  {
    hide Sum, Sort, Distinct, Total, PaysSoFar, ByStock, RichestFirst, OnlyLenders;
    ghost var open := Open(avail, true, agent, lenders);
    var paid: seq<(Owner, int)> := [(Shared, shared)];
    TotalOne(Shared, shared);
    PaysOwn(avail, open, shared, Shared, 0);
    var remaining := demand - shared;
    SumOthers(critical, agent, open);
    SumNonnegative(Others(critical, agent), open);
    if agent.Some? && agent.value in critical {
      var mine := Min(remaining, avail[agent.value]);
      TotalAppend(paid, Of(agent.value), mine);
      PaysOwn(avail, open, shared, Of(agent.value), mine);
      paid, remaining := paid + [(Of(agent.value), mine)], remaining - mine;
      if remaining == 0 {
        NoDonors(avail, scores, agent, lenders, paid);
        return Some(paid);
      }
    }
    hide Open;
    ghost var before := paid;
    var donors := Sort(Others(critical, agent), ByStock(avail, scores));
    SortDistinct(Others(critical, agent), ByStock(avail, scores));
    SumSorts(Others(critical, agent), ByStock(avail, scores), open);
    paid, remaining := Borrow(donors, avail, lenders, agent, paid, remaining);
    DonorOrder(avail, scores, critical, agent, lenders, donors, before, paid);
    usage := if remaining == 0 then Some(paid) else None;
  }

  /** Beside shared capacity and its own reservation, a request uses only what is lent to it. */
  ghost predicate OnlyLenders(agent: Option<Key>, lenders: set<Key>, usage: seq<(Owner, int)>) {
    forall i :: 0 <= i < |usage| && usage[i].0.Of? && agent != Some(usage[i].0.key) ==> usage[i].0.key in lenders
  }

  /** Before a donor pays, every lender with more available, or as much and a higher score, has paid all it has. */
  ghost predicate RichestFirst(avail: map<Key, int>, scores: map<Key, real>, agent: Option<Key>, lenders: set<Key>, usage: seq<(Owner, int)>) {
    forall i, k :: 0 <= i < |usage| && usage[i].0.Of? && usage[i].0.key in avail && agent != Some(usage[i].0.key) &&
                   k in avail && k in lenders && agent != Some(k) &&
                   (avail[k] > avail[usage[i].0.key] || (avail[k] == avail[usage[i].0.key] && At(scores, k) > At(scores, usage[i].0.key))) ==>
      (Of(k), avail[k]) in usage[..i]
  }

  lemma NoDonors(avail: map<Key, int>, scores: map<Key, real>, agent: Option<Key>, lenders: set<Key>, usage: seq<(Owner, int)>)
    requires forall i :: 0 <= i < |usage| && usage[i].0.Of? ==> agent == Some(usage[i].0.key)
    ensures OnlyLenders(agent, lenders, usage) && RichestFirst(avail, scores, agent, lenders, usage)
  {
  }

  lemma DonorOrder(avail: map<Key, int>, scores: map<Key, real>, critical: seq<Key>, agent: Option<Key>, lenders: set<Key>,
                   donors: seq<Key>, before: seq<(Owner, int)>, paid: seq<(Owner, int)>)
    requires donors == Sort(Others(critical, agent), ByStock(avail, scores)) && (forall k :: k in critical <==> k in avail)
    requires before <= paid && forall i :: 0 <= i < |before| && before[i].0.Of? ==> agent == Some(before[i].0.key)
    requires forall k :: k in donors <==> k in critical && agent != Some(k)
    requires (forall k :: k in donors ==> k in avail) && InTurn(donors, lenders, avail, |before|, paid)
    ensures OnlyLenders(agent, lenders, paid) && RichestFirst(avail, scores, agent, lenders, paid)
  {
    SortOrders(Others(critical, agent), ByStock(avail, scores));
    hide Sort, Others, ByStock, Ordered;
    forall i, k | 0 <= i < |paid| && paid[i].0.Of? && paid[i].0.key in avail && agent != Some(paid[i].0.key) &&
                  k in avail && k in lenders && agent != Some(k) &&
                  (avail[k] > avail[paid[i].0.key] || (avail[k] == avail[paid[i].0.key] && At(scores, k) > At(scores, paid[i].0.key)))
      ensures (Of(k), avail[k]) in paid[..i]
    {
      assert i >= |before|;
      var a :| 0 <= a < |donors| && donors[a] == k;
      var b :| 0 <= b < |donors| && donors[b] == paid[i].0.key;
      RicherIsEarlier(avail, scores, donors, a, b);
    }
  }

  lemma RicherIsEarlier(avail: map<Key, int>, scores: map<Key, real>, donors: seq<Key>, a: nat, b: nat)
    requires Ordered(donors, ByStock(avail, scores)) && a < |donors| && b < |donors| && donors[a] in avail && donors[b] in avail
    requires avail[donors[a]] > avail[donors[b]] || (avail[donors[a]] == avail[donors[b]] && At(scores, donors[a]) > At(scores, donors[b]))
    ensures a < b
  {
    assert ByStock(avail, scores)(donors[a], donors[b]);
  }

  lemma PaysOwn(avail: map<Key, int>, open: map<Key, int>, shared: int, o: Owner, n: int)
    ensures PaysSoFar(avail, open, [(Shared, shared)])
    ensures o.Of? && o.key in open && 0 <= n <= open[o.key] ==> PaysSoFar(avail, open, [(Shared, shared)] + [(o, n)])
  {
  }

  lemma TotalOne(o: Owner, n: int)
    ensures Total([(o, n)]) == n
  {
  }

  /** From entry `first` on the donors that lend pay in their order: whoever pays, those before have paid all. */
  ghost predicate InTurn(donors: seq<Key>, lenders: set<Key>, avail: map<Key, int>, first: nat, paid: seq<(Owner, int)>)
    requires forall k :: k in donors ==> k in avail
  {
    && (forall j :: first <= j < |paid| ==> paid[j].0.Of? && paid[j].0.key in donors && paid[j].0.key in lenders)
    && (forall j, a, b :: first <= j < |paid| && 0 <= a < b < |donors| && paid[j].0 == Of(donors[b]) && donors[a] in lenders ==>
          (Of(donors[a]), avail[donors[a]]) in paid[..j])
  }

  /** The first i donors have paid all they lend. */
  ghost predicate AllPaid(donors: seq<Key>, lenders: set<Key>, avail: map<Key, int>, paid: seq<(Owner, int)>, i: nat)
    requires i <= |donors| && forall k :: k in donors ==> k in avail
  {
    forall a :: 0 <= a < i && donors[a] in lenders ==> (Of(donors[a]), avail[donors[a]]) in paid
  }

  lemma FirstTurn(donors: seq<Key>, lenders: set<Key>, avail: map<Key, int>, before: seq<(Owner, int)>)
    requires forall k :: k in donors ==> k in avail
    ensures InTurn(donors, lenders, avail, |before|, before) && AllPaid(donors, lenders, avail, before, 0)
  {
  }

  lemma NextTurn(donors: seq<Key>, lenders: set<Key>, avail: map<Key, int>, first: nat, paid: seq<(Owner, int)>, i: nat, n: int)
    requires i < |donors| && Distinct(donors) && (forall k :: k in donors ==> k in avail) && first <= |paid|
    requires InTurn(donors, lenders, avail, first, paid) && AllPaid(donors, lenders, avail, paid, i)
    ensures donors[i] !in lenders ==> AllPaid(donors, lenders, avail, paid, i + 1)
    ensures donors[i] in lenders ==>
      var more := paid + [(Of(donors[i]), n)];
      InTurn(donors, lenders, avail, first, more) && (n == avail[donors[i]] ==> AllPaid(donors, lenders, avail, more, i + 1))
  {
    var more := paid + [(Of(donors[i]), n)];
    assert forall j :: 0 <= j <= |paid| ==> more[..j] == paid[..j];
  }

  /** The loop over the donors. */
  method Borrow(donors: seq<Key>, avail: map<Key, int>, lenders: set<Key>, agent: Option<Key>, before: seq<(Owner, int)>, needed: nat)
    returns (paid: seq<(Owner, int)>, remaining: nat)
    requires Distinct(donors) && (forall k :: k in donors ==> k in avail && agent != Some(k)) && forall k :: k in avail ==> 0 <= avail[k]
    requires PaysSoFar(avail, Open(avail, true, agent, lenders), before) && before != []
    requires needed > 0 && forall i, k :: 0 <= i < |before| && k in donors ==> before[i].0 != Of(k)
    ensures remaining == Positive(needed - Sum(donors, Open(avail, true, agent, lenders)))
    ensures Total(paid) + remaining == Total(before) + needed && before <= paid
    ensures PaysSoFar(avail, Open(avail, true, agent, lenders), paid)
    ensures InTurn(donors, lenders, avail, |before|, paid)
  {
    hide Sum, Total;
    ghost var open := Open(avail, true, agent, lenders);
    paid, remaining := before, needed;
    NoSum(open);
    hide InTurn, AllPaid;
    FirstTurn(donors, lenders, avail, before);
    for i := 0 to |donors|
      invariant remaining > 0 && remaining == needed - Sum(donors[..i], open)
      invariant Total(paid) + remaining == Total(before) + needed && before <= paid
      invariant PaysSoFar(avail, open, paid)
      invariant forall j, k :: 0 <= j < |paid| && i <= k < |donors| ==> paid[j].0 != Of(donors[k])
      invariant InTurn(donors, lenders, avail, |before|, paid) && AllPaid(donors, lenders, avail, paid, i)
    {
      var owner := donors[i];
      SumNext(donors, i, open);
      NextTurn(donors, lenders, avail, |before|, paid, i, 0);
      if owner in lenders {
        var borrowed := Min(remaining, avail[owner]);
        TotalAppend(paid, Of(owner), borrowed);
        NextTurn(donors, lenders, avail, |before|, paid, i, borrowed);
        paid, remaining := paid + [(Of(owner), borrowed)], remaining - borrowed;
        if remaining == 0 {
          SumPrefix(donors, i + 1, open);
          return;
        }
      }
    }
    assert donors[..|donors|] == donors;
  }

  lemma SumNext(keys: seq<Key>, i: nat, m: map<Key, int>)
    requires i < |keys| && forall k :: k in keys ==> k in m
    ensures Sum(keys[..i + 1], m) == Sum(keys[..i], m) + m[keys[i]]
  {
    assert keys[..i + 1][..i] == keys[..i];
  }

  lemma {:induction false} SumPrefix(keys: seq<Key>, i: nat, m: map<Key, int>)
    requires i <= |keys| && forall k :: k in keys ==> k in m && m[k] >= 0
    ensures Sum(keys[..i], m) <= Sum(keys, m)
    decreases |keys| - i
  {
    if i == |keys| {
      assert keys[..i] == keys;
    } else {
      SumNext(keys, i, m);
      SumPrefix(keys, i + 1, m);
    }
  }

  /** Cut shared capacity, then reservations, down to the blocks that are not committed. */
  method Limit(critical: seq<Key>, scores: map<Key, real>, shared: nat, full: map<Key, int>, uncommitted: int) returns (s: nat, r: map<Key, int>)
    requires Distinct(critical) && (forall k :: k in critical <==> k in full) && forall k :: k in full ==> full[k] >= 0
    ensures r.Keys == full.Keys && s <= shared && forall k :: k in r ==> 0 <= r[k] <= full[k]
    ensures s + Sum(critical, r) == Min(shared + Sum(critical, full), Positive(uncommitted))
    ensures forall k :: k in r && r[k] < full[k] ==> s == 0 && forall j :: j in r && At(scores, j) < At(scores, k) ==> r[j] == 0
  {
    hide Sum, Sort, Distinct, ByPlanScore, Reduced;
    var excess := Positive(shared + Sum(critical, full) - Positive(uncommitted));
    var reduction := Min(excess, shared);
    s, excess := shared - reduction, excess - reduction;
    var order := Sort(critical, ByPlanScore(scores));
    SortDistinct(critical, ByPlanScore(scores));
    SumSorts(critical, ByPlanScore(scores), full);
    SumNonnegative(critical, full);
    var left;
    r, left := Reduce(order, full, excess);
    SumSorts(critical, ByPlanScore(scores), r);
    LowestFirst(critical, scores, full, r, excess - left);
  }

  /** What the owner of a reservation gives to a request; its own agent type uses it anyway. */
  predicate Lends(waitingCritical: set<Key>, waitingScores: map<Key, int>, margin: nat, r: Requester, owner: Key) {
    || r.borrow || owner !in waitingCritical
    || (margin > 0 && owner in waitingScores && r.score.Some? && r.score.value - waitingScores[owner] >= margin)
  }

  /** Owners with nobody waiting lend to everybody, borrowing ignores the waiting ones, and otherwise a higher
      score finds at least the lenders that a lower one finds. */
  lemma LendingGrows(waitingCritical: set<Key>, waitingScores: map<Key, int>, margin: nat, r: Requester, score: int, owner: Key)
    ensures owner !in waitingCritical || r.borrow ==> Lends(waitingCritical, waitingScores, margin, r, owner)
    ensures r.score.Some? && r.score.value <= score && Lends(waitingCritical, waitingScores, margin, r, owner) ==>
            Lends(waitingCritical, waitingScores, margin, r.(score := Some(score)), owner)
    ensures owner in waitingScores && margin > 0 && score >= waitingScores[owner] + margin ==>
            Lends(waitingCritical, waitingScores, margin, r.(score := Some(score)), owner)
    ensures owner in waitingCritical && !r.borrow && (margin == 0 || r.score == None) ==> !Lends(waitingCritical, waitingScores, margin, r, owner)
  {
  }

  lemma LowestFirst(critical: seq<Key>, scores: map<Key, real>, before: map<Key, int>, after: map<Key, int>, given: int)
    requires Distinct(critical) && (forall k :: k in critical <==> k in before) && after.Keys == before.Keys
    requires Reduced(Sort(critical, ByPlanScore(scores)), before, after, given)
    ensures Sum(Sort(critical, ByPlanScore(scores)), after) == Sum(Sort(critical, ByPlanScore(scores)), before) - given
    ensures forall k :: k in after ==> 0 <= after[k] <= before[k]
    ensures given == 0 ==> forall k :: k in after ==> after[k] == before[k]
    ensures forall k, j :: k in after && j in after && after[k] < before[k] && At(scores, j) < At(scores, k) ==> after[j] == 0
  {
    var order := Sort(critical, ByPlanScore(scores));
    SortOrders(critical, ByPlanScore(scores));
    SortDistinct(critical, ByPlanScore(scores));
    hide Sort, Sum, ByPlanScore, Distinct, Ordered;
    if given == 0 {
      SumEqual(order, before, after);
    }
    forall k, j | k in after && j in after && after[k] < before[k] && At(scores, j) < At(scores, k)
      ensures after[j] == 0
    {
      var a := Position(order, k);
      var b := Position(order, j);
      LowerIsEarlier(order, scores, a, b);
    }
  }

  lemma Position(keys: seq<Key>, k: Key) returns (i: nat)
    requires k in keys
    ensures i < |keys| && keys[i] == k
  {
    i :| 0 <= i < |keys| && keys[i] == k;
  }

  lemma LowerIsEarlier(order: seq<Key>, scores: map<Key, real>, a: nat, b: nat)
    requires Ordered(order, ByPlanScore(scores)) && a < |order| && b < |order| && At(scores, order[b]) < At(scores, order[a])
    ensures b < a
  {
    assert ByPlanScore(scores)(order[b], order[a]);
  }

  lemma {:induction false} SumEqual(keys: seq<Key>, before: map<Key, int>, after: map<Key, int>)
    requires forall i :: 0 <= i < |keys| ==> keys[i] in before && keys[i] in after && after[keys[i]] <= before[keys[i]]
    ensures Sum(keys, after) <= Sum(keys, before)
    ensures Sum(keys, after) == Sum(keys, before) ==> forall i :: 0 <= i < |keys| ==> after[keys[i]] == before[keys[i]]
  {
    if keys != [] {
      SumEqual(keys[..|keys| - 1], before, after);
    }
  }
}
