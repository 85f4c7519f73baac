/** The manager of CPU blocks that KV data is offloaded to (vllm/v1/kv_offload/cpu/manager.py), with the
    least-recently-used policy (vllm/v1/kv_offload/cpu/policies/lru.py). */
module OffloadManager {
  import opened Options
  import opened Sorting

  type Key = nat

  /** refCnt counts the uses of the block; -1 means it is being written. */
  datatype Block = Block(refCnt: int, id: nat) {
    predicate Ready() {
      refCnt >= 0
    }
  }

  /** What a store is given: the keys to write with their block ids, and the evicted keys. */
  datatype Stored = Stored(keys: seq<Key>, ids: seq<nat>, evicted: seq<Key>)

  /** Every block id that has ever been handed out is either in the free list or in the cache, once. */
  ghost predicate Pooled(blocks: map<Key, Block>, free: seq<nat>, issued: nat) {
    && (forall k :: k in blocks ==> blocks[k].id < issued && blocks[k].id !in free)
    && (forall k, j :: k in blocks && j in blocks && k != j ==> blocks[k].id != blocks[j].id)
    && (forall i :: 0 <= i < |free| ==> free[i] < issued) && Distinct(free)
    && |blocks| + |free| == issued
  }

  /** Blocks that may be evicted, oldest first. */
  function Evictable(order: seq<Key>, blocks: map<Key, Block>, protect: set<Key>): seq<Key>
    requires forall k :: k in order ==> k in blocks
  {
    if order == [] then []
    else
      var init, last := order[..|order| - 1], order[|order| - 1];
      Evictable(init, blocks, protect) + if blocks[last].refCnt == 0 && last !in protect then [last] else []
  }

  lemma {:induction false} EvictableIs(order: seq<Key>, blocks: map<Key, Block>, protect: set<Key>)
    requires Distinct(order) && forall k :: k in order ==> k in blocks
    ensures var e := Evictable(order, blocks, protect);
      Distinct(e) && forall k :: k in e <==> k in order && blocks[k].refCnt == 0 && k !in protect
  {
    if order != [] {
      var init, last := order[..|order| - 1], order[|order| - 1];
      assert order == init + [last];
      EvictableIs(init, blocks, protect);
    }
  }

  lemma NoneEvictable(order: seq<Key>, blocks: map<Key, Block>, protect: set<Key>)
    ensures Evictable(order[..0], blocks, protect) == []
  {
  }

  lemma EvictableNext(order: seq<Key>, blocks: map<Key, Block>, protect: set<Key>, i: nat)
    requires i < |order| && forall k :: k in order ==> k in blocks
    ensures Evictable(order[..i + 1], blocks, protect) ==
            Evictable(order[..i], blocks, protect) + if blocks[order[i]].refCnt == 0 && order[i] !in protect then [order[i]] else []
  {
    assert order[..i + 1][..i] == order[..i];
  }

  lemma {:induction false} EvictablePrefix(order: seq<Key>, blocks: map<Key, Block>, protect: set<Key>, i: nat)
    requires i <= |order| && forall k :: k in order ==> k in blocks
    ensures Evictable(order[..i], blocks, protect) <= Evictable(order, blocks, protect)
    decreases |order| - i
  {
    if i == |order| {
      assert order[..i] == order;
    } else {
      EvictablePrefix(order, blocks, protect, i + 1);
      assert order[..i + 1][..i] == order[..i];
    }
  }

  /** The keys that are not in the set, in order. */
  function Without(keys: seq<Key>, drop: set<Key>): (r: seq<Key>)
    ensures forall k :: k in r <==> k in keys && k !in drop
    ensures Distinct(keys) ==> Distinct(r)
  {
    if keys == [] then []
    else
      var init, last := keys[..|keys| - 1], keys[|keys| - 1];
      Without(init, drop) + if last in drop then [] else [last]
  }

  function Elements<T>(s: seq<T>): set<T> {
    set x | x in s
  }

  // ----- Recency

  /** a has been used less recently than b. */
  ghost predicate Older(order: seq<Key>, a: Key, b: Key) {
    exists i, j :: 0 <= i < j < |order| && order[i] == a && order[j] == b
  }

  lemma OlderAppend(order: seq<Key>, x: Key, a: Key, b: Key)
    ensures Older(order + [x], a, b) <==> Older(order, a, b) || (a in order && b == x)
  {
    var more := order + [x];
    if Older(more, a, b) {
      var i, j :| 0 <= i < j < |more| && more[i] == a && more[j] == b;
      assert order[i] == a;
      if j < |order| {
        assert order[j] == b;
      }
    }
    if Older(order, a, b) {
      var i, j :| 0 <= i < j < |order| && order[i] == a && order[j] == b;
      assert more[i] == a && more[j] == b;
    }
    if a in order && b == x {
      var i :| 0 <= i < |order| && order[i] == a;
      assert more[i] == a && more[|order|] == b;
    }
  }

  /** Leaving keys out does not change which of the others is older. */
  lemma {:induction false} WithoutKeepsOrder(order: seq<Key>, drop: set<Key>, a: Key, b: Key)
    ensures Older(Without(order, drop), a, b) <==> Older(order, a, b) && a !in drop && b !in drop
  {
    if order != [] {
      var init, last := order[..|order| - 1], order[|order| - 1];
      assert order == init + [last];
      WithoutKeepsOrder(init, drop, a, b);
      OlderAppend(init, last, a, b);
      OlderAppend(Without(init, drop), last, a, b);
      hide Older;
      assert Without(init, drop) + [] == Without(init, drop);
    }
  }

  /** b occurs in keys before a does, if a does at all. */
  ghost predicate FirstBefore(keys: seq<Key>, b: Key, a: Key) {
    exists i :: 0 <= i < |keys| && keys[i] == b && a !in keys[..i + 1]
  }

  lemma FirstBeforeMore(k: Key, rest: seq<Key>, b: Key, a: Key)
    requires a != b
    ensures FirstBefore([k] + rest, b, a) <==> k != a && (k == b || FirstBefore(rest, b, a))
  {
    var keys := [k] + rest;
    assert forall i :: 0 <= i < |rest| ==> keys[i + 1] == rest[i] && keys[..i + 2] == [k] + rest[..i + 1];
    if FirstBefore(keys, b, a) {
      var i :| 0 <= i < |keys| && keys[i] == b && a !in keys[..i + 1];
      assert keys[..i + 1][0] == k;
      if i > 0 {
        assert rest[i - 1] == b && keys[..(i - 1) + 2] == [k] + rest[..i];
      }
    }
    if k != a && k == b {
      assert keys[0] == b && keys[..1] == [k];
    }
    if k != a && FirstBefore(rest, b, a) {
      var i :| 0 <= i < |rest| && rest[i] == b && a !in rest[..i + 1];
      assert keys[i + 1] == b && a !in keys[..i + 2];
    }
  }

  /** The keys that may be evicted. */
  function Idle(blocks: map<Key, Block>, protect: set<Key>): set<Key> {
    set k | k in blocks && blocks[k].refCnt == 0 && k !in protect
  }

  /** n keys that may be evicted, and none that may be is older than one of them and stays. */
  ghost predicate LeastRecent(order: seq<Key>, blocks: map<Key, Block>, protect: set<Key>, n: nat, evicted: seq<Key>) {
    && |evicted| == n && Distinct(evicted) && (forall k :: k in evicted ==> k in Idle(blocks, protect))
    && (forall a, b :: Older(order, a, b) && b in evicted && a in Idle(blocks, protect) ==> a in evicted)
  }

  lemma {:induction false} EvictableOrder(order: seq<Key>, blocks: map<Key, Block>, protect: set<Key>, a: Key, b: Key)
    requires forall k :: k in order ==> k in blocks
    ensures Older(Evictable(order, blocks, protect), a, b) <==> Older(order, a, b) && a in Idle(blocks, protect) && b in Idle(blocks, protect)
    ensures forall k :: k in Evictable(order, blocks, protect) <==> k in order && k in Idle(blocks, protect)
  {
    if order != [] {
      var init, last := order[..|order| - 1], order[|order| - 1];
      assert order == init + [last];
      EvictableOrder(init, blocks, protect, a, b);
      OlderAppend(init, last, a, b);
      OlderAppend(Evictable(init, blocks, protect), last, a, b);
      hide Older;
      assert Evictable(init, blocks, protect) + [] == Evictable(init, blocks, protect);
    }
  }

  lemma OldestAreLeastRecent(order: seq<Key>, blocks: map<Key, Block>, protect: set<Key>, n: nat)
    requires Distinct(order) && forall k :: k in order <==> k in blocks
    requires n <= |Evictable(order, blocks, protect)|
    ensures LeastRecent(order, blocks, protect, n, Evictable(order, blocks, protect)[..n])
  {
    var all := Evictable(order, blocks, protect);
    EvictableIs(order, blocks, protect);
    forall a, b | Older(order, a, b) && b in all[..n] && a in Idle(blocks, protect)
      ensures a in all[..n]
    {
      EvictableOrder(order, blocks, protect, a, b);
      var i, j :| 0 <= i < j < |all| && all[i] == a && all[j] == b;
      assert all[..n][i] == a;
    }
  }

  lemma IdleCount(order: seq<Key>, blocks: map<Key, Block>, protect: set<Key>)
    requires Distinct(order) && forall k :: k in order <==> k in blocks
    ensures |Evictable(order, blocks, protect)| == |Idle(blocks, protect)|
  {
    EvictableIs(order, blocks, protect);
    ElementsSize(Evictable(order, blocks, protect));
    assert Elements(Evictable(order, blocks, protect)) == Idle(blocks, protect);
  }

  lemma {:induction false} ElementsSize<T>(s: seq<T>)
    ensures |Elements(s)| <= |s| && (|Elements(s)| == |s| <==> Distinct(s))
  {
    if s != [] {
      var init, last := s[..|s| - 1], s[|s| - 1];
      ElementsSize(init);
      assert s == init + [last];
      if last in init {
        assert Elements(s) == Elements(init);
        var i :| 0 <= i < |init| && init[i] == last;
        assert s[i] == s[|s| - 1];
      } else {
        assert Elements(s) == Elements(init) + {last};
      }
    }
  }

  /** The cache after new keys were given the blocks with these ids. */
  function InsertAll(blocks: map<Key, Block>, keys: seq<Key>, ids: seq<nat>): (r: map<Key, Block>)
    requires |keys| == |ids|
    ensures r.Keys == blocks.Keys + Elements(keys)
    ensures forall k :: k in blocks && k !in keys ==> r[k] == blocks[k]
    ensures forall k :: k in keys ==> r[k].refCnt == -1 && r[k].id in ids
  {
    if keys == [] then blocks
    else
      var n := |keys| - 1;
      assert keys == keys[..n] + [keys[n]] && ids == ids[..n] + [ids[n]];
      InsertAll(blocks, keys[..n], ids[..n])[keys[n] := Block(-1, ids[n])]
  }

  lemma {:induction false} InsertAllIds(blocks: map<Key, Block>, keys: seq<Key>, ids: seq<nat>, k: Key, j: Key)
    requires |keys| == |ids| && Distinct(ids) && k in keys && j in keys && k != j
    ensures InsertAll(blocks, keys, ids)[k].id != InsertAll(blocks, keys, ids)[j].id
  {
    var n := |keys| - 1;
    assert keys == keys[..n] + [keys[n]] && ids == ids[..n] + [ids[n]];
    if k != keys[n] && j != keys[n] {
      InsertAllIds(blocks, keys[..n], ids[..n], k, j);
    }
  }

  /** The ids have been taken out of the pool. */
  ghost predicate Taken(free: seq<nat>, issued: nat, ids: seq<nat>, free': seq<nat>, issued': nat) {
    && Distinct(ids) && Distinct(free') && issued' >= issued && |free'| + |ids| == |free| + (issued' - issued)
    && (forall x :: x in ids ==> x < issued' && x !in free' && (x in free || x >= issued))
    && (forall x :: x in free' ==> x in free)
  }

  lemma InsertAllSize(blocks: map<Key, Block>, keys: seq<Key>, ids: seq<nat>)
    requires |keys| == |ids| && forall k :: k in keys ==> k !in blocks
    ensures |InsertAll(blocks, keys, ids)| == |blocks| + |Elements(keys)|
  {
    var next := InsertAll(blocks, keys, ids);
    assert next.Keys == blocks.Keys + Elements(keys) && blocks.Keys !! Elements(keys);
    assert |next.Keys| == |blocks.Keys| + |Elements(keys)|;
  }

  /** Storing new keys keeps the pool whole exactly if no key is given twice: of a repeated key only the
      last block is kept, and the others are lost. */
  lemma StoreKeepsPool(blocks: map<Key, Block>, free: seq<nat>, issued: nat, keys: seq<Key>, ids: seq<nat>, free': seq<nat>, issued': nat)
    requires Pooled(blocks, free, issued) && |keys| == |ids| && (forall k :: k in keys ==> k !in blocks)
    requires Taken(free, issued, ids, free', issued')
    ensures Pooled(InsertAll(blocks, keys, ids), free', issued') <==> Distinct(keys)
  {
    hide Pooled, Taken, InsertAll, Distinct, Elements;
    ElementsSize(keys);
    InsertAllSize(blocks, keys, ids);
    PoolSize(blocks, free, issued);
    TakenSize(free, issued, ids, free', issued');
    if Distinct(keys) {
      DistinctKeepsPool(blocks, free, issued, keys, ids, free', issued');
    } else if Pooled(InsertAll(blocks, keys, ids), free', issued') {
      PoolSize(InsertAll(blocks, keys, ids), free', issued');
    }
  }

  lemma PoolSize(blocks: map<Key, Block>, free: seq<nat>, issued: nat)
    requires Pooled(blocks, free, issued)
    ensures |blocks| + |free| == issued
  {
  }

  lemma TakenSize(free: seq<nat>, issued: nat, ids: seq<nat>, free': seq<nat>, issued': nat)
    requires Taken(free, issued, ids, free', issued')
    ensures |free'| + |ids| == |free| + (issued' - issued)
  {
  }

  lemma DistinctKeepsPool(blocks: map<Key, Block>, free: seq<nat>, issued: nat, keys: seq<Key>, ids: seq<nat>, free': seq<nat>, issued': nat)
    requires Pooled(blocks, free, issued) && |keys| == |ids| && (forall k :: k in keys ==> k !in blocks)
    requires Taken(free, issued, ids, free', issued') && Distinct(keys)
    ensures Pooled(InsertAll(blocks, keys, ids), free', issued')
  {
    ElementsSize(keys);
    InsertAllSize(blocks, keys, ids);
    NewIdsDiffer(blocks, free, issued, keys, ids, free', issued');
    var next := InsertAll(blocks, keys, ids);
    hide InsertAll, Elements, Distinct;
    forall k | k in next
      ensures next[k].id < issued' && next[k].id !in free'
    {
      assert k in keys || k in blocks;
    }
    forall i | 0 <= i < |free'|
      ensures free'[i] < issued'
    {
      assert free'[i] in free;
    }
  }

  lemma NewIdsDiffer(blocks: map<Key, Block>, free: seq<nat>, issued: nat, keys: seq<Key>, ids: seq<nat>, free': seq<nat>, issued': nat)
    requires Pooled(blocks, free, issued) && |keys| == |ids| && (forall k :: k in keys ==> k !in blocks)
    requires Taken(free, issued, ids, free', issued')
    ensures var next := InsertAll(blocks, keys, ids);
            forall k, j :: k in next && j in next && k != j ==> next[k].id != next[j].id
  {
    hide InsertAll, Distinct;
    var next := InsertAll(blocks, keys, ids);
    forall k, j | k in next && j in next && k != j
      ensures next[k].id != next[j].id
    {
      if k in keys && j in keys {
        InsertAllIds(blocks, keys, ids, k, j);
      }
    }
  }

  /** Distinct keys lose their blocks: the pool gains the ids. */
  lemma EvictKeepsPool(blocks: map<Key, Block>, free: seq<nat>, issued: nat, keys: seq<Key>)
    requires Pooled(blocks, free, issued) && Distinct(keys) && forall k :: k in keys ==> k in blocks
    ensures Pooled(blocks - Elements(keys), free + Ids(blocks, keys), issued)
  {
    var next, ids := blocks - Elements(keys), Ids(blocks, keys);
    FewerBlocks(blocks, keys);
    FreedIds(blocks, free, issued, keys);
    DistinctAppend(free, ids);
    hide Elements, Distinct, Ids;
    forall k | k in next
      ensures next[k].id < issued && next[k].id !in free + ids
    {
      assert k !in keys;
    }
  }

  lemma FewerBlocks(blocks: map<Key, Block>, keys: seq<Key>)
    requires Distinct(keys) && forall k :: k in keys ==> k in blocks
    ensures |blocks - Elements(keys)| == |blocks| - |keys|
    ensures forall k :: k in blocks - Elements(keys) <==> k in blocks && k !in keys
  {
    ElementsSize(keys);
    var next := blocks - Elements(keys);
    assert next.Keys == blocks.Keys - Elements(keys) && Elements(keys) <= blocks.Keys;
    assert |next.Keys| == |blocks.Keys| - |keys|;
  }

  lemma FreedIds(blocks: map<Key, Block>, free: seq<nat>, issued: nat, keys: seq<Key>)
    requires Pooled(blocks, free, issued) && Distinct(keys) && forall k :: k in keys ==> k in blocks
    ensures Distinct(Ids(blocks, keys)) && forall x :: x in Ids(blocks, keys) ==> x !in free && x < issued
    ensures forall k :: k in blocks && k !in keys ==> blocks[k].id !in Ids(blocks, keys)
  {
  }

  lemma DistinctAppend(s: seq<nat>, t: seq<nat>)
    requires Distinct(s) && Distinct(t) && forall x :: x in t ==> x !in s
    ensures Distinct(s + t)
  {
    var all := s + t;
    forall i, j | 0 <= i < j < |all|
      ensures all[i] != all[j]
    {
      if i < |s| <= j {
        assert t[j - |s|] in t;
      }
    }
  }

  function Ids(blocks: map<Key, Block>, keys: seq<Key>): (r: seq<nat>)
    requires forall i :: 0 <= i < |keys| ==> keys[i] in blocks
    ensures |r| == |keys| && forall i :: 0 <= i < |keys| ==> r[i] == blocks[keys[i]].id
  {
    seq(|keys|, i requires 0 <= i < |keys| && keys[i] in blocks => blocks[keys[i]].id)
  }

  /** n ids from a on. */
  function Counting(a: nat, n: nat): (r: seq<nat>)
    ensures |r| == n && forall i :: 0 <= i < n ==> r[i] == a + i
  {
    seq(n, i requires 0 <= i => a + i)
  }

  /** The last n of the free list, last first. */
  function Popped(free: seq<nat>, n: nat): (r: seq<nat>)
    requires n <= |free|
    ensures |r| == n && forall i :: 0 <= i < n ==> r[i] == free[|free| - 1 - i]
  {
    seq(n, i requires 0 <= i < n => free[|free| - 1 - i])
  }

  lemma FreeIds(blocks: map<Key, Block>, free: seq<nat>, issued: nat)
    requires Pooled(blocks, free, issued)
    ensures Distinct(free) && forall i :: 0 <= i < |free| ==> free[i] < issued
  {
  }

  lemma TakenAll(free: seq<nat>, issued: nat, made: nat, reused: nat)
    requires Distinct(free) && (forall i :: 0 <= i < |free| ==> free[i] < issued) && reused <= |free|
    ensures Taken(free, issued, Counting(issued, made) + Popped(free, reused), free[..|free| - reused], issued + made)
  {
    var a, b, rest := Counting(issued, made), Popped(free, reused), free[..|free| - reused];
    forall x | x in b
      ensures x in free && x !in rest && x < issued
    {
      var i :| 0 <= i < |b| && b[i] == x;
      assert free[|free| - 1 - i] == x;
    }
    assert Distinct(b);
  }

  class Manager {
    const numBlocks: nat
    var blocks: map<Key, Block>
    /** The order of the policy's dictionary, least recently used first. */
    var order: seq<Key>
    var freeList: seq<nat>
    /** _num_allocated_blocks. */
    var issued: nat

    ghost predicate Valid()
      reads this
    {
      && Pooled(blocks, freeList, issued) && issued <= numBlocks
      && Distinct(order) && (forall k :: k in order <==> k in blocks)
      && forall k :: k in blocks ==> blocks[k].refCnt >= -1
    }

    function NumFree(): int
      reads this`freeList, this`issued
    {
      |freeList| + numBlocks - issued
    }

    method TakeFresh(n: nat) returns (ids: seq<nat>)
      modifies this`issued
      ensures ids == Counting(old(issued), n) && issued == old(issued) + n
    {
      ids := [];
      for i := 0 to n
        invariant issued == old(issued) + i && ids == Counting(old(issued), i)
      {
        ids := ids + [issued];
        issued := issued + 1;
      }
    }

    method TakeFreed(n: nat) returns (ids: seq<nat>)
      requires n <= |freeList|
      modifies this`freeList
      ensures ids == Popped(old(freeList), n) && freeList == old(freeList)[..|old(freeList)| - n]
    {
      ids := [];
      for i := 0 to n
        invariant freeList == old(freeList)[..|old(freeList)| - i] && ids == Popped(old(freeList), i)
      {
        ids := ids + [freeList[|freeList| - 1]];
        freeList := freeList[..|freeList| - 1];
      }
    }

    /** _allocate_blocks: fresh ids first, then the last freed. */
    method Allocate(n: nat) returns (ids: seq<nat>)
      requires Pooled(blocks, freeList, issued) && issued <= numBlocks && n <= NumFree()
      modifies this`freeList, this`issued
      ensures |ids| == n && issued <= numBlocks && Taken(old(freeList), old(issued), ids, freeList, issued)
    {
      FreeIds(blocks, freeList, issued);
      hide Pooled, Taken, Distinct;
      var numFresh := if n < numBlocks - issued then n else numBlocks - issued;
      var made := TakeFresh(numFresh);
      var reused := TakeFreed(n - numFresh);
      ids := made + reused;
      TakenAll(old(freeList), old(issued), numFresh, n - numFresh);
    }

    /** LRUCachePolicy.evict: the n oldest blocks that are unused and not protected, or nothing. */
    method Evict(n: nat, protect: set<Key>) returns (evicted: Option<seq<Key>>)
      requires Valid()
      ensures var all := Evictable(order, blocks, protect);
              if n <= |all| then evicted == Some(all[..n]) else evicted == None
      ensures evicted == None <==> n > |Idle(blocks, protect)|
      ensures evicted.Some? ==> LeastRecent(order, blocks, protect, n, evicted.value)
    {
      IdleCount(order, blocks, protect);
      if n <= |Idle(blocks, protect)| {
        OldestAreLeastRecent(order, blocks, protect, n);
      }
      hide Pooled, Distinct, Evictable, Idle, LeastRecent;
      NoneEvictable(order, blocks, protect);
      if n == 0 {
        return Some([]);
      }
      var candidates := [];
      for i := 0 to |order|
        invariant candidates == Evictable(order[..i], blocks, protect) && |candidates| < n
      {
        var key := order[i];
        EvictableNext(order, blocks, protect, i);
        if blocks[key].refCnt == 0 && key !in protect {
          candidates := candidates + [key];
          if |candidates| == n {
            EvictablePrefix(order, blocks, protect, i + 1);
            assert Evictable(order, blocks, protect)[..n] == candidates;
            return Some(candidates);
          }
        }
      }
      assert order[..|order|] == order;
      evicted := None;
    }

    /** Take the blocks of these keys out of the cache and free them. */
    method Drop(keys: seq<Key>)
      requires Valid() && Distinct(keys) && forall k :: k in keys ==> k in blocks
      modifies this`blocks, this`order, this`freeList
      ensures Valid() && blocks == old(blocks) - Elements(keys) && |freeList| == |old(freeList)| + |keys|
      ensures order == Without(old(order), Elements(keys))
    {
      hide Elements, Distinct, Pooled;
      EvictKeepsPool(blocks, freeList, issued, keys);
      assert forall k :: k in blocks - Elements(keys) <==> k in blocks && k !in keys by {
        ElementsAre(keys);
      }
      order := Without(order, Elements(keys));
      freeList := freeList + Ids(blocks, keys);
      blocks := blocks - Elements(keys);
    }

    /** The policy's insert, for each new key. */
    method InsertNew(keys: seq<Key>, ids: seq<nat>)
      requires |keys| == |ids| && Distinct(order) && forall k :: k in order <==> k in blocks
      modifies this`blocks, this`order
      ensures blocks == InsertAll(old(blocks), keys, ids) && Distinct(order) && forall k :: k in order <==> k in blocks
      ensures old(order) <= order && (Distinct(keys) && (forall k :: k in keys ==> k !in old(blocks)) ==> order == old(order) + keys)
    {
      for i := 0 to |keys|
        invariant old(order) <= order && (Distinct(keys) && (forall k :: k in keys ==> k !in old(blocks)) ==> order == old(order) + keys[..i])
        invariant blocks == InsertAll(old(blocks), keys[..i], ids[..i]) && Distinct(order) && forall k :: k in order <==> k in blocks
      {
        assert keys[..i + 1][..i] == keys[..i] && ids[..i + 1][..i] == ids[..i];
        if keys[i] !in blocks {
          order := order + [keys[i]];
        }
        blocks := blocks[keys[i] := Block(-1, ids[i])];
      }
      assert keys[..|keys|] == keys && ids[..|ids|] == ids;
    }

    /** The second half of prepare_store. */
    method StoreMissing(keys: seq<Key>, evicted: seq<Key>) returns (ids: seq<nat>)
      requires Valid() && Distinct(evicted) && (forall k :: k in evicted ==> k in blocks) && (forall k :: k in keys ==> k !in blocks)
      requires |keys| <= NumFree() + |evicted|
      modifies this`blocks, this`order, this`freeList, this`issued
      ensures |ids| == |keys| && blocks == InsertAll(old(blocks) - Elements(evicted), keys, ids)
      ensures Valid() <==> Distinct(keys)
      ensures Distinct(keys) ==> order == Without(old(order), Elements(evicted)) + keys
    {
      hide Pooled, Distinct, Elements, Taken, InsertAll;
      Drop(evicted);
      ghost var before := blocks;
      ghost var free, was := freeList, issued;
      ids := Allocate(|keys|);
      InsertNew(keys, ids);
      ElementsAre(keys);
      StoreKeepsPool(before, free, was, keys, ids, freeList, issued);
    }

    /** What prepare_store evicts: nothing, or the oldest evictable blocks that are too many. */
    ghost function Victims(keys: seq<Key>): (r: Option<seq<Key>>)
      requires Valid()
      reads this
    {
      var n := |Without(keys, blocks.Keys)| - NumFree();
      var all := Evictable(order, blocks, Elements(keys));
      if Without(keys, blocks.Keys) == [] || n <= 0 then Some([]) else if n <= |all| then Some(all[..n]) else None
    }

    /** prepare_store.  It stores all keys that are missing or changes nothing at all. */
    method PrepareStore(keys: seq<Key>) returns (result: Option<Stored>)
      requires Valid()
      modifies this`blocks, this`order, this`freeList, this`issued
      ensures result == None <==> old(Victims(keys)) == None
      ensures result == None <==>
        var missing := Without(keys, old(blocks).Keys);
        missing != [] && |missing| > old(NumFree()) + |Idle(old(blocks), Elements(keys))|
      ensures result == None ==> blocks == old(blocks) && order == old(order) && freeList == old(freeList) && issued == old(issued)
      ensures result != None ==>
        && result.value.keys == Without(keys, old(blocks).Keys) && Some(result.value.evicted) == old(Victims(keys))
        && |result.value.ids| == |result.value.keys|
        && blocks == InsertAll(old(blocks) - Elements(result.value.evicted), result.value.keys, result.value.ids)
        && (Valid() <==> Distinct(result.value.keys))
        && LeastRecent(old(order), old(blocks), Elements(keys), |result.value.evicted|, result.value.evicted)
        && (result.value.evicted == [] || |result.value.keys| == old(NumFree()) + |result.value.evicted|)
        && (Distinct(result.value.keys) ==> order == Without(old(order), Elements(result.value.evicted)) + result.value.keys)
        && (forall k :: k in keys ==> k in blocks)
        && (forall k :: k in old(blocks) && (old(blocks)[k].refCnt != 0 || k in keys) ==> k in blocks && blocks[k] == old(blocks)[k])
    {
      NoneEvicted(order, blocks, Elements(keys));
      IdleCount(order, blocks, Elements(keys));
      hide Pooled, Distinct, Evictable, Elements, Without, InsertAll, LeastRecent, Idle;
      NothingStored(blocks);
      var toStore := Without(keys, blocks.Keys);
      if toStore == [] {
        AllThere(keys, blocks);
        return Some(Stored([], [], []));
      }
      var tooMany := |toStore| - NumFree();
      var evicted := [];
      if tooMany > 0 {
        var victims := Evict(tooMany, Elements(keys));
        if victims == None {
          return None;
        }
        evicted := victims.value;
        EvictableIs(order, blocks, Elements(keys));
        ElementsAre(keys);
        DistinctPrefix(Evictable(order, blocks, Elements(keys)), tooMany);
      }
      var ids := StoreMissing(toStore, evicted);
      StoreSpares(old(blocks), keys, ids, evicted);
      result := Some(Stored(toStore, ids, evicted));
    }

    /** touch: the keys become the most recently used, the first of them the most recent. */
    method Touch(keys: seq<Key>)
      requires Valid()
      modifies this`order
      ensures Valid()
      ensures forall a, b :: a in blocks && b in blocks && a != b ==>
        (Older(order, a, b) <==> if a in keys || b in keys then FirstBefore(keys, b, a) else Older(old(order), a, b))
    {
      hide Pooled, Distinct;
      assert keys[|keys|..] == [];
      for i := |keys| downto 0
        invariant Distinct(order) && forall k :: k in order <==> k in blocks
        invariant forall a, b :: a in blocks && b in blocks && a != b ==>
          (Older(order, a, b) <==> if a in keys[i..] || b in keys[i..] then FirstBefore(keys[i..], b, a) else Older(old(order), a, b))
      {
        assert keys[i..] == [keys[i]] + keys[i + 1..];
        ghost var was := order;
        if keys[i] in blocks {
          MovedLast(order, keys[i]);
          order := Without(order, {keys[i]}) + [keys[i]];
        }
        forall a, b | a in blocks && b in blocks && a != b
          ensures Older(order, a, b) <==> if a in keys[i..] || b in keys[i..] then FirstBefore(keys[i..], b, a) else Older(old(order), a, b)
        {
          FirstBeforeMore(keys[i], keys[i + 1..], b, a);
          assert Older(order, a, b) <==> keys[i] != a && (keys[i] == b || Older(was, a, b));
        }
      }
      assert keys[0..] == keys;
    }

    /** retain: one more use of each key that is ready. */
    method Retain(keys: set<Key>) returns (retained: set<Key>)
      requires Valid()
      modifies this`blocks
      ensures Valid() && retained == (set k | k in keys && k in old(blocks) && old(blocks)[k].Ready())
      ensures blocks == Bumped(old(blocks), retained, 1)
    {
      hide Pooled, Distinct;
      retained := {};
      var todo := keys;
      while todo != {}
        invariant todo <= keys && retained == (set k | k in keys - todo && k in old(blocks) && old(blocks)[k].Ready())
        invariant blocks == Bumped(old(blocks), retained, 1)
      {
        var k :| k in todo;
        if k in blocks && blocks[k].Ready() {
          blocks := blocks[k := blocks[k].(refCnt := blocks[k].refCnt + 1)];
          retained := retained + {k};
        }
        todo := todo - {k};
      }
      StillPooled(old(blocks), blocks, freeList, issued);
    }

    /** release: the assertion, then one use less of each key. */
    method Release(keys: set<Key>) returns (ok: bool)
      requires Valid()
      modifies this`blocks
      ensures Valid() && (ok <==> forall k :: k in keys ==> k in old(blocks) && old(blocks)[k].refCnt > 0)
      ensures blocks == if ok then Bumped(old(blocks), keys, -1) else old(blocks)
    {
      hide Pooled, Distinct;
      if exists k :: k in keys && !(k in blocks && blocks[k].refCnt > 0) {
        return false;
      }
      var todo := keys;
      while todo != {}
        invariant todo <= keys && blocks == Bumped(old(blocks), keys - todo, -1)
      {
        var k :| k in todo;
        blocks := blocks[k := blocks[k].(refCnt := blocks[k].refCnt - 1)];
        todo := todo - {k};
      }
      assert keys - todo == keys;
      StillPooled(old(blocks), blocks, freeList, issued);
      ok := true;
    }

    /** prepare_load: one more use per key, up to the first that is missing or not ready. */
    method PrepareLoad(keys: seq<Key>) returns (done: nat)
      requires Valid()
      modifies this`blocks
      ensures Valid() && done <= |keys| && blocks == Used(old(blocks), keys[..done], true)
      ensures forall i :: 0 <= i < done ==> keys[i] in old(blocks) && old(blocks)[keys[i]].Ready()
      ensures done < |keys| ==> !(keys[done] in old(blocks) && old(blocks)[keys[done]].Ready())
    {
      hide Pooled, Distinct, Used;
      NotUsed(blocks, keys);
      for i := 0 to |keys|
        invariant blocks == Used(old(blocks), keys[..i], true)
        invariant forall j :: 0 <= j < i ==> keys[j] in old(blocks) && old(blocks)[keys[j]].Ready()
      {
        var k := keys[i];
        UsedIs(old(blocks), keys[..i], true);
        if k !in blocks || !blocks[k].Ready() {
          StillPooled(old(blocks), blocks, freeList, issued);
          return i;
        }
        UsedNext(old(blocks), keys, i, true);
        blocks := blocks[k := blocks[k].(refCnt := blocks[k].refCnt + 1)];
      }
      UsedIs(old(blocks), keys[..|keys|], true);
      StillPooled(old(blocks), blocks, freeList, issued);
      done := |keys|;
    }

    /** complete_load: one use less per key, up to the first that has none. */
    method CompleteLoad(keys: seq<Key>) returns (done: nat)
      requires Valid()
      modifies this`blocks
      ensures Valid() && done <= |keys| && blocks == Used(old(blocks), keys[..done], false)
      ensures done < |keys| ==> keys[done] !in old(blocks) || old(blocks)[keys[done]].refCnt <= multiset(keys[..done])[keys[done]]
    {
      hide Pooled, Distinct, Used;
      NotUsed(blocks, keys);
      for i := 0 to |keys|
        invariant blocks == Used(old(blocks), keys[..i], false) && forall k :: k in blocks ==> blocks[k].refCnt >= -1
      {
        var k := keys[i];
        UsedIs(old(blocks), keys[..i], false);
        if k !in blocks || blocks[k].refCnt <= 0 {
          StillPooled(old(blocks), blocks, freeList, issued);
          return i;
        }
        UsedNext(old(blocks), keys, i, false);
        blocks := blocks[k := blocks[k].(refCnt := blocks[k].refCnt - 1)];
      }
      UsedIs(old(blocks), keys[..|keys|], false);
      StillPooled(old(blocks), blocks, freeList, issued);
      done := |keys|;
    }

    /** complete_store.  Only blocks that are being written are touched: they become readable, or are given back. */
    method CompleteStore(keys: seq<Key>, success: bool)
      requires Valid()
      modifies this`blocks, this`order, this`freeList
      ensures Valid() && blocks == if success then Readable(old(blocks), keys) else GivenBack(old(blocks), keys)
    {
      hide Pooled, Distinct, Readable, GivenBack;
      NothingCompleted(blocks, keys);
      for i := 0 to |keys|
        invariant Valid() && blocks == if success then Readable(old(blocks), keys[..i]) else GivenBack(old(blocks), keys[..i])
      {
        var k := keys[i];
        CompletedNext(old(blocks), keys, i);
        if k in blocks && !blocks[k].Ready() {
          if success {
            ghost var before := blocks;
            blocks := blocks[k := blocks[k].(refCnt := 0)];
            StillPooled(before, blocks, freeList, issued);
          } else {
            OneKey(k);
            Drop([k]);
          }
        }
      }
      assert keys[..|keys|] == keys;
    }

    /** reset_cache. */
    method ResetCache()
      modifies this`blocks, this`order, this`freeList, this`issued
      ensures Valid() && blocks == map[]
    {
      blocks, order, freeList, issued := map[], [], [], 0;
    }
  }

  /** move_to_end. */
  lemma MovedLast(order: seq<Key>, k: Key)
    requires Distinct(order) && k in order
    ensures Distinct(Without(order, {k}) + [k]) && forall x :: x in Without(order, {k}) + [k] <==> x in order
    ensures forall a, b :: a in order && b in order && a != b ==>
      (Older(Without(order, {k}) + [k], a, b) <==> k != a && (k == b || Older(order, a, b)))
  {
    forall a, b | a in order && b in order && a != b
      ensures Older(Without(order, {k}) + [k], a, b) <==> k != a && (k == b || Older(order, a, b))
    {
      OlderAppend(Without(order, {k}), k, a, b);
      WithoutKeepsOrder(order, {k}, a, b);
      hide Older;
    }
  }

  lemma NoneEvicted(order: seq<Key>, blocks: map<Key, Block>, protect: set<Key>)
    ensures LeastRecent(order, blocks, protect, 0, []) && Without(order, Elements([])) == order
  {
    WithoutNone(order);
  }

  lemma {:induction false} WithoutNone(order: seq<Key>)
    ensures Without(order, {}) == order && Elements<Key>([]) == {}
  {
    if order != [] {
      var init, last := order[..|order| - 1], order[|order| - 1];
      WithoutNone(init);
      assert order == init + [last];
    }
  }

  lemma OneKey(k: Key)
    ensures Distinct([k]) && Elements([k]) == {k}
  {
  }

  function Times(keys: seq<Key>, k: Key, up: bool): int {
    var n: int := multiset(keys)[k];
    if up then n else -n
  }

  /** One use more, or less, for each time a key is given. */
  function Used(blocks: map<Key, Block>, keys: seq<Key>, up: bool): map<Key, Block> {
    map k | k in blocks :: blocks[k].(refCnt := blocks[k].refCnt + Times(keys, k, up))
  }

  lemma NotUsed(blocks: map<Key, Block>, keys: seq<Key>)
    ensures blocks == Used(blocks, keys[..0], true) == Used(blocks, keys[..0], false)
  {
  }

  lemma UsedIs(blocks: map<Key, Block>, keys: seq<Key>, up: bool)
    ensures Used(blocks, keys, up).Keys == blocks.Keys
    ensures forall k :: k in blocks ==> Used(blocks, keys, up)[k].id == blocks[k].id
    ensures forall k :: k in blocks ==>
      Used(blocks, keys, up)[k].refCnt == blocks[k].refCnt + Times(keys, k, up)
  {
  }

  lemma UsedNext(blocks: map<Key, Block>, keys: seq<Key>, i: nat, up: bool)
    requires i < |keys| && keys[i] in blocks
    ensures var was, k := Used(blocks, keys[..i], up), keys[i];
            Used(blocks, keys[..i + 1], up) == was[k := was[k].(refCnt := was[k].refCnt + if up then 1 else -1)]
  {
    assert keys[..i + 1] == keys[..i] + [keys[i]];
    assert multiset(keys[..i + 1]) == multiset(keys[..i]) + multiset{keys[i]};
  }

  /** Of these keys, the blocks that were being written are readable. */
  function Readable(blocks: map<Key, Block>, keys: seq<Key>): map<Key, Block> {
    map k | k in blocks :: if k in keys && !blocks[k].Ready() then blocks[k].(refCnt := 0) else blocks[k]
  }

  /** Of these keys, the blocks that were being written are gone. */
  function GivenBack(blocks: map<Key, Block>, keys: seq<Key>): map<Key, Block> {
    map k | k in blocks && (k !in keys || blocks[k].Ready()) :: blocks[k]
  }

  lemma NothingCompleted(blocks: map<Key, Block>, keys: seq<Key>)
    ensures Readable(blocks, keys[..0]) == blocks == GivenBack(blocks, keys[..0])
  {
  }

  lemma CompletedNext(blocks: map<Key, Block>, keys: seq<Key>, i: nat)
    requires i < |keys|
    ensures var was, k := Readable(blocks, keys[..i]), keys[i];
            Readable(blocks, keys[..i + 1]) == if k in was && !was[k].Ready() then was[k := was[k].(refCnt := 0)] else was
    ensures var was, k := GivenBack(blocks, keys[..i]), keys[i];
            GivenBack(blocks, keys[..i + 1]) == if k in was && !was[k].Ready() then was - {k} else was
  {
    assert keys[..i + 1] == keys[..i] + [keys[i]];
  }

  /** The counts of some keys changed by d. */
  function Bumped(blocks: map<Key, Block>, keys: set<Key>, d: int): map<Key, Block> {
    map k | k in blocks :: if k in keys then blocks[k].(refCnt := blocks[k].refCnt + d) else blocks[k]
  }

  /** The pool does not look at the counts. */
  lemma StillPooled(blocks: map<Key, Block>, next: map<Key, Block>, free: seq<nat>, issued: nat)
    requires Pooled(blocks, free, issued) && next.Keys == blocks.Keys && forall k :: k in blocks ==> next[k].id == blocks[k].id
    ensures Pooled(next, free, issued)
  {
    assert |next| == |next.Keys| == |blocks.Keys|;
  }

  lemma AllThere(keys: seq<Key>, blocks: map<Key, Block>)
    requires Without(keys, blocks.Keys) == []
    ensures forall k :: k in keys ==> k in blocks
  {
    assert forall k :: k in keys && k !in blocks ==> k in Without(keys, blocks.Keys);
  }

  lemma DistinctPrefix(s: seq<Key>, n: nat)
    requires Distinct(s) && n <= |s|
    ensures Distinct(s[..n]) && forall k :: k in s[..n] ==> k in s
  {
  }

  /** A store spares what is in use and what it was asked to store. */
  lemma StoreSpares(blocks: map<Key, Block>, keys: seq<Key>, ids: seq<nat>, evicted: seq<Key>)
    requires |ids| == |Without(keys, blocks.Keys)| && forall k :: k in evicted ==> k in blocks && blocks[k].refCnt == 0 && k !in keys
    ensures var next := InsertAll(blocks - Elements(evicted), Without(keys, blocks.Keys), ids);
      && (forall k :: k in keys ==> k in next)
      && (forall k :: k in blocks && (blocks[k].refCnt != 0 || k in keys) ==> k in next && next[k] == blocks[k])
  {
    hide InsertAll, Without;
    var next := InsertAll(blocks - Elements(evicted), Without(keys, blocks.Keys), ids);
    forall k | k in keys && k !in blocks
      ensures k in next
    {
      assert k in Without(keys, blocks.Keys);
    }
  }

  lemma NothingStored(blocks: map<Key, Block>)
    ensures Distinct<Key>([]) && blocks - Elements([]) == blocks && InsertAll(blocks, [], []) == blocks
  {
  }

  lemma ElementsAre(keys: seq<Key>)
    ensures forall k :: k in Elements(keys) <==> k in keys
  {
  }
}