/** What holds of driver, handle cells and allocation table between the calls of the sleepable allocator
    (csrc/cumem_allocator.cpp, vllm/device_allocator/cumem.py). */
module PoolState {
  import opened Chunking
  import opened Sorting
  import opened GpuDriver

  /** The tuple that describes an allocation to Python: size, address and (cell, chunk size) pairs; and the
      tag that Python files it under. */
  datatype Tuple = Tuple(size: nat, dMem: nat, chunks: seq<(nat, nat)>, tag: string) {
    function Ptrs(): (r: seq<nat>)
      ensures |r| == |chunks| && forall i :: 0 <= i < |r| ==> r[i] == chunks[i].0
    {
      seq(|chunks|, i requires 0 <= i < |chunks| => chunks[i].0)
    }

    function Sizes(): (r: seq<nat>)
      ensures |r| == |chunks| && forall i :: 0 <= i < |r| ==> r[i] == chunks[i].1
    {
      seq(|chunks|, i requires 0 <= i < |chunks| => chunks[i].1)
    }

    /** Some chunk is at address a. */
    ghost predicate Covers(a: nat) {
      IsChunk(dMem, Sizes(), |chunks|, a)
    }

    /** The tuple describes a reserved range tiled by its chunks, each with a cell of its own. */
    ghost predicate Describes(cells: map<nat, nat>, reserved: map<nat, nat>) {
      && size > 0 && dMem in reserved && reserved[dMem] == size
      && Prefix(Sizes(), |chunks|) == size && (forall i :: 0 <= i < |chunks| ==> chunks[i].1 > 0)
      && Distinct(Ptrs()) && (forall i :: 0 <= i < |chunks| ==> chunks[i].0 in cells)
    }

    ghost predicate HandlesDiffer(cells: map<nat, nat>) {
      forall i, j :: 0 <= i < j < |chunks| && chunks[i].0 in cells && chunks[j].0 in cells ==> cells[chunks[i].0] != cells[chunks[j].0]
    }

    /** Every chunk is mapped at its place, backed by the live handle in its cell. */
    ghost predicate Awake(gpu: Gpu, cells: map<nat, nat>) {
      forall i :: 0 <= i < |chunks| ==> ChunkAwake(gpu, cells, i)
    }

    ghost predicate ChunkAwake(gpu: Gpu, cells: map<nat, nat>, i: nat)
      requires i < |chunks|
    {
      var a := ChunkAddr(dMem, Sizes(), i);
      && chunks[i].0 in cells && a in gpu.mapped
      && gpu.mapped[a] == Mapping(chunks[i].1, cells[chunks[i].0]) && cells[chunks[i].0] in gpu.live
    }
  }

  ghost predicate RangesDisjoint(reserved: map<nat, nat>) {
    && (forall b :: b in reserved ==> reserved[b] > 0)
    && (forall b, b' :: b in reserved && b' in reserved && b != b' ==> b + reserved[b] <= b' || b' + reserved[b'] <= b)
  }

  /** The cell holding handle h belongs to the allocation at p. */
  ghost predicate Holds(cells: map<nat, nat>, t: Tuple, h: nat) {
    exists i :: 0 <= i < |t.chunks| && t.chunks[i].0 in cells && cells[t.chunks[i].0] == h
  }

  ghost predicate CellsDisjoint(t: Tuple, t': Tuple) {
    forall i, j :: 0 <= i < |t.chunks| && 0 <= j < |t'.chunks| ==> t.chunks[i].0 != t'.chunks[j].0
  }

  ghost predicate AllDead(gpu: Gpu, cells: map<nat, nat>, t: Tuple) {
    forall h: nat :: Holds(cells, t, h) ==> h < gpu.issued && h !in gpu.live
  }

  /** No handle is held by two allocations. */
  ghost predicate OneHolder(cells: map<nat, nat>, table: map<nat, Tuple>, awake: set<nat>)
    requires awake <= table.Keys
  {
    forall p, q, h: nat :: p in awake && q in awake && Holds(cells, table[p], h) && Holds(cells, table[q], h) ==> p == q
  }

  /** Every mapping and every live handle belongs to an allocation that is awake. */
  ghost predicate Accounted(gpu: Gpu, cells: map<nat, nat>, table: map<nat, Tuple>, awake: set<nat>)
    requires awake <= table.Keys
  {
    && (forall a :: a in gpu.mapped ==> exists p :: p in awake && table[p].Covers(a))
    && (forall h :: h in gpu.live ==> exists p :: p in awake && Holds(cells, table[p], h))
  }

  /** Between calls the driver maps exactly the chunks, and keeps exactly the handles, of the allocations
      that are awake; no handle backs two chunks, and a cell left over from before a sleep holds a dead one. */
  ghost predicate Sound(gpu: Gpu, cells: map<nat, nat>, table: map<nat, Tuple>, awake: set<nat>) {
    && gpu.Valid() && RangesDisjoint(gpu.reserved) && awake <= table.Keys
    && (forall p :: p in table ==> table[p].dMem == p && table[p].Describes(cells, gpu.reserved))
    && (forall p, q :: p in table && q in table && p != q ==> CellsDisjoint(table[p], table[q]))
    && (forall p :: p in awake ==> table[p].Awake(gpu, cells) && table[p].HandlesDiffer(cells))
    && OneHolder(cells, table, awake)
    && (forall p :: p in table && p !in awake ==> AllDead(gpu, cells, table[p]))
    && Accounted(gpu, cells, table, awake)
  }

  /** Chunks lie inside their range. */
  lemma ChunkInRange(t: Tuple, cells: map<nat, nat>, reserved: map<nat, nat>, k: nat)
    requires t.Describes(cells, reserved) && k < |t.chunks|
    ensures t.dMem <= ChunkAddr(t.dMem, t.Sizes(), k)
    ensures ChunkAddr(t.dMem, t.Sizes(), k) + t.chunks[k].1 <= t.dMem + t.size
  {
    PrefixMonotone(t.Sizes(), k, |t.chunks|);
  }

  lemma ChunksDistinct(t: Tuple, cells: map<nat, nat>, reserved: map<nat, nat>)
    requires t.Describes(cells, reserved)
    ensures AddressesDistinct(t.dMem, t.Sizes(), |t.chunks|)
  {
    forall k, k' | 0 <= k < k' < |t.chunks|
      ensures ChunkAddr(t.dMem, t.Sizes(), k) != ChunkAddr(t.dMem, t.Sizes(), k')
    {
      PrefixMonotone(t.Sizes(), k, k');
    }
  }

  /** An address belongs to the chunks of one allocation only. */
  lemma CoveredOnce(gpu: Gpu, cells: map<nat, nat>, t: Tuple, t': Tuple, a: nat)
    requires RangesDisjoint(gpu.reserved) && t.Describes(cells, gpu.reserved) && t'.Describes(cells, gpu.reserved)
    requires t.Covers(a) && t'.Covers(a)
    ensures t.dMem == t'.dMem
  {
    var k :| 0 <= k < |t.chunks| && a == ChunkAddr(t.dMem, t.Sizes(), k);
    var k' :| 0 <= k' < |t'.chunks| && a == ChunkAddr(t'.dMem, t'.Sizes(), k');
    ChunkInRange(t, cells, gpu.reserved, k);
    ChunkInRange(t', cells, gpu.reserved, k');
  }

  /** Chunks of one allocation stay clear of the range of another. */
  lemma ChunkClear(gpu: Gpu, cells: map<nat, nat>, t: Tuple, other: Tuple, a: nat)
    requires RangesDisjoint(gpu.reserved) && t.Describes(cells, gpu.reserved) && other.Describes(cells, gpu.reserved)
    requires t.dMem != other.dMem && other.Awake(gpu, cells) && other.Covers(a)
    ensures a in gpu.mapped && gpu.mapped[a].size > 0 && (a + gpu.mapped[a].size <= t.dMem || t.dMem + t.size <= a)
  {
    ChunkWithin(gpu, cells, other, a);
  }

  /** A sleeping allocation has its whole range free. */
  lemma AsleepIsFeasible(gpu: Gpu, cells: map<nat, nat>, table: map<nat, Tuple>, awake: set<nat>, p: nat)
    requires Sound(gpu, cells, table, awake) && p in table && p !in awake
    ensures Feasible(gpu.reserved, gpu.mapped, p, table[p].Sizes())
  {
    hide Tuple.Covers, Tuple.Awake, Holds, CellsDisjoint;
    forall a | a in gpu.mapped
      ensures gpu.mapped[a].size > 0 && (a + gpu.mapped[a].size <= p || p + table[p].size <= a)
    {
      var q :| q in awake && table[q].Covers(a);
      ChunkClear(gpu, cells, table[p], table[q], a);
    }
  }

  ghost predicate ByteMapped(gpu: Gpu, b: nat) {
    exists a :: a in gpu.mapped && a <= b < a + gpu.mapped[a].size
  }

  /** All or nothing: the bytes of an allocation are all mapped if it is awake, and none is if it is not. */
  lemma RangeAllOrNothing(gpu: Gpu, cells: map<nat, nat>, table: map<nat, Tuple>, awake: set<nat>, p: nat, b: nat)
    requires Sound(gpu, cells, table, awake) && p in table && p <= b < p + table[p].size
    ensures ByteMapped(gpu, b) <==> p in awake
  {
    var t := table[p];
    if p in awake {
      var k := ChunkAround(t.dMem, t.Sizes(), |t.chunks|, b);
      assert t.ChunkAwake(gpu, cells, k);
      assert gpu.mapped[ChunkAddr(p, t.Sizes(), k)].size == t.chunks[k].1;
    } else if ByteMapped(gpu, b) {
      AsleepIsFeasible(gpu, cells, table, awake, p);
    }
  }

  lemma {:induction false} ChunkAround(dMem: nat, sizes: seq<nat>, n: nat, b: nat) returns (k: nat)
    requires n <= |sizes| && dMem <= b < dMem + Prefix(sizes, n)
    ensures k < n && ChunkAddr(dMem, sizes, k) <= b < ChunkAddr(dMem, sizes, k) + sizes[k]
  {
    if ChunkAddr(dMem, sizes, n - 1) <= b {
      k := n - 1;
    } else {
      k := ChunkAround(dMem, sizes, n - 1, b);
    }
  }

  /** next is gpu without the chunks and handles of t. */
  ghost predicate Without(gpu: Gpu, cells: map<nat, nat>, t: Tuple, next: Gpu) {
    && next == gpu.(mapped := next.mapped, live := next.live)
    && (forall a :: a in next.mapped <==> a in gpu.mapped && !t.Covers(a))
    && (forall a :: a in next.mapped ==> next.mapped[a] == gpu.mapped[a])
    && (forall h :: h in next.live <==> h in gpu.live && !Holds(cells, t, h))
  }

  lemma StaysAwake(gpu: Gpu, cells: map<nat, nat>, t: Tuple, next: Gpu, other: Tuple)
    requires RangesDisjoint(gpu.reserved) && t.Describes(cells, gpu.reserved) && other.Describes(cells, gpu.reserved)
    requires t.dMem != other.dMem && other.Awake(gpu, cells) && Without(gpu, cells, t, next)
    requires forall h: nat :: Holds(cells, other, h) ==> !Holds(cells, t, h)
    ensures other.Awake(next, cells)
  {
    forall i | 0 <= i < |other.chunks|
      ensures other.ChunkAwake(next, cells, i)
    {
      assert other.ChunkAwake(gpu, cells, i);
      var a := ChunkAddr(other.dMem, other.Sizes(), i);
      if t.Covers(a) {
        CoveredOnce(gpu, cells, t, other, a);
      }
      assert Holds(cells, other, cells[other.chunks[i].0]);
    }
  }

  lemma HeldIsLive(gpu: Gpu, cells: map<nat, nat>, t: Tuple, h: nat)
    requires t.Awake(gpu, cells) && Holds(cells, t, h)
    ensures h in gpu.live
  {
    var i :| 0 <= i < |t.chunks| && t.chunks[i].0 in cells && cells[t.chunks[i].0] == h;
    assert t.ChunkAwake(gpu, cells, i);
  }

  /** Putting an allocation to sleep. */
  lemma SleepKeepsSound(gpu: Gpu, cells: map<nat, nat>, table: map<nat, Tuple>, awake: set<nat>, p: nat, next: Gpu)
    requires Sound(gpu, cells, table, awake) && p in awake && Without(gpu, cells, table[p], next)
    ensures Sound(next, cells, table, awake - {p})
  {
    hide Tuple.Describes, Tuple.Awake, Tuple.HandlesDiffer, Tuple.Covers, Holds, CellsDisjoint, RangesDisjoint;
    forall q | q in awake - {p}
      ensures table[q].Awake(next, cells)
    {
      StaysAwake(gpu, cells, table[p], next, table[q]);
    }
    forall h: nat | Holds(cells, table[p], h)
      ensures h < gpu.issued
    {
      HeldIsLive(gpu, cells, table[p], h);
    }
  }

  /** next is gpu with the chunks of t mapped, on the fresh handles that its cells now hold. */
  ghost predicate With(gpu: Gpu, cells: map<nat, nat>, t: Tuple, next: Gpu, after: map<nat, nat>) {
    && next.Valid() && next.issued >= gpu.issued && RangesDisjoint(next.reserved) && t.Describes(after, next.reserved)
    && (forall b :: b in gpu.reserved ==> b in next.reserved && next.reserved[b] == gpu.reserved[b])
    && (forall c :: c in cells && c !in t.Ptrs() ==> c in after && after[c] == cells[c])
    && (forall i :: 0 <= i < |t.chunks| ==> after[t.chunks[i].0] == gpu.issued + i)
    && t.Awake(next, after)
    && (forall a :: a in gpu.mapped ==> a in next.mapped && next.mapped[a] == gpu.mapped[a])
    && (forall a :: a in next.mapped && a !in gpu.mapped ==> t.Covers(a))
    && gpu.live <= next.live
    && (forall h :: h in next.live && h !in gpu.live ==> Holds(after, t, h))
  }

  /** An allocation shows the same of itself as before. */
  ghost predicate Carried(gpu: Gpu, cells: map<nat, nat>, next: Gpu, after: map<nat, nat>, t: Tuple)
    requires t.Describes(cells, gpu.reserved)
  {
    && t.Describes(after, next.reserved)
    && (t.HandlesDiffer(cells) ==> t.HandlesDiffer(after))
    && (forall h: nat :: Holds(after, t, h) <==> Holds(cells, t, h))
    && (t.Awake(gpu, cells) ==> t.Awake(next, after))
    && (AllDead(gpu, cells, t) ==> AllDead(next, after, t))
  }

  /** It does if its cells, its reservation and its mappings are still there. */
  lemma Untouched(gpu: Gpu, cells: map<nat, nat>, next: Gpu, after: map<nat, nat>, t: Tuple)
    requires t.Describes(cells, gpu.reserved)
    requires t.dMem in next.reserved && next.reserved[t.dMem] == gpu.reserved[t.dMem] && gpu.live <= next.live
    requires forall a :: a in gpu.mapped ==> a in next.mapped && next.mapped[a] == gpu.mapped[a]
    requires forall i :: 0 <= i < |t.chunks| ==> t.chunks[i].0 in after && cells[t.chunks[i].0] == after[t.chunks[i].0]
    requires next.issued >= gpu.issued && forall h: nat :: h in next.live && h !in gpu.live ==> h >= gpu.issued
    ensures Carried(gpu, cells, next, after, t)
  {
    if t.Awake(gpu, cells) {
      forall i | 0 <= i < |t.chunks|
        ensures t.ChunkAwake(next, after, i)
      {
        assert t.ChunkAwake(gpu, cells, i);
      }
    }
  }

  lemma FreshHandles(gpu: Gpu, cells: map<nat, nat>, t: Tuple, next: Gpu, after: map<nat, nat>)
    requires With(gpu, cells, t, next, after)
    ensures t.HandlesDiffer(after)
    ensures forall h: nat :: Holds(after, t, h) ==> h >= gpu.issued
  {
  }

  /** Waking an allocation, or making a new one: t is not awake before and is after. */
  lemma WakeKeepsSound(gpu: Gpu, cells: map<nat, nat>, table: map<nat, Tuple>, awake: set<nat>, t: Tuple, next: Gpu, after: map<nat, nat>)
    requires Sound(gpu, cells, table, awake) && t.dMem !in awake && With(gpu, cells, t, next, after)
    requires forall q :: q in table && q != t.dMem ==> CellsDisjoint(table[q], t) && CellsDisjoint(t, table[q])
    ensures Sound(next, after, table[t.dMem := t], awake + {t.dMem})
  {
    hide Tuple.Describes, Tuple.Awake, Tuple.HandlesDiffer, Tuple.Covers, AllDead, Holds, CellsDisjoint, RangesDisjoint, OneHolder, Accounted;
    forall q | q in table && q != t.dMem
      ensures Carried(gpu, cells, next, after, table[q])
      ensures q in awake ==> forall h: nat :: Holds(after, table[q], h) ==> h < gpu.issued
    {
      CarriedByWake(gpu, cells, t, next, after, table[q]);
    }
    FreshHandles(gpu, cells, t, next, after);
    WakeOneHolder(cells, table, awake, t, after, gpu.issued);
    WakeAccounts(gpu, cells, table, awake, t, next, after);
  }

  lemma OneHolderStays(cells: map<nat, nat>, table: map<nat, Tuple>, awake: set<nat>, after: map<nat, nat>, next: map<nat, Tuple>)
    requires awake <= table.Keys && awake <= next.Keys && OneHolder(cells, table, awake)
    requires forall q :: q in awake ==> next[q] == table[q]
    requires forall q, h: nat :: q in awake && Holds(after, table[q], h) ==> Holds(cells, table[q], h)
    ensures OneHolder(after, next, awake)
  {
    hide Holds;
  }

  lemma WakeAccounts(gpu: Gpu, cells: map<nat, nat>, table: map<nat, Tuple>, awake: set<nat>, t: Tuple, next: Gpu, after: map<nat, nat>)
    requires awake <= table.Keys && t.dMem !in awake && Accounted(gpu, cells, table, awake) && With(gpu, cells, t, next, after)
    requires forall q, h: nat :: q in awake && Holds(cells, table[q], h) ==> Holds(after, table[q], h)
    ensures Accounted(next, after, table[t.dMem := t], awake + {t.dMem})
  {
    hide Tuple.Describes, Tuple.Awake, Tuple.Covers, Holds, RangesDisjoint, Gpu.Valid;
    var now, all := table[t.dMem := t], awake + {t.dMem};
    assert t.dMem in all && now[t.dMem] == t;
    assert forall p :: p in awake ==> p in all && now[p] == table[p];
  }

  lemma AccountedStays(gpu: Gpu, cells: map<nat, nat>, table: map<nat, Tuple>, awake: set<nat>, next: Gpu, after: map<nat, nat>, fewer: map<nat, Tuple>)
    requires awake <= table.Keys && awake <= fewer.Keys && Accounted(gpu, cells, table, awake)
    requires next.mapped == gpu.mapped && next.live == gpu.live && forall q :: q in awake ==> fewer[q] == table[q]
    requires forall q, h: nat :: q in awake && Holds(cells, table[q], h) ==> Holds(after, table[q], h)
    ensures Accounted(next, after, fewer, awake)
  {
    hide Tuple.Covers, Holds;
  }

  lemma WakeOneHolder(cells: map<nat, nat>, table: map<nat, Tuple>, awake: set<nat>, t: Tuple, after: map<nat, nat>, issued: nat)
    requires awake <= table.Keys && t.dMem !in awake && OneHolder(cells, table, awake)
    requires forall q, h: nat :: q in awake && Holds(after, table[q], h) ==> Holds(cells, table[q], h) && h < issued
    requires forall h: nat :: Holds(after, t, h) ==> h >= issued
    ensures OneHolder(after, table[t.dMem := t], awake + {t.dMem})
  {
    hide Holds;
  }

  lemma CarriedByWake(gpu: Gpu, cells: map<nat, nat>, t: Tuple, next: Gpu, after: map<nat, nat>, other: Tuple)
    requires With(gpu, cells, t, next, after) && CellsDisjoint(other, t) && other.Describes(cells, gpu.reserved)
    ensures Carried(gpu, cells, next, after, other)
    ensures gpu.Valid() && other.Awake(gpu, cells) ==> forall h: nat :: Holds(after, other, h) ==> h < gpu.issued
  {
    forall i | 0 <= i < |other.chunks|
      ensures other.chunks[i].0 in after && cells[other.chunks[i].0] == after[other.chunks[i].0]
    {
      assert other.chunks[i].0 !in t.Ptrs();
    }
    FreshHandles(gpu, cells, t, next, after);
    Untouched(gpu, cells, next, after, other);
    if gpu.Valid() && other.Awake(gpu, cells) {
      forall h: nat | Holds(after, other, h)
        ensures h < gpu.issued
      {
        HeldIsLive(gpu, cells, other, h);
      }
    }
  }

  /** Dropping a sleeping allocation from the table, its cells and possibly its range freed. */
  lemma DropKeepsSound(gpu: Gpu, cells: map<nat, nat>, table: map<nat, Tuple>, awake: set<nat>, p: nat, next: Gpu, after: map<nat, nat>)
    requires Sound(gpu, cells, table, awake) && p in table && p !in awake
    requires next == gpu || next == gpu.(reserved := gpu.reserved - {p})
    requires after == cells - (set c | c in table[p].Ptrs())
    ensures Sound(next, after, table - {p}, awake)
  {
    hide Tuple.Describes, Tuple.Awake, Tuple.HandlesDiffer, Tuple.Covers, AllDead, Holds, CellsDisjoint, RangesDisjoint, OneHolder, Accounted;
    forall q | q in table && q != p
      ensures Carried(gpu, cells, next, after, table[q])
    {
      CarriedByDrop(gpu, cells, table[p], next, after, table[q]);
    }
    OneHolderStays(cells, table, awake, after, table - {p});
    AccountedStays(gpu, cells, table, awake, next, after, table - {p});
    FewerRanges(gpu.reserved, p);
  }

  lemma FewerRanges(reserved: map<nat, nat>, p: nat)
    requires RangesDisjoint(reserved)
    ensures RangesDisjoint(reserved - {p})
  {
  }

  lemma CarriedByDrop(gpu: Gpu, cells: map<nat, nat>, t: Tuple, next: Gpu, after: map<nat, nat>, other: Tuple)
    requires next == gpu || next == gpu.(reserved := gpu.reserved - {t.dMem})
    requires after == cells - (set c | c in t.Ptrs())
    requires t.dMem != other.dMem && CellsDisjoint(other, t) && other.Describes(cells, gpu.reserved)
    ensures Carried(gpu, cells, next, after, other)
  {
    Untouched(gpu, cells, next, after, other);
  }

  /** The driver has gained exactly one fresh handle per chunk, mapped at the chunk's place. */
  ghost predicate Backed(before: Gpu, after: Gpu, dMem: nat, ptrs: seq<nat>, sizes: seq<nat>, cells: map<nat, nat>) {
    && |ptrs| == |sizes| && (forall i :: 0 <= i < |ptrs| ==> ptrs[i] in cells && cells[ptrs[i]] == before.issued + i)
    && AddressesDistinct(dMem, sizes, |sizes|)
    && before.mapped.Keys !! ChunkMap(dMem, sizes, Handles(cells, ptrs), 0, |sizes|).Keys
    && after.mapped == before.mapped + ChunkMap(dMem, sizes, Handles(cells, ptrs), 0, |sizes|)
    && after.live == before.live + Issue(before.issued, before.issued + |ptrs|)
  }

  lemma BackedIsWith(gpu: Gpu, t: Tuple, next: Gpu, cells: map<nat, nat>, after: map<nat, nat>)
    requires t.Describes(cells, gpu.reserved) && Feasible(gpu.reserved, gpu.mapped, t.dMem, t.Sizes())
    requires RangesDisjoint(gpu.reserved) && next.Valid() && next.reserved == gpu.reserved && next.issued >= gpu.issued
    requires after.Keys == cells.Keys && forall c :: c in cells && c !in t.Ptrs() ==> after[c] == cells[c]
    requires Backed(gpu, next, t.dMem, t.Ptrs(), t.Sizes(), after)
    ensures With(gpu, cells, t, next, after)
  {
    var handles := Handles(after, t.Ptrs());
    forall i | 0 <= i < |t.chunks|
      ensures t.ChunkAwake(next, after, i)
    {
      ChunkMapValue(t.dMem, t.Sizes(), handles, 0, |t.chunks|, i);
    }
    forall a | a in next.mapped && a !in gpu.mapped
      ensures t.Covers(a)
    {
      ChunkMapKeys(t.dMem, t.Sizes(), handles, 0, |t.chunks|, a);
    }
    forall h: nat | h in next.live && h !in gpu.live
      ensures Holds(after, t, h)
    {
      assert after[t.chunks[h - gpu.issued].0] == h;
    }
  }

  /** Unmapping and releasing an allocation that is awake, the driver raising no error. */
  lemma {:induction false} UnmapIsWithout(gpu: Gpu, cells: map<nat, nat>, t: Tuple, fate: nat -> Status, c: nat)
    requires t.Describes(cells, gpu.reserved) && t.Awake(gpu, cells) && t.HandlesDiffer(cells)
    requires forall k :: c <= k < c + 2 * |t.chunks| ==> fate(k) == OK
    ensures var done := Teardown(gpu, cells, fate, c, t.dMem, t.Ptrs(), t.Sizes());
            Without(gpu, cells, t, done.gpu) && FirstError(done.statuses) == OK
  {
    AwakeCells(gpu, cells, t);
    hide UnmapAll, ReleaseAll, FirstError, Teardown, Without, Tuple.Covers, Holds, Tuple.Describes, Tuple.Awake, Tuple.HandlesDiffer;
    var unmapped := UnmapAll(gpu, fate, c, t.dMem, t.Sizes(), |t.chunks|);
    UnmapsChunks(gpu, cells, t, fate, c);
    var released := ReleaseAll(unmapped.gpu, fate, c + |t.chunks|, Handles(cells, t.Ptrs()), |t.chunks|);
    ReleasesHandles(unmapped.gpu, cells, t, fate, c + |t.chunks|);
    TeardownIs(gpu, cells, t, fate, c);
    BothPartsGone(gpu, unmapped.gpu, released.gpu, cells, t);
    AllFine(unmapped.statuses, released.statuses);
  }

  lemma TeardownIs(gpu: Gpu, cells: map<nat, nat>, t: Tuple, fate: nat -> Status, c: nat)
    requires forall i :: 0 <= i < |t.chunks| ==> t.chunks[i].0 in cells
    ensures var unmapped := UnmapAll(gpu, fate, c, t.dMem, t.Sizes(), |t.chunks|);
            var released := ReleaseAll(unmapped.gpu, fate, c + |t.chunks|, Handles(cells, t.Ptrs()), |t.chunks|);
            Teardown(gpu, cells, fate, c, t.dMem, t.Ptrs(), t.Sizes()) == Trail(unmapped.statuses + released.statuses, released.gpu)
  {
    hide UnmapAll, ReleaseAll;
  }

  lemma AwakeCells(gpu: Gpu, cells: map<nat, nat>, t: Tuple)
    requires t.Awake(gpu, cells)
    ensures forall i :: 0 <= i < |t.chunks| ==> t.chunks[i].0 in cells && cells[t.chunks[i].0] in gpu.live
  {
    forall i | 0 <= i < |t.chunks|
      ensures t.chunks[i].0 in cells && cells[t.chunks[i].0] in gpu.live
    {
      assert t.ChunkAwake(gpu, cells, i);
    }
  }

  lemma BothPartsGone(gpu: Gpu, middle: Gpu, next: Gpu, cells: map<nat, nat>, t: Tuple)
    requires middle == gpu.(mapped := middle.mapped) && next == middle.(live := next.live)
    requires forall a :: a in middle.mapped <==> a in gpu.mapped && !t.Covers(a)
    requires forall a :: a in middle.mapped ==> middle.mapped[a] == gpu.mapped[a]
    requires forall h: nat :: h in next.live <==> h in middle.live && !Holds(cells, t, h)
    ensures Without(gpu, cells, t, next)
  {
    hide Tuple.Covers, Holds;
  }

  lemma AllFine(a: seq<Status>, b: seq<Status>)
    requires (forall k :: 0 <= k < |a| ==> a[k] == OK) && forall k :: 0 <= k < |b| ==> b[k] == OK
    ensures FirstError(a + b) == OK
  {
    hide FirstError;
    var _ := FirstErrorIsFirst(a + b);
  }

  lemma {:induction false} UnmapsChunks(gpu: Gpu, cells: map<nat, nat>, t: Tuple, fate: nat -> Status, c: nat)
    requires t.Describes(cells, gpu.reserved) && t.Awake(gpu, cells)
    requires forall k :: c <= k < c + |t.chunks| ==> fate(k) == OK
    ensures var unmapped := UnmapAll(gpu, fate, c, t.dMem, t.Sizes(), |t.chunks|);
      && (forall a :: a in unmapped.gpu.mapped <==> a in gpu.mapped && !t.Covers(a))
      && (forall a :: a in unmapped.gpu.mapped ==> unmapped.gpu.mapped[a] == gpu.mapped[a])
      && (forall k :: 0 <= k < |t.chunks| ==> unmapped.statuses[k] == OK)
  {
    ChunksDistinct(t, cells, gpu.reserved);
    forall k | 0 <= k < |t.chunks|
      ensures MappedAt(gpu, t.dMem, t.Sizes(), k)
    {
      assert t.ChunkAwake(gpu, cells, k);
    }
    UnmapAllExact(gpu, fate, c, t.dMem, t.Sizes(), |t.chunks|);
    var unmapped := UnmapAll(gpu, fate, c, t.dMem, t.Sizes(), |t.chunks|);
    forall a: nat
      ensures a in unmapped.gpu.mapped <==> a in gpu.mapped && !t.Covers(a)
      ensures a in unmapped.gpu.mapped ==> unmapped.gpu.mapped[a] == gpu.mapped[a]
    {
      UnmapAllFrame(gpu, fate, c, t.dMem, t.Sizes(), |t.chunks|, a);
    }
  }

  lemma {:induction false} ReleasesHandles(gpu: Gpu, cells: map<nat, nat>, t: Tuple, fate: nat -> Status, c: nat)
    requires t.HandlesDiffer(cells) && forall i :: 0 <= i < |t.chunks| ==> t.chunks[i].0 in cells && cells[t.chunks[i].0] in gpu.live
    requires forall k :: c <= k < c + |t.chunks| ==> fate(k) == OK
    ensures var released := ReleaseAll(gpu, fate, c, Handles(cells, t.Ptrs()), |t.chunks|);
      && (forall h: nat :: h in released.gpu.live <==> h in gpu.live && !Holds(cells, t, h))
      && (forall k :: 0 <= k < |t.chunks| ==> released.statuses[k] == OK)
  {
    var handles := Handles(cells, t.Ptrs());
    ReleaseAllExact(gpu, fate, c, handles, |t.chunks|);
    forall h: nat
      ensures Holds(cells, t, h) <==> h in handles
    {
      if h in handles {
        var k :| 0 <= k < |handles| && handles[k] == h;
        assert cells[t.chunks[k].0] == h;
      }
      if Holds(cells, t, h) {
        var k :| 0 <= k < |t.chunks| && t.chunks[k].0 in cells && cells[t.chunks[k].0] == h;
        assert handles[k] == h;
      }
    }
    assert handles[..|t.chunks|] == handles;
  }

  lemma Entered(gpu: Gpu, cells: map<nat, nat>, table: map<nat, Tuple>, awake: set<nat>, p: nat)
    requires Sound(gpu, cells, table, awake) && p in table
    ensures table[p].dMem == p && |table[p].chunks| > 0 && table[p].Describes(cells, gpu.reserved)
  {
  }

  /** Of an allocation that sleeps the driver has no mapping and no handle. */
  lemma NothingAsleep(gpu: Gpu, cells: map<nat, nat>, table: map<nat, Tuple>, awake: set<nat>, p: nat, k: nat)
    requires Sound(gpu, cells, table, awake) && p in table && p !in awake && k < |table[p].chunks|
    ensures ChunkAddr(p, table[p].Sizes(), k) !in gpu.mapped
    ensures table[p].chunks[k].0 in cells && cells[table[p].chunks[k].0] !in gpu.live
  {
    var t := table[p];
    var a := ChunkAddr(p, t.Sizes(), k);
    assert t.Covers(a);
    assert AllDead(gpu, cells, t) && Holds(cells, t, cells[t.chunks[k].0]);
    if a in gpu.mapped {
      var q :| q in awake && table[q].Covers(a);
      CoveredOnce(gpu, cells, t, table[q], a);
    }
  }

  lemma {:induction false} UnmapNothing(gpu: Gpu, cells: map<nat, nat>, t: Tuple, fate: nat -> Status, c: nat)
    requires |t.chunks| > 0 && forall k :: 0 <= k < |t.chunks| ==> t.chunks[k].0 in cells && cells[t.chunks[k].0] !in gpu.live
    requires forall k :: 0 <= k < |t.chunks| ==> ChunkAddr(t.dMem, t.Sizes(), k) !in gpu.mapped
    ensures var done := Teardown(gpu, cells, fate, c, t.dMem, t.Ptrs(), t.Sizes());
            done.gpu == gpu && FirstError(done.statuses) != OK
  {
    hide UnmapAll, ReleaseAll, FirstError;
    var handles := Handles(cells, t.Ptrs());
    UnmapAbsent(gpu, fate, c, t.dMem, t.Sizes(), |t.chunks|);
    ReleaseDead(gpu, fate, c + |t.chunks|, handles, |t.chunks|);
    var unmapped := UnmapAll(gpu, fate, c, t.dMem, t.Sizes(), |t.chunks|);
    var released := ReleaseAll(unmapped.gpu, fate, c + |t.chunks|, handles, |t.chunks|);
    var first := FirstErrorIsFirst(unmapped.statuses + released.statuses);
    assert (unmapped.statuses + released.statuses)[0] == unmapped.statuses[0];
  }

  /** Of an allocation that sleeps nothing is left to unmap or release, whatever the driver does. */
  lemma UnmapAsleep(gpu: Gpu, cells: map<nat, nat>, table: map<nat, Tuple>, awake: set<nat>, p: nat, fate: nat -> Status, c: nat)
    requires Sound(gpu, cells, table, awake) && p in table && p !in awake
    ensures var done := Teardown(gpu, cells, fate, c, p, table[p].Ptrs(), table[p].Sizes());
            done.gpu == gpu && FirstError(done.statuses) != OK
  {
    hide Teardown, FirstError, Sound;
    Entered(gpu, cells, table, awake, p);
    var t := table[p];
    forall k | 0 <= k < |t.chunks|
      ensures ChunkAddr(p, t.Sizes(), k) !in gpu.mapped
      ensures t.chunks[k].0 in cells && cells[t.chunks[k].0] !in gpu.live
    {
      NothingAsleep(gpu, cells, table, awake, p, k);
    }
    UnmapNothing(gpu, cells, t, fate, c);
  }

  /** The driver hands out a range that is clear of the others. */
  predicate ClearPlace(reserved: map<nat, nat>, place: nat, size: nat) {
    forall b :: b in reserved ==> b + reserved[b] <= place || place + size <= b
  }

  /** A new allocation: its range has just been reserved and its cells have just been made. */
  ghost predicate Fresh(gpu: Gpu, cells: map<nat, nat>, t: Tuple, ready: Gpu, made: map<nat, nat>) {
    && ClearPlace(gpu.reserved, t.dMem, t.size) && ready == gpu.(reserved := gpu.reserved[t.dMem := t.size])
    && t.Describes(made, ready.reserved)
    && (forall i :: 0 <= i < |t.chunks| ==> t.chunks[i].0 !in cells)
    && (forall c :: c in cells ==> c in made && made[c] == cells[c])
  }

  lemma PlaceIsNew(reserved: map<nat, nat>, place: nat, size: nat)
    requires RangesDisjoint(reserved) && ClearPlace(reserved, place, size) && size > 0
    ensures place !in reserved && RangesDisjoint(reserved[place := size])
  {
  }

  /** A range that is reserved and not used. */
  lemma ReserveKeepsSound(gpu: Gpu, cells: map<nat, nat>, table: map<nat, Tuple>, awake: set<nat>, place: nat, size: nat)
    requires Sound(gpu, cells, table, awake) && ClearPlace(gpu.reserved, place, size) && size > 0
    ensures place !in table && Sound(gpu.(reserved := gpu.reserved[place := size]), cells, table, awake)
  {
    hide Tuple.Describes, Tuple.Awake, Tuple.HandlesDiffer, Tuple.Covers, AllDead, Holds, CellsDisjoint, RangesDisjoint;
    PlaceIsNew(gpu.reserved, place, size);
    var next := gpu.(reserved := gpu.reserved[place := size]);
    forall q | q in table
      ensures q != place && Carried(gpu, cells, next, cells, table[q])
    {
      CarriedByReserve(gpu, cells, table[q], place, size);
    }
  }

  lemma CarriedByReserve(gpu: Gpu, cells: map<nat, nat>, t: Tuple, place: nat, size: nat)
    requires t.Describes(cells, gpu.reserved) && place !in gpu.reserved
    ensures t.dMem != place && Carried(gpu, cells, gpu.(reserved := gpu.reserved[place := size]), cells, t)
  {
    Untouched(gpu, cells, gpu.(reserved := gpu.reserved[place := size]), cells, t);
  }

  lemma FreshIsFeasible(gpu: Gpu, cells: map<nat, nat>, table: map<nat, Tuple>, awake: set<nat>, t: Tuple, ready: Gpu, made: map<nat, nat>)
    requires Sound(gpu, cells, table, awake) && Fresh(gpu, cells, t, ready, made)
    ensures t.dMem !in table && t.dMem !in gpu.reserved && RangesDisjoint(ready.reserved)
    ensures Feasible(ready.reserved, ready.mapped, t.dMem, t.Sizes())
  {
    hide Tuple.Covers, Tuple.Awake, Holds, CellsDisjoint, AllDead, Tuple.HandlesDiffer, RangesDisjoint;
    PlaceIsNew(gpu.reserved, t.dMem, t.size);
    forall a | a in gpu.mapped
      ensures gpu.mapped[a].size > 0 && (a + gpu.mapped[a].size <= t.dMem || t.dMem + t.size <= a)
    {
      var q :| q in awake && table[q].Covers(a);
      ChunkWithin(gpu, cells, table[q], a);
    }
  }

  lemma ChunkWithin(gpu: Gpu, cells: map<nat, nat>, t: Tuple, a: nat)
    requires t.Describes(cells, gpu.reserved) && t.Awake(gpu, cells) && t.Covers(a)
    ensures a in gpu.mapped && gpu.mapped[a].size > 0 && t.dMem <= a && a + gpu.mapped[a].size <= t.dMem + t.size
  {
    var k :| 0 <= k < |t.chunks| && a == ChunkAddr(t.dMem, t.Sizes(), k);
    ChunkInRange(t, cells, gpu.reserved, k);
    assert t.ChunkAwake(gpu, cells, k);
  }

  /** Making a new allocation. */
  lemma MallocKeepsSound(gpu: Gpu, cells: map<nat, nat>, table: map<nat, Tuple>, awake: set<nat>,
                         t: Tuple, ready: Gpu, made: map<nat, nat>, next: Gpu, after: map<nat, nat>)
    requires Sound(gpu, cells, table, awake) && Fresh(gpu, cells, t, ready, made)
    requires next.Valid() && next.reserved == ready.reserved && next.issued >= gpu.issued
    requires after.Keys == made.Keys && forall c :: c in made && c !in t.Ptrs() ==> after[c] == made[c]
    requires Backed(ready, next, t.dMem, t.Ptrs(), t.Sizes(), after)
    ensures Sound(next, after, table[t.dMem := t], awake + {t.dMem})
  {
    hide Sound, Backed, With, Tuple.Describes, CellsDisjoint;
    FreshIsFeasible(gpu, cells, table, awake, t, ready, made);
    BackedIsWith(ready, t, next, made, after);
    NewCellsDiffer(gpu, cells, table, awake, t, ready, made);
    WithSinceBefore(gpu, cells, t, ready, made, next, after);
    WakeKeepsSound(gpu, cells, table, awake, t, next, after);
  }

  lemma WithSinceBefore(gpu: Gpu, cells: map<nat, nat>, t: Tuple, ready: Gpu, made: map<nat, nat>, next: Gpu, after: map<nat, nat>)
    requires Fresh(gpu, cells, t, ready, made) && With(ready, made, t, next, after) && t.dMem !in gpu.reserved
    ensures With(gpu, cells, t, next, after)
  {
  }

  lemma NewCellsDiffer(gpu: Gpu, cells: map<nat, nat>, table: map<nat, Tuple>, awake: set<nat>, t: Tuple, ready: Gpu, made: map<nat, nat>)
    requires Sound(gpu, cells, table, awake) && Fresh(gpu, cells, t, ready, made)
    ensures t.dMem !in awake
    ensures forall q :: q in table && q != t.dMem ==> CellsDisjoint(table[q], t) && CellsDisjoint(t, table[q])
  {
    FreshIsFeasible(gpu, cells, table, awake, t, ready, made);
    forall q | q in table
      ensures CellsDisjoint(table[q], t) && CellsDisjoint(t, table[q])
    {
      assert table[q].Describes(cells, gpu.reserved);
    }
  }
}
