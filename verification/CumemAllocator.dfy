/** The sleepable device-memory allocator, ROCm path (csrc/cumem_allocator.cpp): an allocation is a
    reserved address range backed by chunks, each chunk a driver handle mapped into the range; putting
    it to sleep unmaps and releases the chunks, waking it creates and maps new ones. */
module CumemAllocator {
  import opened Options
  import opened Chunking
  import opened Sorting
  import opened GpuDriver
  import opened PoolState

  type Content = seq<bv8>

  /** What a caller asks of the allocator. */
  datatype Op = Malloc(size: nat, place: nat, garbage: nat, junk: Content, hostCells: nat) | Sleeping(offload: Option<set<string>>)
              | Waking(wanted: Option<set<string>>, junk: Content) | Freeing(ptr: nat, size: nat)
              | Writing(ptr: nat, content: Content) | EnteringPool(tag: Option<string>) | LeavingPool

  /** The state between two of them, and what the last one freed. */
  datatype Snapshot = Snapshot(gpu: Gpu, cells: map<nat, nat>, table: map<nat, Tuple>, awake: set<nat>,
                               data: map<nat, Content>, backup: map<nat, Content>, tag: string, oldTags: seq<string>,
                               freed: Option<(Tuple, map<nat, nat>)>)

  const DEFAULT_TAG := "default"

  datatype Reply = Null | Address(value: nat) | DivisionByZero

  /** Where create_and_map stopped: at the end; at a failing create or map, undone; at the first chunk
      because of an error that was there before; or at cuMemSetAccess, not undone. */
  datatype Outcome = Mapped | RolledBack | StickyError | AccessFailed

  /** The first n cells hold the handles from first on, and other cells what they held. */
  ghost predicate Filled(before: map<nat, nat>, cells: map<nat, nat>, ptrs: seq<nat>, first: nat, n: nat)
    requires n <= |ptrs|
  {
    && cells.Keys == before.Keys && (forall i :: 0 <= i < n ==> ptrs[i] in cells && cells[ptrs[i]] == first + i)
    && (forall p :: p in cells && p !in ptrs ==> cells[p] == before[p])
  }

  lemma FilledNone(cells: map<nat, nat>, ptrs: seq<nat>, first: nat)
    ensures Filled(cells, cells, ptrs, first, 0)
  {
  }

  lemma FilledIs(before: map<nat, nat>, cells: map<nat, nat>, ptrs: seq<nat>, first: nat, n: nat)
    requires n <= |ptrs| && Filled(before, cells, ptrs, first, n)
    ensures forall i :: 0 <= i < n ==> ptrs[i] in cells && cells[ptrs[i]] == first + i
    ensures cells.Keys == before.Keys && forall p :: p in cells && p !in ptrs ==> cells[p] == before[p]
  {
  }

  lemma FilledNext(before: map<nat, nat>, cells: map<nat, nat>, ptrs: seq<nat>, first: nat, n: nat)
    requires n < |ptrs| && Distinct(ptrs) && ptrs[n] in cells && Filled(before, cells, ptrs, first, n)
    ensures Filled(before, cells[ptrs[n] := first + n], ptrs, first, n + 1)
  {
  }

  class Allocator {
    /** Status of the driver's n-th call on its own account: every behaviour of the driver is some fate. */
    const fate: nat -> Status
    var calls: nat
    var hasContext: bool
    var gpu: Gpu
    var errorCode: Status
    /** The malloc'd handle cells, by address; none is at nextCell or beyond. */
    var cells: map<nat, nat>
    var nextCell: nat
    const granularity: nat
    const setting: Setting
    /** pointer_to_data on the Python side. */
    var table: map<nat, Tuple>
    /** The allocations that are mapped. */
    ghost var awake: set<nat>
    var currentTag: string
    /** The tags that the memory pools in use will put back, innermost last. */
    var oldTags: seq<string>
    /** The copies in host memory of allocations that sleep. */
    var backup: map<nat, Content>
    /** What the device memory of each mapped allocation contains. */
    var data: map<nat, Content>

    /** What every run keeps as long as no driver call fails. */
    ghost predicate Valid()
      reads this
    {
      errorCode == OK && CellsBelow() && Sound(gpu, cells, table, awake)
    }

    ghost predicate CellsBelow()
      reads this`cells, this`nextCell
    {
      forall c :: c in cells ==> c < nextCell
    }

    /** Exactly the mapped allocations have contents. */
    ghost predicate Filed()
      reads this`data, this`awake
    {
      data.Keys == awake
    }

    constructor (fate: nat -> Status, granularity: nat, setting: Setting)
      ensures Valid() && this.fate == fate && this.granularity == granularity && this.setting == setting
      ensures Filed() && table == map[] && gpu == Gpu(map[], map[], {}, 0) && currentTag == DEFAULT_TAG && oldTags == []
    {
      this.fate, this.granularity, this.setting := fate, granularity, setting;
      calls, hasContext, gpu, errorCode := 0, false, Gpu(map[], map[], {}, 0), OK;
      cells, nextCell, table, awake := map[], 0, map[], {};
      currentTag, oldTags, backup, data := DEFAULT_TAG, [], map[], map[];
      new;
      EmptyIsSound();
    }

    /** The driver raises no error of its own in calls from .. to - 1. */
    ghost predicate Quiet(from: nat, to: nat) {
      forall n :: from <= n < to ==> fate(n) == OK
    }

    method Call() returns (own: Status)
      modifies this`calls
      ensures own == fate(old(calls)) && calls == old(calls) + 1
    {
      own := fate(calls);
      calls := calls + 1;
    }

    /** CUDA_CHECK. */
    method Check(status: Status)
      modifies this`errorCode
      ensures errorCode == if status != OK then status else old(errorCode)
    {
      if status != OK {
        errorCode := status;
      }
    }

    method EnsureContext()
      modifies this`calls, this`errorCode, this`hasContext
      ensures calls == old(calls) + if old(hasContext) then 1 else 3
      ensures Quiet(old(calls), calls) ==> errorCode == old(errorCode)
      ensures old(errorCode) != OK ==> errorCode != OK
      ensures old(hasContext) ==> hasContext
    {
      var s := Call();
      Check(s);
      if !hasContext {
        s := Call();
        Check(s);
        s := Call();
        Check(s);
        hasContext := true;
      }
    }

    method MemCreate() returns (status: Status, handle: nat)
      modifies this`calls, this`gpu
      ensures calls == old(calls) + 1
      ensures (status, gpu) == old(gpu).Create(fate(old(calls))) && handle == old(gpu).issued
    {
      var own := Call();
      handle := gpu.issued;
      var r := gpu.Create(own);
      status, gpu := r.0, r.1;
    }

    method MemRelease(handle: nat) returns (status: Status)
      modifies this`calls, this`gpu
      ensures calls == old(calls) + 1
      ensures (status, gpu) == old(gpu).Release(fate(old(calls)), handle)
    {
      var own := Call();
      var r := gpu.Release(own, handle);
      status, gpu := r.0, r.1;
    }

    method MemMap(addr: nat, size: nat, handle: nat) returns (status: Status)
      modifies this`calls, this`gpu
      ensures calls == old(calls) + 1
      ensures (status, gpu) == old(gpu).Map(fate(old(calls)), addr, size, handle)
    {
      var own := Call();
      var r := gpu.Map(own, addr, size, handle);
      status, gpu := r.0, r.1;
    }

    method MemUnmap(addr: nat, size: nat) returns (status: Status)
      modifies this`calls, this`gpu
      ensures calls == old(calls) + 1
      ensures (status, gpu) == old(gpu).Unmap(fate(old(calls)), addr, size)
    {
      var own := Call();
      var r := gpu.Unmap(own, addr, size);
      status, gpu := r.0, r.1;
    }

    /** Release handles first .. first + n - 1 held in the first n cells, ignoring the statuses. */
    method ReleaseCreated(ptrs: seq<nat>, n: nat, ghost first: nat, ghost keep: set<nat>)
      requires n <= |ptrs| && forall j :: 0 <= j < n ==> ptrs[j] in cells && cells[ptrs[j]] == first + j
      requires gpu.live == keep + Issue(first, first + n) && keep !! Issue(first, first + n)
      modifies this`calls, this`gpu
      ensures calls == old(calls) + n
      ensures gpu == old(gpu).(live := gpu.live) && gpu.live <= old(gpu.live)
      ensures Quiet(old(calls), calls) ==> gpu.live == keep
    {
      for j := 0 to n
        invariant calls == old(calls) + j
        invariant gpu == old(gpu).(live := gpu.live) && gpu.live <= old(gpu.live)
        invariant Quiet(old(calls), calls) ==> gpu.live == keep + Issue(first + j, first + n)
      {
        var _ := MemRelease(cells[ptrs[j]]);
      }
    }

    /** First loop of create_and_map: one handle per chunk, or none. */
    method CreateHandles(ptrs: seq<nat>) returns (ok: bool, ghost failedAt: nat)
      requires Distinct(ptrs) && gpu.Valid()
      requires forall i :: 0 <= i < |ptrs| ==> ptrs[i] in cells
      modifies this`calls, this`gpu, this`errorCode, this`cells
      ensures gpu.Valid() && gpu == old(gpu).(live := gpu.live, issued := gpu.issued) && gpu.issued >= old(gpu.issued)
      ensures cells.Keys == old(cells.Keys)
      ensures forall p :: p in cells && p !in ptrs ==> cells[p] == old(cells)[p]
      ensures ok ==>
        && errorCode == old(errorCode) && calls == old(calls) + |ptrs| && Quiet(old(calls), calls)
        && (|ptrs| > 0 ==> errorCode == OK)
        && gpu.live == old(gpu.live) + Issue(old(gpu.issued), old(gpu.issued) + |ptrs|)
        && forall i :: 0 <= i < |ptrs| ==> cells[ptrs[i]] == old(gpu.issued) + i
      ensures !ok ==> ptrs != [] && errorCode != OK && old(calls) <= failedAt < calls
      ensures !ok && old(errorCode) == OK ==>
        fate(failedAt) != OK && (Quiet(failedAt + 1, calls) ==> gpu.live == old(gpu.live))
      ensures !ok && old(errorCode) != OK ==>
        && calls == old(calls) + 1
        && gpu.live == old(gpu.live) + if fate(old(calls)) == OK then {old(gpu.issued)} else {}
      ensures old(errorCode) != OK && |ptrs| > 0 ==> !ok
    {
      hide Issue, Distinct, Filled;
      failedAt := calls;
      ghost var first := gpu.issued;
      FilledNone(cells, ptrs, first);
      for i := 0 to |ptrs|
        invariant calls == old(calls) + i && Quiet(old(calls), calls)
        invariant errorCode == old(errorCode) && (i > 0 ==> errorCode == OK)
        invariant gpu == old(gpu).(live := old(gpu.live) + Issue(first, first + i), issued := first + i)
        invariant cells.Keys == old(cells.Keys) && Filled(old(cells), cells, ptrs, first, i)
      {
        ghost var before := cells;
        FilledIs(old(cells), cells, ptrs, first, i);
        var status := CreateInto(ptrs[i]);
        assert Issue(first, first + i + 1) == Issue(first, first + i) + {first + i};
        FilledNext(old(cells), before, ptrs, first, i);
        if errorCode != OK {
          FilledIs(old(cells), cells, ptrs, first, i);
          ReleaseCreated(ptrs, i, first, if status == OK then gpu.live else old(gpu.live));
          return false, old(calls) + i;
        }
      }
      FilledIs(old(cells), cells, ptrs, first, |ptrs|);
      ok := true;
    }

    /** CUDA_CHECK(cuMemCreate(p_memHandle[i], ...)). */
    method CreateInto(ptr: nat) returns (status: Status)
      requires ptr in cells
      modifies this`calls, this`gpu, this`errorCode, this`cells
      ensures calls == old(calls) + 1 && status == fate(old(calls))
      ensures errorCode == if status != OK then status else old(errorCode)
      ensures status == OK ==>
        && gpu == old(gpu).(live := old(gpu.live) + {old(gpu.issued)}, issued := old(gpu.issued) + 1)
        && cells == old(cells)[ptr := old(gpu.issued)]
      ensures status != OK ==> gpu == old(gpu) && cells == old(cells)
    {
      var handle;
      status, handle := MemCreate();
      if status == OK {
        cells := cells[ptr := handle];
      }
      Check(status);
    }

    /** Unmap the first n chunks, ignoring the statuses. */
    method UnmapMapped(dMem: nat, sizes: seq<nat>, n: nat, ghost handles: seq<nat>, ghost keep: map<nat, Mapping>)
      requires n <= |sizes| == |handles| && AddressesDistinct(dMem, sizes, n)
      requires gpu.mapped == keep + ChunkMap(dMem, sizes, handles, 0, n)
      requires keep.Keys !! ChunkMap(dMem, sizes, handles, 0, n).Keys
      modifies this`calls, this`gpu
      ensures calls == old(calls) + n
      ensures gpu == old(gpu).(mapped := gpu.mapped)
      ensures Quiet(old(calls), calls) ==> gpu.mapped == keep
    {
      var unmappedSize := 0;
      for j := 0 to n
        invariant unmappedSize == Prefix(sizes, j)
        invariant calls == old(calls) + j
        invariant gpu == old(gpu).(mapped := gpu.mapped)
        invariant keep.Keys !! ChunkMap(dMem, sizes, handles, j, n).Keys
        invariant Quiet(old(calls), calls) ==> gpu.mapped == keep + ChunkMap(dMem, sizes, handles, j, n)
      {
        ghost var before := gpu;
        var _ := MemUnmap(dMem + unmappedSize, sizes[j]);
        UnmapStep(before, gpu, fate(calls - 1), dMem, sizes, handles, j, n, keep);
        unmappedSize := unmappedSize + sizes[j];
      }
    }

    /** Unmap the first n chunks and release the handles of all. */
    method Undo(dMem: nat, ptrs: seq<nat>, sizes: seq<nat>, n: nat, ghost first: nat, ghost keep: set<nat>, ghost base: map<nat, Mapping>)
      requires n <= |ptrs| == |sizes| && AddressesDistinct(dMem, sizes, n)
      requires forall i :: 0 <= i < |ptrs| ==> ptrs[i] in cells && cells[ptrs[i]] == first + i
      requires gpu.live == keep + Issue(first, first + |ptrs|) && keep !! Issue(first, first + |ptrs|)
      requires gpu.mapped == base + ChunkMap(dMem, sizes, Handles(cells, ptrs), 0, n)
      requires base.Keys !! ChunkMap(dMem, sizes, Handles(cells, ptrs), 0, n).Keys
      modifies this`calls, this`gpu
      ensures calls == old(calls) + n + |ptrs|
      ensures gpu == old(gpu).(mapped := gpu.mapped, live := gpu.live) && gpu.live <= old(gpu.live)
      ensures Quiet(old(calls), calls) ==> gpu.mapped == base && gpu.live == keep
    {
      hide Issue, ChunkMap, AddressesDistinct;
      UnmapMapped(dMem, sizes, n, Handles(cells, ptrs), base);
      ReleaseCreated(ptrs, |ptrs|, first, keep);
    }

    /** CUDA_CHECK(cuMemMap(...)) for chunk i. */
    method MapOne(dMem: nat, sizes: seq<nat>, i: nat, allocatedSize: nat, handle: nat, ghost handles: seq<nat>, ghost base: map<nat, Mapping>)
      requires i < |sizes| == |handles| && allocatedSize == Prefix(sizes, i) && handle == handles[i] && errorCode == OK
      requires handle in gpu.live && AddressesDistinct(dMem, sizes, i) && base.Keys !! ChunkMap(dMem, sizes, handles, 0, i).Keys
      requires gpu.mapped == base + ChunkMap(dMem, sizes, handles, 0, i)
      modifies this`calls, this`gpu, this`errorCode
      ensures calls == old(calls) + 1
      ensures errorCode != OK ==> gpu == old(gpu)
      ensures errorCode == OK ==>
        && fate(old(calls)) == OK && AddressesDistinct(dMem, sizes, i + 1)
        && base.Keys !! ChunkMap(dMem, sizes, handles, 0, i + 1).Keys
        && gpu == old(gpu).(mapped := base + ChunkMap(dMem, sizes, handles, 0, i + 1))
      ensures Feasible(gpu.reserved, base, dMem, sizes) && fate(old(calls)) == OK ==> errorCode == OK
    {
      hide ChunkMap, AddressesDistinct, Feasible;
      if Feasible(gpu.reserved, base, dMem, sizes) {
        MapAccepted(gpu.(mapped := base), dMem, sizes, handles, i);
      }
      var status := MemMap(dMem + allocatedSize, sizes[i], handle);
      Check(status);
      if errorCode == OK {
        MapStep(base, dMem, sizes, handles, i);
      }
    }

    /** Second loop of create_and_map: map every chunk, or undo all of it. */
    method MapChunks(dMem: nat, ptrs: seq<nat>, sizes: seq<nat>, ghost first: nat, ghost keep: set<nat>) returns (ok: bool, ghost failedAt: nat)
      requires |ptrs| == |sizes| && (errorCode == OK || ptrs == [])
      requires forall i :: 0 <= i < |ptrs| ==> ptrs[i] in cells && cells[ptrs[i]] == first + i
      requires gpu.live == keep + Issue(first, first + |ptrs|) && keep !! Issue(first, first + |ptrs|)
      modifies this`calls, this`gpu, this`errorCode
      ensures gpu == old(gpu).(mapped := gpu.mapped, live := gpu.live) && gpu.live <= old(gpu.live)
      ensures ok ==>
        && errorCode == old(errorCode) && calls == old(calls) + |ptrs| && Quiet(old(calls), calls) && gpu.live == old(gpu.live)
        && AddressesDistinct(dMem, sizes, |sizes|)
        && old(gpu.mapped).Keys !! ChunkMap(dMem, sizes, Handles(cells, ptrs), 0, |sizes|).Keys
        && gpu.mapped == old(gpu.mapped) + ChunkMap(dMem, sizes, Handles(cells, ptrs), 0, |sizes|)
      ensures !ok ==>
        && ptrs != [] && errorCode != OK && old(calls) <= failedAt < calls
        && (Quiet(failedAt + 1, calls) ==> gpu.mapped == old(gpu.mapped) && gpu.live == keep)
      ensures Feasible(old(gpu.reserved), old(gpu.mapped), dMem, sizes) && Quiet(old(calls), calls) ==> ok
    {
      hide Issue, ChunkMap, AddressesDistinct, Feasible;
      NoChunks(dMem, sizes, Handles(cells, ptrs));
      failedAt := calls;
      ghost var handles := Handles(cells, ptrs);
      var allocatedSize := 0;
      for i := 0 to |ptrs|
        invariant allocatedSize == Prefix(sizes, i)
        invariant calls == old(calls) + i && Quiet(old(calls), calls) && errorCode == old(errorCode)
        invariant AddressesDistinct(dMem, sizes, i)
        invariant old(gpu.mapped).Keys !! ChunkMap(dMem, sizes, handles, 0, i).Keys
        invariant gpu == old(gpu).(mapped := old(gpu.mapped) + ChunkMap(dMem, sizes, handles, 0, i))
      {
        MapOne(dMem, sizes, i, allocatedSize, cells[ptrs[i]], handles, old(gpu.mapped));
        if errorCode != OK {
          failedAt := old(calls) + i;
          Undo(dMem, ptrs, sizes, i, first, keep, old(gpu.mapped));
          return false, failedAt;
        }
        allocatedSize := allocatedSize + sizes[i];
      }
      ok := true;
    }

    /** The two loops of create_and_map. */
    method CreateChunks(dMem: nat, ptrs: seq<nat>, sizes: seq<nat>) returns (ok: bool, ghost failedAt: nat)
      requires |ptrs| == |sizes| && Distinct(ptrs) && gpu.Valid()
      requires forall i :: 0 <= i < |ptrs| ==> ptrs[i] in cells
      modifies this`calls, this`gpu, this`errorCode, this`cells
      ensures gpu.Valid() && gpu.reserved == old(gpu.reserved) && gpu.issued >= old(gpu.issued) && calls >= old(calls)
      ensures cells.Keys == old(cells.Keys) && forall p :: p in cells && p !in ptrs ==> cells[p] == old(cells)[p]
      ensures ok ==> errorCode == old(errorCode) && Backed(old(gpu), gpu, dMem, ptrs, sizes, cells) && (errorCode == OK || ptrs == [])
      ensures !ok ==> errorCode != OK && ptrs != [] && old(calls) <= failedAt < calls
      ensures !ok && old(errorCode) == OK && Quiet(failedAt + 1, calls) ==> gpu.live == old(gpu.live) && gpu.mapped == old(gpu.mapped)
      ensures !ok && old(errorCode) != OK ==>
        && gpu.mapped == old(gpu.mapped)
        && gpu.live == old(gpu.live) + if fate(failedAt) == OK then {old(gpu.issued)} else {}
      ensures !ok && old(errorCode) == OK && Quiet(old(calls), calls) ==>
        forall i :: 0 <= i < |ptrs| ==> cells[ptrs[i]] >= old(gpu.issued)
      ensures old(errorCode) == OK && Quiet(old(calls), calls) && Feasible(old(gpu.reserved), old(gpu.mapped), dMem, sizes) ==> ok
    {
      hide Issue, ChunkMap, AddressesDistinct, Feasible;
      ghost var first := gpu.issued;
      ok, failedAt := CreateHandles(ptrs);
      if ok {
        ok, failedAt := MapChunks(dMem, ptrs, sizes, first, old(gpu.live));
      }
    }

    /** create_and_map.  What the driver ends up with depends on where it stops. */
    method CreateAndMap(dMem: nat, ptrs: seq<nat>, sizes: seq<nat>) returns (ghost outcome: Outcome, ghost failedAt: nat)
      requires |ptrs| == |sizes| && Distinct(ptrs) && gpu.Valid()
      requires forall i :: 0 <= i < |ptrs| ==> ptrs[i] in cells
      modifies this`calls, this`gpu, this`errorCode, this`cells, this`hasContext
      ensures gpu.Valid() && gpu.reserved == old(gpu.reserved) && gpu.issued >= old(gpu.issued) && calls >= old(calls)
      ensures cells.Keys == old(cells.Keys) && forall p :: p in cells && p !in ptrs ==> cells[p] == old(cells)[p]
      ensures errorCode == OK <==> outcome == Mapped
      ensures outcome == Mapped || outcome == AccessFailed ==> Backed(old(gpu), gpu, dMem, ptrs, sizes, cells)
      ensures outcome == RolledBack ==>
        old(calls) <= failedAt < calls &&
        (Quiet(failedAt + 1, calls) ==> gpu.live == old(gpu.live) && gpu.mapped == old(gpu.mapped))
      ensures outcome == RolledBack && Quiet(old(calls), calls) ==> forall i :: 0 <= i < |ptrs| ==> cells[ptrs[i]] >= old(gpu.issued)
      ensures outcome == StickyError ==>
        && gpu.mapped == old(gpu.mapped)
        && gpu.live == old(gpu.live) + if ptrs != [] && fate(failedAt) == OK then {old(gpu.issued)} else {}
      ensures old(errorCode) != OK ==> outcome == StickyError
      ensures old(errorCode) == OK && Quiet(old(calls), calls) ==> outcome == Mapped || outcome == RolledBack
      ensures old(errorCode) == OK && Quiet(old(calls), calls) && (ptrs == [] || Feasible(old(gpu.reserved), old(gpu.mapped), dMem, sizes)) ==> outcome == Mapped
      ensures old(hasContext) ==> hasContext
    {
      hide Backed, Feasible, Gpu.Valid;
      EnsureContext();
      ghost var entry := errorCode;
      var ok;
      ok, failedAt := CreateChunks(dMem, ptrs, sizes);
      if !ok {
        return if entry == OK then RolledBack else StickyError, failedAt;
      }
      var status := Call();
      Check(status);
      if errorCode != OK {
        if entry != OK {
          NoneBacked(old(gpu), gpu, dMem, ptrs, sizes, cells);
        }
        return if entry == OK then AccessFailed else StickyError, calls - 1;
      }
      outcome := Mapped;
    }

    /** unmap_and_release: every chunk is unmapped and every handle released whatever the calls report;
        the first status that is not OK, in call order, becomes the error code. */
    method UnmapAndRelease(dMem: nat, ptrs: seq<nat>, sizes: seq<nat>) returns (ghost statuses: seq<Status>)
      requires |ptrs| == |sizes| && forall i :: 0 <= i < |ptrs| ==> ptrs[i] in cells
      modifies this`calls, this`gpu, this`errorCode, this`hasContext
      ensures var c := old(calls) + if old(hasContext) then 1 else 3;
              calls == c + 2 * |sizes| && Trail(statuses, gpu) == Teardown(old(gpu), cells, fate, c, dMem, ptrs, sizes)
      ensures FirstError(statuses) != OK ==> errorCode == FirstError(statuses)
      ensures FirstError(statuses) == OK && Quiet(old(calls), calls) ==> errorCode == old(errorCode)
      ensures old(errorCode) != OK ==> errorCode != OK
      ensures old(hasContext) ==> hasContext
    {
      hide FirstError, UnmapAll, ReleaseAll;
      EnsureContext();
      var firstError;
      firstError, statuses := UnmapEach(dMem, sizes);
      ghost var released;
      firstError, released := ReleaseEach(ptrs, firstError, statuses);
      statuses := statuses + released;
      if firstError != OK {
        Check(firstError);
      }
    }

    method UnmapEach(dMem: nat, sizes: seq<nat>) returns (firstError: Status, ghost statuses: seq<Status>)
      modifies this`calls, this`gpu
      ensures calls == old(calls) + |sizes| && firstError == FirstError(statuses)
      ensures Trail(statuses, gpu) == UnmapAll(old(gpu), fate, old(calls), dMem, sizes, |sizes|)
    {
      firstError, statuses := OK, [];
      assert FirstError([]) == OK;
      hide FirstError;
      var allocatedSize := 0;
      for i := 0 to |sizes|
        invariant calls == old(calls) + i && allocatedSize == Prefix(sizes, i)
        invariant Trail(statuses, gpu) == UnmapAll(old(gpu), fate, old(calls), dMem, sizes, i)
        invariant firstError == FirstError(statuses)
      {
        var status := MemUnmap(dMem + allocatedSize, sizes[i]);
        FirstErrorAppend(statuses, status);
        statuses := statuses + [status];
        if status != OK && firstError == OK {
          firstError := status;
        }
        allocatedSize := allocatedSize + sizes[i];
      }
    }

    method ReleaseEach(ptrs: seq<nat>, before: Status, ghost earlier: seq<Status>) returns (firstError: Status, ghost statuses: seq<Status>)
      requires before == FirstError(earlier) && forall i :: 0 <= i < |ptrs| ==> ptrs[i] in cells
      modifies this`calls, this`gpu
      ensures calls == old(calls) + |ptrs| && firstError == FirstError(earlier + statuses)
      ensures Trail(statuses, gpu) == ReleaseAll(old(gpu), fate, old(calls), Handles(cells, ptrs), |ptrs|)
    {
      hide FirstError;
      firstError, statuses := before, [];
      assert earlier + [] == earlier;
      for i := 0 to |ptrs|
        invariant calls == old(calls) + i
        invariant Trail(statuses, gpu) == ReleaseAll(old(gpu), fate, old(calls), Handles(cells, ptrs), i)
        invariant firstError == FirstError(earlier + statuses)
      {
        var status := MemRelease(cells[ptrs[i]]);
        FirstErrorAppend(earlier + statuses, status);
        assert earlier + (statuses + [status]) == earlier + statuses + [status];
        statuses := statuses + [status];
        if status != OK && firstError == OK {
          firstError := status;
        }
      }
    }

    /** create_tuple_from_c_mixed. */
    method PackChunks(ptrs: seq<nat>, sizes: seq<nat>) returns (chunks: seq<(nat, nat)>)
      requires |ptrs| == |sizes|
      ensures forall size, dMem, tag :: Tuple(size, dMem, chunks, tag).Ptrs() == ptrs && Tuple(size, dMem, chunks, tag).Sizes() == sizes
    {
      chunks := [];
      for i := 0 to |ptrs|
        invariant |chunks| == i && forall k :: 0 <= k < i ==> chunks[k] == (ptrs[k], sizes[k])
      {
        chunks := chunks + [(ptrs[i], sizes[i])];
      }
    }

    /** The loops of my_free and the Python entry points that copy the list back. */
    method UnpackChunks(t: Tuple) returns (ptrs: seq<nat>, sizes: seq<nat>)
      ensures ptrs == t.Ptrs() && sizes == t.Sizes()
    {
      ptrs, sizes := [], [];
      for i := 0 to |t.chunks|
        invariant |ptrs| == |sizes| == i
        invariant forall k :: 0 <= k < i ==> ptrs[k] == t.chunks[k].0 && sizes[k] == t.chunks[k].1
      {
        ptrs, sizes := ptrs + [t.chunks[i].0], sizes + [t.chunks[i].1];
      }
    }

    /** malloc of one cell per chunk; what a new cell contains is not ours to say. */
    method MakeCells(n: nat, garbage: nat) returns (ptrs: seq<nat>)
      requires CellsBelow()
      modifies this`cells, this`nextCell
      ensures CellsBelow() && |ptrs| == n && Distinct(ptrs)
      ensures forall i :: 0 <= i < n ==> ptrs[i] in cells && ptrs[i] !in old(cells)
      ensures forall c :: c in old(cells) ==> c in cells && cells[c] == old(cells)[c]
    {
      ptrs := [];
      for i := 0 to n
        invariant |ptrs| == i && nextCell == old(nextCell) + i && CellsBelow()
        invariant forall k :: 0 <= k < i ==> ptrs[k] == old(nextCell) + k && ptrs[k] in cells
        invariant forall c :: c in old(cells) ==> c in cells && cells[c] == old(cells)[c]
      {
        ptrs := ptrs + [nextCell];
        cells, nextCell := cells[nextCell := garbage], nextCell + 1;
      }
    }

    method FreeCells(ptrs: seq<nat>)
      requires CellsBelow()
      modifies this`cells
      ensures CellsBelow() && cells == old(cells) - (set c | c in ptrs)
    {
      cells := cells - (set c | c in ptrs);
    }

    method AddressReserve(place: nat, size: nat) returns (status: Status)
      modifies this`calls, this`gpu
      ensures calls == old(calls) + 1
      ensures (status, gpu) == old(gpu).Reserve(fate(old(calls)), place, size)
    {
      var own := Call();
      var r := gpu.Reserve(own, place, size);
      status, gpu := r.0, r.1;
    }

    method AddressFree(addr: nat, size: nat) returns (status: Status)
      modifies this`calls, this`gpu
      ensures calls == old(calls) + 1
      ensures (status, gpu) == old(gpu).FreeRange(fate(old(calls)), addr, size)
    {
      var own := Call();
      var r := gpu.FreeRange(own, addr, size);
      status, gpu := r.0, r.1;
    }

    /** The first half of my_malloc: context, granularity, reservation. */
    method Reserve(place: nat, aligned: nat) returns (ok: bool)
      modifies this`calls, this`gpu, this`errorCode, this`hasContext
      ensures (ok <==> errorCode == OK) && (ok ==> aligned > 0)
      ensures old(errorCode) != OK ==> !ok
      ensures gpu == if ok then old(gpu).(reserved := old(gpu.reserved)[place := aligned]) else old(gpu)
      ensures old(errorCode) == OK && aligned > 0 && Quiet(old(calls), calls) ==> ok
      ensures calls > old(calls)
    {
      EnsureContext();
      var status := Call();
      Check(status);
      if errorCode != OK {
        return false;
      }
      status := AddressReserve(place, aligned);
      Check(status);
      ok := errorCode == OK;
    }

    /** Cells for the handles, and the Python callback with the tuple. */
    method Enter(place: nat, aligned: nat, sizes: seq<nat>, garbage: nat, ghost before: Gpu) returns (ptrs: seq<nat>)
      requires CellsBelow() && aligned > 0
      requires ClearPlace(before.reserved, place, aligned) && gpu == before.(reserved := before.reserved[place := aligned])
      requires forall i :: 0 <= i < |sizes| ==> sizes[i] > 0
      modifies this`cells, this`nextCell, this`table
      ensures CellsBelow() && Distinct(ptrs) && |ptrs| == |sizes| && forall i :: 0 <= i < |ptrs| ==> ptrs[i] in cells
      ensures place in table && table == old(table)[place := table[place]]
      ensures table[place].size == aligned && table[place].dMem == place && table[place].Sizes() == sizes && table[place].Ptrs() == ptrs
      ensures table[place].tag == currentTag
      ensures Prefix(sizes, |sizes|) == aligned ==> Fresh(before, old(cells), table[place], gpu, cells)
    {
      hide Fresh, Prefix, ClearPlace, Distinct;
      ptrs := MakeCells(|sizes|, garbage);
      var chunks := PackChunks(ptrs, sizes);
      table := table[place := Tuple(aligned, place, chunks, currentTag)];
      if Prefix(sizes, |sizes|) == aligned {
        FreshTuple(before, old(cells), table[place], gpu, cells);
      }
    }

    /** Give back the range and the cells of a malloc that failed. */
    method Abandon(place: nat, aligned: nat, ptrs: seq<nat>)
      requires CellsBelow() && errorCode != OK
      modifies this`calls, this`gpu, this`errorCode, this`cells
      ensures CellsBelow() && calls == old(calls) + 1 && errorCode != OK && cells == old(cells) - (set c | c in ptrs)
      ensures gpu == old(gpu).FreeRange(fate(old(calls)), place, aligned).1
    {
      var status := AddressFree(place, aligned);
      Check(status);
      FreeCells(ptrs);
    }

    /** The second half: cells, table entry, chunks.  The entry is made before the chunks are, and stays
        when they fail, though its cells are freed. */
    method EnterAndMap(place: nat, aligned: nat, sizes: seq<nat>, garbage: nat, ghost before: Gpu) returns (ok: bool, ghost outcome: Outcome, ghost failedAt: nat)
      requires CellsBelow() && before.Valid() && errorCode == OK && aligned > 0
      requires ClearPlace(before.reserved, place, aligned) && gpu == before.(reserved := before.reserved[place := aligned])
      requires forall i :: 0 <= i < |sizes| ==> sizes[i] > 0
      modifies this`calls, this`gpu, this`errorCode, this`hasContext, this`cells, this`nextCell, this`table, this`awake
      ensures CellsBelow() && gpu.Valid() && (ok <==> errorCode == OK)
      ensures place in table && table == old(table)[place := table[place]]
      ensures table[place].size == aligned && table[place].dMem == place && table[place].Sizes() == sizes && table[place].tag == currentTag
      ensures awake == if ok then old(awake) + {place} else old(awake)
      ensures Prefix(sizes, |sizes|) == aligned && Sound(before, old(cells), old(table), old(awake)) ==>
        (ok ==> Sound(gpu, cells, table, awake)) && (Quiet(old(calls), calls) ==> ok)
      ensures sizes == [] && Quiet(old(calls), calls) ==> ok
      ensures !ok ==> forall i :: 0 <= i < |sizes| ==> table[place].chunks[i].0 !in cells
      ensures !ok && outcome == RolledBack && old(calls) <= failedAt < calls && Quiet(failedAt + 1, calls) && place !in before.reserved ==>
        gpu == before.(issued := gpu.issued)
    {
      hide Sound, Feasible, Fresh, Backed, Prefix, ClearPlace, Distinct;
      var ptrs := Enter(place, aligned, sizes, garbage, before);
      ghost var made := cells;
      ghost var sound := Prefix(sizes, |sizes|) == aligned && Sound(before, old(cells), old(table), old(awake));
      if sound {
        FreshIsFeasible(before, old(cells), old(table), old(awake), table[place], gpu, made);
      }
      outcome, failedAt := CreateAndMap(place, ptrs, sizes);
      ok := errorCode == OK;
      if !ok {
        Abandon(place, aligned, ptrs);
      } else {
        awake := awake + {place};
        if sound {
          MallocKeepsSound(before, old(cells), old(table), old(awake), table[place], old(gpu), made, gpu, cells);
        }
      }
    }

    /** The chunk size before it is rounded. */
    function Base(): (r: nat)
      ensures 0 < r < U64
    {
      ChunkSizeFits(setting);
      MemcreateChunkSize(setting)
    }

    /** my_malloc.  The driver chooses the place; hostCells is how many handle cells the host can give.  A
        request that does not fit comes out as a division by zero, as null, or as an address with nothing
        mapped behind it. */
    method MyMalloc(size: nat, place: nat, garbage: nat, junk: Content, hostCells: nat) returns (r: Reply)
      requires gpu.Valid() && CellsBelow() && size < U64 && 0 < granularity < U64
      requires ClearPlace(gpu.reserved, place, AlignUp(size, granularity))
      modifies this`calls, this`gpu, this`errorCode, this`hasContext, this`cells, this`nextCell, this`table, this`awake, this`backup, this`data
      ensures CellsBelow() && gpu.Valid()
      ensures old(errorCode) != OK ==> r == Null && errorCode != OK && table == old(table) && gpu == old(gpu)
      ensures r == DivisionByZero ==> Base() + granularity - 1 >= U64
      ensures r.Address? ==> r.value == place && errorCode == OK && place in table && table == old(table)[place := table[place]]
      ensures r.Address? ==> table[place].tag == currentTag && data == old(data)[place := junk] && backup == old(backup) - {place}
      ensures !r.Address? ==> data == old(data)
      ensures r.Address? ==> if Fits(size, granularity, Base()) then Entry(size, place) else table[place].chunks == []
      ensures r.Address? && old(Valid()) && Fits(size, granularity, Base()) ==> Valid() && place !in old(table) && awake == old(awake) + {place}
      // an end before the entry is made leaves at most the reservation behind
      ensures place !in table && old(Valid()) ==>
        table == old(table) && awake == old(awake) && Sound(gpu, cells, table, awake) && (errorCode == OK ==> Valid())
      ensures old(Valid()) && Quiet(old(calls), calls) && size > 0 && Fits(size, granularity, Base()) ==>
        if ChunkCount(size, granularity, Base()) <= hostCells
        then r.Address? else r == Null && place !in table && errorCode == OK
      // and a request that does not fit, when no call fails
      ensures old(errorCode) == OK && Quiet(old(calls), calls) && !Fits(size, granularity, Base()) ==>
        if AlignUp(size, granularity) == 0 then r == Null && gpu == old(gpu) && table == old(table)
        else if Base() + granularity - 1 >= U64 then r == DivisionByZero && table == old(table)
        else r.Address?
    {
      hide Sound, Fits, AlignUp, MemcreateChunkSize, ChunkCount, Prefix, Tiles, ClearPlace, CellsBelow, Base;
      Overflows(size, granularity, Base());
      if Fits(size, granularity, Base()) {
        FitsMeans(size, granularity, Base());
      }
      var aligned := AlignUp(size, granularity);
      var ok := Reserve(place, aligned);
      if old(Valid()) && ok {
        ReserveKeepsSound(old(gpu), cells, table, awake, place, aligned);
      }
      if !ok {
        return Null;
      }
      var chunks := ChunkSizes(size, granularity, Base());
      if chunks == None {
        return DivisionByZero;
      }
      var sizes := chunks.value.sizes;
      if |sizes| > hostCells {
        return Null;
      }
      if Fits(size, granularity, Base()) {
        TilesAll(sizes, aligned, AlignUp(Base(), granularity), granularity);
      }
      backup := backup - {place};
      ghost var outcome, failedAt;
      ok, outcome, failedAt := EnterAndMap(place, aligned, sizes, garbage, old(gpu));
      if !ok {
        return Null;
      }
      data := data[place := junk];
      r := Address(place);
    }

    /** The table describes a new allocation of this size: its chunks tile the rounded-up size. */
    ghost predicate Entry(size: nat, place: nat)
      requires granularity > 0
      reads this`table
    {
      && place in table && table[place].size == AlignUp(size, granularity) && table[place].dMem == place
      && Tiles(table[place].Sizes(), AlignUp(size, granularity), AlignUp(Base(), granularity), granularity)
    }

    /** python_unmap_and_release: sleep for one allocation. */
    method PythonUnmapAndRelease(t: Tuple) returns (ok: bool)
      requires forall i :: 0 <= i < |t.chunks| ==> t.chunks[i].0 in cells
      modifies this`calls, this`gpu, this`errorCode, this`hasContext, this`awake
      ensures errorCode == OK && awake == old(awake) - {t.dMem} && calls >= old(calls)
      ensures old(errorCode) != OK ==> !ok
      ensures old(Valid()) && t.dMem in table && t == table[t.dMem] && (ok || Quiet(old(calls), calls)) ==> Valid() && (ok <==> t.dMem in old(awake))
    {
      hide Sound, Teardown, FirstError;
      var ptrs, sizes := UnpackChunks(t);
      ghost var c := calls + if hasContext then 1 else 3;
      ghost var statuses := UnmapAndRelease(t.dMem, ptrs, sizes);
      awake := awake - {t.dMem};
      ok := errorCode == OK;
      if !ok {
        errorCode := OK;
      }
      if old(Valid()) && t.dMem in table && t == table[t.dMem] && (ok || Quiet(old(calls), calls)) {
        if ok {
          TeardownQuiet(old(gpu), cells, fate, c, t.dMem, ptrs, sizes);
        }
        TornDown(old(gpu), cells, table, old(awake), t.dMem, fate, c);
      }
    }

    /** python_create_and_map: waking one allocation.  Waking one that is awake fails, and its cells then
        hold dead handles while its old ones are still live. */
    method PythonCreateAndMap(t: Tuple) returns (ok: bool)
      requires CellsBelow() && gpu.Valid() && Distinct(t.Ptrs()) && forall i :: 0 <= i < |t.chunks| ==> t.chunks[i].0 in cells
      modifies this`calls, this`gpu, this`errorCode, this`hasContext, this`cells, this`awake
      ensures errorCode == OK && CellsBelow() && gpu.Valid() && cells.Keys == old(cells.Keys) && calls >= old(calls)
      ensures awake == if ok then old(awake) + {t.dMem} else old(awake)
      ensures old(errorCode) != OK ==> !ok
      ensures old(Valid()) && t.dMem in table && t == table[t.dMem] && (ok || Quiet(old(calls), calls)) ==> (ok <==> t.dMem !in old(awake))
      ensures ok && old(Valid()) && t.dMem in table && t == table[t.dMem] ==> Valid()
      ensures old(Valid()) && t.dMem in table && t == table[t.dMem] && t.dMem in old(awake) && Quiet(old(calls), calls) ==>
        && gpu.mapped == old(gpu.mapped) && gpu.live == old(gpu.live)
        && forall i :: 0 <= i < |t.chunks| ==> t.chunks[i].0 in cells && cells[t.chunks[i].0] !in gpu.live
    {
      hide Sound, Feasible, Backed;
      var ptrs, sizes := UnpackChunks(t);
      ghost var known := old(Valid()) && t.dMem in table && t == table[t.dMem];
      if known && t.dMem !in awake {
        AsleepIsFeasible(gpu, cells, table, awake, t.dMem);
      }
      ghost var outcome, failedAt := CreateAndMap(t.dMem, ptrs, sizes);
      ok := errorCode == OK;
      if known && ok {
        if t.dMem in awake {
          AwakeIsNotBacked(old(gpu), old(cells), table, awake, t.dMem, gpu, cells);
        }
        WokenIsSound(old(gpu), old(cells), table, awake, t.dMem, gpu, cells);
      }
      if ok {
        awake := awake + {t.dMem};
      } else {
        errorCode := OK;
      }
    }

    /** One turn of the loop of CuMemAllocator.sleep. */
    method SleepOne(p: nat, offload: set<string>) returns (ok: bool)
      requires p in table && table[p].dMem == p && forall i :: 0 <= i < |table[p].chunks| ==> table[p].chunks[i].0 in cells
      modifies this`calls, this`gpu, this`errorCode, this`hasContext, this`awake, this`backup, this`data
      ensures errorCode == OK && awake == old(awake) - {p} && calls >= old(calls)
      ensures old(Valid()) && (ok || Quiet(old(calls), calls)) ==> Valid() && (ok <==> p in old(awake))
      ensures backup == if table[p].tag in offload then old(backup)[p := At(old(data), p)] else old(backup)
      ensures data == if ok then old(data) - {p} else old(data)
    {
      if table[p].tag in offload {
        backup := backup[p := At(data, p)];
      }
      ok := PythonUnmapAndRelease(table[p]);
      if ok {
        data := data - {p};
      }
    }

    /** CuMemAllocator.sleep: copy what the tags ask for, unmap everything, stop at the first exception. */
    method Sleep(offload: Option<set<string>>) returns (ok: bool)
      requires Valid()
      modifies this`calls, this`gpu, this`errorCode, this`hasContext, this`awake, this`backup, this`data
      ensures calls >= old(calls) && (ok || Quiet(old(calls), calls) ==> Valid() && (ok <==> old(awake) == table.Keys))
      ensures ok ==> awake == {} && data == old(data) - table.Keys
      ensures ok ==> forall p :: p in table ==>
        Saved(old(backup), old(data), backup, p, table[p].tag in if offload == None then {DEFAULT_TAG} else offload.value)
    {
      hide Sound, Tuple.Describes;
      var tags := if offload == None then {DEFAULT_TAG} else offload.value;
      InTable(gpu, cells, table, awake);
      var todo := table.Keys;
      while todo != {}
        invariant todo <= table.Keys && awake == old(awake) - (table.Keys - todo) && errorCode == OK && calls >= old(calls)
        invariant Valid() && table.Keys - todo <= old(awake)
        invariant data == old(data) - (table.Keys - todo)
        invariant forall p :: p in table ==> Saved(old(backup), old(data), backup, p, p !in todo && table[p].tag in tags)
      {
        var p :| p in todo;
        ok := SleepOne(p, tags);
        if !ok {
          return false;
        }
        todo := todo - {p};
      }
      ok := true;
    }

    /** One turn of the loop of CuMemAllocator.wake_up. */
    method WakeOne(p: nat, junk: Content) returns (ok: bool)
      requires Valid() && p in table
      modifies this`calls, this`gpu, this`errorCode, this`hasContext, this`cells, this`awake, this`backup, this`data
      ensures calls >= old(calls) && awake == if ok then old(awake) + {p} else old(awake)
      ensures ok ==> Valid()
      ensures ok || Quiet(old(calls), calls) ==> (ok <==> p !in old(awake))
      ensures backup == if ok then old(backup) - {p} else old(backup)
      ensures data == if ok then old(data)[p := if p in old(backup) then old(backup)[p] else junk] else old(data)
    {
      hide Sound;
      InTable(gpu, cells, table, awake);
      ok := PythonCreateAndMap(table[p]);
      if ok {
        data := data[p := junk];
        if p in backup {
          data := data[p := backup[p]];
          backup := backup - {p};
        }
      }
    }

    /** CuMemAllocator.wake_up: map what the tags ask for, and copy back what had been saved. */
    method WakeUp(wanted: Option<set<string>>, junk: Content) returns (ok: bool)
      requires Valid()
      modifies this`calls, this`gpu, this`errorCode, this`hasContext, this`cells, this`awake, this`backup, this`data
      ensures var chosen := Chosen(table, wanted);
        && (ok || Quiet(old(calls), calls) ==> (ok <==> chosen !! old(awake)))
        && calls >= old(calls)
        && (ok ==> Valid() && awake == old(awake) + chosen && forall p :: p in chosen ==> p in data && p !in backup)
        && (ok ==> data.Keys == old(data).Keys + chosen && backup == old(backup) - chosen)
        && (ok ==> forall p :: p in data ==> data[p] == if p !in chosen then old(data)[p] else if p in old(backup) then old(backup)[p] else junk)
    {
      hide Sound;
      var chosen := Chosen(table, wanted);
      var todo := chosen;
      while todo != {}
        invariant todo <= chosen && awake == old(awake) + (chosen - todo) && Valid() && calls >= old(calls)
        invariant backup == old(backup) - (chosen - todo)
        invariant data.Keys == old(data).Keys + (chosen - todo)
        invariant forall p :: p in data ==>
          data[p] == if p !in chosen - todo then old(data)[p] else if p in old(backup) then old(backup)[p] else junk
        invariant (chosen - todo) !! old(awake)
      {
        var p :| p in todo;
        ok := WakeOne(p, junk);
        if !ok {
          return false;
        }
        todo := todo - {p};
      }
      ok := true;
    }

    /** Sleeping and waking everything gives back every allocation, with its contents if its tag was offloaded. */
    method SleepAndWakeUp(offload: Option<set<string>>, junk: Content) returns (ok: bool)
      requires Valid() && awake == table.Keys
      modifies this`calls, this`gpu, this`errorCode, this`hasContext, this`cells, this`awake, this`backup, this`data
      ensures Quiet(old(calls), calls) ==> ok
      ensures ok ==> Valid() && awake == table.Keys
      ensures ok ==> forall p :: p in table && table[p].tag in (if offload == None then {DEFAULT_TAG} else offload.value) ==>
        p in data && data[p] == At(old(data), p)
    {
      hide Sound;
      ok := Sleep(offload);
      if !ok {
        return;
      }
      ok := WakeUp(None, junk);
    }

    /** The Python callback of my_free; the memory is about to go. */
    method PopEntry(ptr: nat)
      modifies this`table, this`backup, this`data
      ensures table == old(table) - {ptr} && backup == old(backup) - {ptr} && data == old(data) - {ptr}
    {
      table, backup, data := table - {ptr}, backup - {ptr}, data - {ptr};
    }

    /** my_free.  It passes the caller's size on, so the range is given back only if that was the rounded one. */
    method MyFree(ptr: nat, size: nat)
      requires CellsBelow() && (ptr in table ==> table[ptr].Describes(cells, gpu.reserved) && table[ptr].dMem == ptr)
      modifies this`calls, this`gpu, this`errorCode, this`hasContext, this`cells, this`table, this`awake, this`backup, this`data
      ensures CellsBelow() && table == old(table) - {ptr}
      ensures ptr in old(table) ==> data == old(data) - {ptr} && backup == old(backup) - {ptr}
      ensures ptr !in old(table) ==> gpu == old(gpu) && errorCode == old(errorCode) && cells == old(cells) && awake == old(awake)
      ensures ptr in old(table) ==> awake == old(awake) - {ptr}
      ensures ptr in old(table) && Sound(old(gpu), old(cells), old(table), old(awake)) && (Quiet(old(calls), calls) || (old(errorCode) == OK && errorCode == OK)) ==>
        && Sound(gpu, cells, table, awake) && Gone(gpu, old(cells), old(table)[ptr])
        && (ptr in gpu.reserved <==> size != old(table)[ptr].size)
        && (old(errorCode) == OK ==> (errorCode == OK <==> ptr in old(awake) && size == old(table)[ptr].size))
    {
      hide Sound, Tuple.Describes, Gone, CellsBelow;
      if ptr !in table {
        return;
      }
      var t := table[ptr];
      ghost var before := table;
      PopEntry(ptr);
      FreeEntry(t, size, before);
    }

    /** The rest of my_free, for the tuple that the callback gave. */
    method FreeEntry(t: Tuple, size: nat, ghost before: map<nat, Tuple>)
      requires CellsBelow() && t.Describes(cells, gpu.reserved) && t.dMem in before && before[t.dMem] == t
      modifies this`calls, this`gpu, this`errorCode, this`hasContext, this`cells, this`awake
      ensures CellsBelow() && awake == old(awake) - {t.dMem}
      ensures Sound(old(gpu), old(cells), before, old(awake)) && (Quiet(old(calls), calls) || (old(errorCode) == OK && errorCode == OK)) ==>
        && Sound(gpu, cells, before - {t.dMem}, awake) && Gone(gpu, old(cells), t)
        && (t.dMem in gpu.reserved <==> size != t.size)
        && (old(errorCode) == OK ==> (errorCode == OK <==> t.dMem in old(awake) && size == t.size))
    {
      hide Sound, Teardown, FirstError, Tuple.Describes, Distinct, Gone, CellsBelow;
      DescribedCells(t, cells, gpu.reserved);
      var ptrs, sizes := UnpackChunks(t);
      ghost var c := calls + if hasContext then 1 else 3;
      ghost var statuses := UnmapAndRelease(t.dMem, ptrs, sizes);
      var status := AddressFree(t.dMem, size);
      Check(status);
      FreeCells(ptrs);
      awake := awake - {t.dMem};
      if Sound(old(gpu), old(cells), before, old(awake)) && (Quiet(old(calls), calls) || (old(errorCode) == OK && errorCode == OK)) {
        if !Quiet(old(calls), calls) {
          TeardownQuiet(old(gpu), old(cells), fate, c, t.dMem, ptrs, sizes);
        }
        FreeKeepsSound(old(gpu), old(cells), before, old(awake), t.dMem, fate, c, size);
      }
    }

    /** A store by the owner of the memory; it faults if nothing is mapped there. */
    method Write(ptr: nat, content: Content) returns (ok: bool)
      modifies this`data
      ensures ok <==> ptr in old(data)
      ensures data == if ok then old(data)[ptr := content] else old(data)
    {
      ok := ptr in data;
      if ok {
        data := data[ptr := content];
      }
    }

    /** use_memory_pool: allocations are filed under its tag until it is left. */
    method EnterPool(tag: Option<string>)
      modifies this`currentTag, this`oldTags
      ensures currentTag == (if tag == None then DEFAULT_TAG else tag.value) && oldTags == old(oldTags) + [old(currentTag)]
    {
      oldTags := oldTags + [currentTag];
      currentTag := if tag == None then DEFAULT_TAG else tag.value;
    }

    method LeavePool() returns (ok: bool)
      modifies this`currentTag, this`oldTags
      ensures ok <==> old(oldTags) != []
      ensures if ok then old(oldTags) == oldTags + [currentTag] else oldTags == old(oldTags) && currentTag == old(currentTag)
    {
      ok := oldTags != [];
      if ok {
        currentTag, oldTags := oldTags[|oldTags| - 1], oldTags[..|oldTags| - 1];
      }
    }

    ghost function Now(freed: Option<(Tuple, map<nat, nat>)>): Snapshot
      reads this
    {
      Snapshot(gpu, cells, table, awake, data, backup, currentTag, oldTags, freed)
    }

    method DoMalloc(op: Op) returns (ok: bool)
      requires Valid() && Filed() && 0 < granularity < U64 && op.Malloc? && Fits(op.size, granularity, Base())
      modifies this`calls, this`gpu, this`errorCode, this`hasContext, this`cells, this`nextCell, this`table, this`awake, this`backup, this`data
      ensures ok ==> Valid() && Filed() && Follows(old(Now(None)), op, Now(None))
    {
      hide Sound, Fits, Gone, AlignUp;
      FitsMeans(op.size, granularity, Base());
      InTable(gpu, cells, table, awake);
      if !ClearPlace(gpu.reserved, op.place, AlignUp(op.size, granularity)) {
        return false;
      }
      var r := MyMalloc(op.size, op.place, op.garbage, op.junk, op.hostCells);
      ok := r.Address?;
    }

    method DoFree(op: Op) returns (ok: bool, ghost freed: Option<(Tuple, map<nat, nat>)>)
      requires Valid() && Filed() && op.Freeing?
      modifies this`calls, this`gpu, this`errorCode, this`hasContext, this`cells, this`table, this`awake, this`backup, this`data
      ensures ok ==> Valid() && Filed() && Follows(old(Now(None)), op, Now(freed))
    {
      hide Sound, Gone;
      freed := None;
      if op.ptr !in table {
        return false, None;
      }
      InTable(gpu, cells, table, awake);
      Entered(gpu, cells, table, awake, op.ptr);
      freed := Some((table[op.ptr], cells));
      MyFree(op.ptr, op.size);
      ok := errorCode == OK;
    }

    /** One operation; ok says that it reported no error. */
    method Do(op: Op) returns (ok: bool, ghost freed: Option<(Tuple, map<nat, nat>)>)
      requires Valid() && Filed() && 0 < granularity < U64 && (op.Malloc? ==> Fits(op.size, granularity, Base()))
      modifies this`calls, this`gpu, this`errorCode, this`hasContext, this`cells, this`nextCell, this`table, this`awake, this`backup, this`data,
        this`currentTag, this`oldTags
      ensures ok ==> Valid() && Filed() && Follows(old(Now(None)), op, Now(freed))
    {
      hide Sound, Fits, Gone, AlignUp;
      freed := None;
      match op
      case Malloc(_, _, _, _, _) => ok := DoMalloc(op);
      case Sleeping(offload) => ok := Sleep(offload);
      case Waking(wanted, junk) => ok := WakeUp(wanted, junk);
      case Freeing(_, _) => ok, freed := DoFree(op);
      case Writing(ptr, content) => ok := Write(ptr, content);
      case EnteringPool(tag) => EnterPool(tag); ok := true;
      case LeavingPool => ok := LeavePool();
    }

    /** Any sequence of operations, up to the first that reports an error: at every point each allocation is
        wholly mapped or not at all, and nothing of a freed one is left. */
    method Run(ops: seq<Op>) returns (done: nat, ghost trace: seq<Snapshot>)
      requires Valid() && Filed() && 0 < granularity < U64 && forall i :: 0 <= i < |ops| && ops[i].Malloc? ==> Fits(ops[i].size, granularity, Base())
      modifies this`calls, this`gpu, this`errorCode, this`hasContext, this`cells, this`nextCell, this`table, this`awake, this`backup, this`data,
        this`currentTag, this`oldTags
      ensures done <= |ops| && |trace| == done + 1 && trace[0] == old(Now(None))
      ensures forall i :: 0 <= i <= done ==> Good(trace[i])
      ensures forall i :: 0 <= i < done ==> Follows(trace[i].(freed := None), ops[i], trace[i + 1])
      ensures done == |ops| ==> Valid() && Filed() && Now(trace[done].freed) == trace[done]
    {
      hide Sound, Fits, Follows, Good;
      done, trace := 0, [Now(None)];
      SoundIsGood(Now(None));
      while done < |ops|
        invariant done <= |ops| && |trace| == done + 1 && trace[0] == old(Now(None)) && Valid() && Filed() && Now(trace[done].freed) == trace[done]
        invariant forall i :: 0 <= i <= done ==> Good(trace[i])
        invariant forall i :: 0 <= i < done ==> Follows(trace[i].(freed := None), ops[i], trace[i + 1])
      {
        ghost var before := trace;
        var ok;
        ghost var freed;
        ok, freed := Do(ops[done]);
        if !ok {
          return;
        }
        FollowsIsGood(before[done].(freed := None), ops[done], Now(freed));
        trace, done := trace + [Now(freed)], done + 1;
      }
    }
  }

  /** The allocations that the tags select. */
  function Chosen(table: map<nat, Tuple>, wanted: Option<set<string>>): (r: set<nat>)
    ensures r <= table.Keys
  {
    set p | p in table && Selected(wanted, table[p].tag)
  }

  lemma EmptyIsSound()
    ensures Sound(Gpu(map[], map[], {}, 0), map[], map[], {})
  {
  }

  /** What an operation that reports no error has done. */
  ghost predicate Follows(s: Snapshot, op: Op, t: Snapshot) {
    && Sound(t.gpu, t.cells, t.table, t.awake) && s.data.Keys == s.awake && t.data.Keys == t.awake
    && (op.EnteringPool? || op.LeavingPool? || (t.tag == s.tag && t.oldTags == s.oldTags))
    && (op.Freeing? || t.freed == None)
    && match op
       case Malloc(_, place, _, junk, _) =>
         && place !in s.table && place in t.table && t.table == s.table[place := t.table[place]] && t.table[place].tag == s.tag
         && t.awake == s.awake + {place} && t.data == s.data[place := junk] && t.backup == s.backup - {place}
       case Sleeping(offload) =>
         && t.table == s.table && s.awake == s.table.Keys && t.awake == {}
         && forall p :: p in s.table ==>
              Saved(s.backup, s.data, t.backup, p, s.table[p].tag in if offload == None then {DEFAULT_TAG} else offload.value)
       case Waking(wanted, junk) =>
         && t.table == s.table
         && (forall p :: p in s.table && Selected(wanted, s.table[p].tag) ==> p !in s.awake)
         && (forall p :: p in t.awake <==> p in s.awake || (p in s.table && Selected(wanted, s.table[p].tag)))
         && (forall p :: p in t.backup <==> p in s.backup && !(p in s.table && Selected(wanted, s.table[p].tag)))
         && (forall p :: p in t.backup ==> t.backup[p] == s.backup[p])
         && (forall p :: p in t.data ==> t.data[p] == if p in s.data then s.data[p] else if p in s.backup then s.backup[p] else junk)
       case Freeing(ptr, size) =>
         && ptr in s.awake && ptr in s.table && t.table == s.table - {ptr} && t.awake == s.awake - {ptr}
         && t.data == s.data - {ptr} && t.backup == s.backup - {ptr}
         && t.freed == Some((s.table[ptr], s.cells)) && Gone(t.gpu, s.cells, s.table[ptr])
         && size == s.table[ptr].size && ptr !in t.gpu.reserved
       case Writing(ptr, content) =>
         ptr in s.awake && t == s.(data := s.data[ptr := content])
       case EnteringPool(tag) =>
         t == s.(tag := if tag == None then DEFAULT_TAG else tag.value, oldTags := s.oldTags + [s.tag])
       case LeavingPool =>
         s.oldTags != [] && t == s.(tag := s.oldTags[|s.oldTags| - 1], oldTags := s.oldTags[..|s.oldTags| - 1])
  }

  /** wake_up's choice: everything, or the tags it is given. */
  predicate Selected(wanted: Option<set<string>>, tag: string) {
    wanted == None || tag in wanted.value
  }

  /** Every allocation is all mapped or not at all, and what was just freed is gone. */
  ghost predicate Good(s: Snapshot) {
    && Sound(s.gpu, s.cells, s.table, s.awake)
    && (forall p, b: nat :: p in s.table && p <= b < p + s.table[p].size ==> (ByteMapped(s.gpu, b) <==> p in s.awake))
    && (s.freed.Some? ==> Gone(s.gpu, s.freed.value.1, s.freed.value.0))
  }

  lemma SoundIsGood(s: Snapshot)
    requires Sound(s.gpu, s.cells, s.table, s.awake) && s.freed == None
    ensures Good(s)
  {
    hide Sound;
    forall p, b: nat | p in s.table && p <= b < p + s.table[p].size
      ensures ByteMapped(s.gpu, b) <==> p in s.awake
    {
      RangeAllOrNothing(s.gpu, s.cells, s.table, s.awake, p, b);
    }
  }

  lemma FollowsIsGood(s: Snapshot, op: Op, t: Snapshot)
    requires Follows(s, op, t)
    ensures Good(t)
  {
    hide Sound, Gone;
    SoundIsGood(t.(freed := None));
  }

  function At(data: map<nat, Content>, p: nat): Content {
    if p in data then data[p] else []
  }

  /** The copy of p is the one just made of its contents, or else what it was. */
  ghost predicate Saved(backup: map<nat, Content>, data: map<nat, Content>, next: map<nat, Content>, p: nat, copied: bool) {
    if copied then p in next && next[p] == At(data, p)
    else (p in next <==> p in backup) && (p in backup ==> next[p] == backup[p])
  }

  lemma InTable(gpu: Gpu, cells: map<nat, nat>, table: map<nat, Tuple>, awake: set<nat>)
    requires Sound(gpu, cells, table, awake)
    ensures gpu.Valid() && awake <= table.Keys
    ensures forall p :: p in table ==> table[p].dMem == p && Distinct(table[p].Ptrs())
    ensures forall p, i :: p in table && 0 <= i < |table[p].chunks| ==> table[p].chunks[i].0 in cells
  {
  }

  /** No byte of the allocation is mapped and no handle of it is live. */
  ghost predicate Gone(gpu: Gpu, cells: map<nat, nat>, t: Tuple) {
    && (forall b: nat :: t.dMem <= b < t.dMem + t.size ==> !ByteMapped(gpu, b))
    && (forall h: nat :: Holds(cells, t, h) ==> h !in gpu.live)
  }

  lemma AsleepIsGone(gpu: Gpu, cells: map<nat, nat>, table: map<nat, Tuple>, awake: set<nat>, p: nat)
    requires Sound(gpu, cells, table, awake) && p in table && p !in awake
    ensures Gone(gpu, cells, table[p])
  {
    forall b: nat | p <= b < p + table[p].size
      ensures !ByteMapped(gpu, b)
    {
      RangeAllOrNothing(gpu, cells, table, awake, p, b);
    }
    assert AllDead(gpu, cells, table[p]);
  }

  lemma StillGone(gpu: Gpu, next: Gpu, cells: map<nat, nat>, t: Tuple)
    requires Gone(gpu, cells, t) && next == gpu.(reserved := next.reserved)
    ensures Gone(next, cells, t)
  {
    forall b: nat | t.dMem <= b < t.dMem + t.size
      ensures !ByteMapped(next, b)
    {
      assert !ByteMapped(gpu, b);
    }
  }

  lemma DescribedCells(t: Tuple, cells: map<nat, nat>, reserved: map<nat, nat>)
    requires t.Describes(cells, reserved)
    ensures forall i :: 0 <= i < |t.chunks| ==> t.Ptrs()[i] in cells
  {
  }

  /** Freeing an allocation, the driver raising no error of its own. */
  lemma {:induction false} FreeKeepsSound(gpu: Gpu, cells: map<nat, nat>, table: map<nat, Tuple>, awake: set<nat>, p: nat, fate: nat -> Status, c: nat, size: nat)
    requires Sound(gpu, cells, table, awake) && p in table
    requires forall k :: c <= k < c + 2 * |table[p].chunks| ==> fate(k) == OK
    ensures var done := Teardown(gpu, cells, fate, c, p, table[p].Ptrs(), table[p].Sizes());
            var freed := done.gpu.FreeRange(OK, p, size);
      && Sound(freed.1, cells - (set x | x in table[p].Ptrs()), table - {p}, awake - {p}) && Gone(freed.1, cells, table[p])
      && (freed.0 == OK <==> size == table[p].size) && (p in freed.1.reserved <==> size != table[p].size)
      && (FirstError(done.statuses) == OK <==> p in awake)
  {
    hide Teardown, FirstError;
    TornDown(gpu, cells, table, awake, p, fate, c);
    Entered(gpu, cells, table, awake, p);
    var done := Teardown(gpu, cells, fate, c, p, table[p].Ptrs(), table[p].Sizes());
    AsleepIsGone(done.gpu, cells, table, awake - {p}, p);
    hide Sound, Gone;
    StillGone(done.gpu, done.gpu.FreeRange(OK, p, size).1, cells, table[p]);
    DropKeepsSound(done.gpu, cells, table, awake - {p}, p, done.gpu.FreeRange(OK, p, size).1, cells - (set x | x in table[p].Ptrs()));
  }

  /** After a teardown the allocation sleeps, and the teardown reports an error if it did before. */
  lemma {:induction false} TornDown(gpu: Gpu, cells: map<nat, nat>, table: map<nat, Tuple>, awake: set<nat>, p: nat, fate: nat -> Status, c: nat)
    requires Sound(gpu, cells, table, awake) && p in table
    requires forall k :: c <= k < c + 2 * |table[p].chunks| ==> fate(k) == OK
    ensures var done := Teardown(gpu, cells, fate, c, p, table[p].Ptrs(), table[p].Sizes());
      && Sound(done.gpu, cells, table, awake - {p}) && done.gpu.reserved == gpu.reserved
      && (FirstError(done.statuses) == OK <==> p in awake)
  {
    hide Teardown, FirstError;
    if p in awake {
      UnmapIsWithout(gpu, cells, table[p], fate, c);
      SleepKeepsSound(gpu, cells, table, awake, p, Teardown(gpu, cells, fate, c, p, table[p].Ptrs(), table[p].Sizes()).gpu);
    } else {
      UnmapAsleep(gpu, cells, table, awake, p, fate, c);
      assert awake - {p} == awake;
    }
  }

  /** An allocation that is awake cannot be mapped again. */
  lemma AwakeIsNotBacked(gpu: Gpu, cells: map<nat, nat>, table: map<nat, Tuple>, awake: set<nat>, p: nat, next: Gpu, after: map<nat, nat>)
    requires Sound(gpu, cells, table, awake) && p in awake
    ensures !Backed(gpu, next, p, table[p].Ptrs(), table[p].Sizes(), after)
  {
    var t := table[p];
    if Backed(gpu, next, p, t.Ptrs(), t.Sizes(), after) {
      assert t.ChunkAwake(gpu, cells, 0);
      ChunkMapValue(p, t.Sizes(), Handles(after, t.Ptrs()), 0, |t.chunks|, 0);
    }
  }

  lemma WokenIsSound(gpu: Gpu, cells: map<nat, nat>, table: map<nat, Tuple>, awake: set<nat>, p: nat, next: Gpu, after: map<nat, nat>)
    requires Sound(gpu, cells, table, awake) && p in table && p !in awake
    requires next.Valid() && next.reserved == gpu.reserved && next.issued >= gpu.issued
    requires after.Keys == cells.Keys && forall c :: c in cells && c !in table[p].Ptrs() ==> after[c] == cells[c]
    requires Backed(gpu, next, p, table[p].Ptrs(), table[p].Sizes(), after)
    ensures Sound(next, after, table, awake + {p})
  {
    AsleepIsFeasible(gpu, cells, table, awake, p);
    hide Backed, With, Tuple.Awake, Tuple.Covers, Tuple.HandlesDiffer, Holds, AllDead;
    BackedIsWith(gpu, table[p], next, cells, after);
    assert table[p := table[p]] == table;
    WakeKeepsSound(gpu, cells, table, awake, table[p], next, after);
  }

  lemma NoneBacked(gpu: Gpu, next: Gpu, dMem: nat, ptrs: seq<nat>, sizes: seq<nat>, cells: map<nat, nat>)
    requires ptrs == [] && Backed(gpu, next, dMem, ptrs, sizes, cells)
    ensures next.mapped == gpu.mapped && next.live == gpu.live
  {
  }

  lemma TilesAll(sizes: seq<nat>, aligned: nat, chunk: nat, g: nat)
    requires Tiles(sizes, aligned, chunk, g)
    ensures Prefix(sizes, |sizes|) == aligned && forall i :: 0 <= i < |sizes| ==> sizes[i] > 0
  {
  }

  lemma FitsMeans(size: nat, g: nat, base: nat)
    requires Fits(size, g, base)
    ensures size < U64 && base + g - 1 < U64 && size <= AlignUp(size, g)
  {
    hide AlignUp;
    AlignUpExact(size, g);
  }

  lemma FreshTuple(before: Gpu, cells: map<nat, nat>, t: Tuple, ready: Gpu, made: map<nat, nat>)
    requires ClearPlace(before.reserved, t.dMem, t.size) && ready == before.(reserved := before.reserved[t.dMem := t.size])
    requires t.size > 0 && Prefix(t.Sizes(), |t.chunks|) == t.size && Distinct(t.Ptrs())
    requires forall i :: 0 <= i < |t.chunks| ==> t.Sizes()[i] > 0 && t.Ptrs()[i] in made && t.Ptrs()[i] !in cells
    requires forall c :: c in cells ==> c in made && made[c] == cells[c]
    ensures Fresh(before, cells, t, ready, made)
  {
  }
}
