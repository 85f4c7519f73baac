/** What the device driver keeps for the allocator of csrc/cumem_allocator.cpp: reserved address ranges,
    mapped chunks and live handles, and what each driver call does to them. */
module GpuDriver {
  import opened Chunking
  import opened Sorting

  type Status = int
  const OK: Status := 0
  const INVALID: Status := 1

  datatype Mapping = Mapping(size: nat, handle: nat)

  /** The driver's bookkeeping.  `own` is the status a call would report on the driver's own account. */
  datatype Gpu = Gpu(reserved: map<nat, nat>, mapped: map<nat, Mapping>, live: set<nat>, issued: nat) {
    predicate Valid() {
      forall h :: h in live ==> h < issued
    }

    predicate Overlaps(addr: nat, size: nat) {
      exists a :: a in mapped && (a == addr || (a < addr + size && addr < a + mapped[a].size))
    }

    predicate Reserved(addr: nat, size: nat) {
      exists b :: b in reserved && b <= addr && addr + size <= b + reserved[b]
    }

    function Create(own: Status): (Status, Gpu) {
      if own != OK then (own, this) else (OK, this.(live := live + {issued}, issued := issued + 1))
    }

    function Map(own: Status, addr: nat, size: nat, handle: nat): (Status, Gpu) {
      if own != OK then (own, this)
      else if Overlaps(addr, size) || !Reserved(addr, size) || handle !in live then (INVALID, this)
      else (OK, this.(mapped := mapped[addr := Mapping(size, handle)]))
    }

    function Unmap(own: Status, addr: nat, size: nat): (Status, Gpu) {
      if own != OK then (own, this)
      else if addr !in mapped || mapped[addr].size != size then (INVALID, this)
      else (OK, this.(mapped := mapped - {addr}))
    }

    function Release(own: Status, handle: nat): (Status, Gpu) {
      if own != OK then (own, this)
      else if handle !in live then (INVALID, this)
      else (OK, this.(live := live - {handle}))
    }

    function Reserve(own: Status, place: nat, size: nat): (Status, Gpu) {
      if own != OK then (own, this)
      else if size == 0 then (INVALID, this)
      else (OK, this.(reserved := reserved[place := size]))
    }

    function FreeRange(own: Status, addr: nat, size: nat): (Status, Gpu) {
      if own != OK then (own, this)
      else if addr !in reserved || reserved[addr] != size then (INVALID, this)
      else (OK, this.(reserved := reserved - {addr}))
    }
  }

  function ChunkAddr(dMem: nat, sizes: seq<nat>, k: nat): nat
    requires k <= |sizes|
  {
    dMem + Prefix(sizes, k)
  }

  /** The mappings of chunks i .. j - 1. */
  function ChunkMap(dMem: nat, sizes: seq<nat>, handles: seq<nat>, i: nat, j: nat): map<nat, Mapping>
    requires j <= |sizes| == |handles|
  {
    if j <= i then map[]
    else ChunkMap(dMem, sizes, handles, i, j - 1)[ChunkAddr(dMem, sizes, j - 1) := Mapping(sizes[j - 1], handles[j - 1])]
  }

  /** The handles i .. j - 1 of a consecutive issue. */
  function Issue(i: nat, j: nat): (r: set<nat>)
    ensures forall h :: h in r <==> i <= h < j
    decreases j
  {
    if j <= i then {} else Issue(i, j - 1) + {j - 1}
  }

  /** The handles that the cells of the chunks hold. */
  function Handles(cells: map<nat, nat>, ptrs: seq<nat>): (r: seq<nat>)
    requires forall i :: 0 <= i < |ptrs| ==> ptrs[i] in cells
    ensures |r| == |ptrs| && forall i :: 0 <= i < |ptrs| ==> r[i] == cells[ptrs[i]]
  {
    seq(|ptrs|, i requires 0 <= i < |ptrs| && ptrs[i] in cells => cells[ptrs[i]])
  }

  ghost predicate AddressesDistinct(dMem: nat, sizes: seq<nat>, n: nat)
    requires n <= |sizes|
  {
    forall k, k' :: 0 <= k < k' < n ==> ChunkAddr(dMem, sizes, k) != ChunkAddr(dMem, sizes, k')
  }

  lemma {:induction false} ChunkMapKeys(dMem: nat, sizes: seq<nat>, handles: seq<nat>, i: nat, j: nat, a: nat)
    requires j <= |sizes| == |handles|
    ensures a in ChunkMap(dMem, sizes, handles, i, j) <==> exists k :: i <= k < j && a == ChunkAddr(dMem, sizes, k)
  {
    if j > i {
      ChunkMapKeys(dMem, sizes, handles, i, j - 1, a);
      if exists k :: i <= k < j && a == ChunkAddr(dMem, sizes, k) {
        var k :| i <= k < j && a == ChunkAddr(dMem, sizes, k);
        assert k == j - 1 || i <= k < j - 1;
      }
    }
  }

  lemma {:induction false} ChunkMapValue(dMem: nat, sizes: seq<nat>, handles: seq<nat>, i: nat, j: nat, k: nat)
    requires j <= |sizes| == |handles| && i <= k < j && AddressesDistinct(dMem, sizes, j)
    ensures var a := ChunkAddr(dMem, sizes, k);
            a in ChunkMap(dMem, sizes, handles, i, j) && ChunkMap(dMem, sizes, handles, i, j)[a] == Mapping(sizes[k], handles[k])
  {
    if k < j - 1 {
      ChunkMapValue(dMem, sizes, handles, i, j - 1, k);
    }
  }

  lemma {:induction false} ChunkMapDropFirst(dMem: nat, sizes: seq<nat>, handles: seq<nat>, i: nat, j: nat)
    requires j <= |sizes| == |handles| && i < j && AddressesDistinct(dMem, sizes, j)
    ensures ChunkMap(dMem, sizes, handles, i, j) - {ChunkAddr(dMem, sizes, i)} == ChunkMap(dMem, sizes, handles, i + 1, j)
    ensures ChunkAddr(dMem, sizes, i) !in ChunkMap(dMem, sizes, handles, i + 1, j)
  {
    if j == i + 1 {
    } else {
      ChunkMapDropFirst(dMem, sizes, handles, i, j - 1);
    }
  }

  /** The chunks have a place: their range is reserved and nothing is mapped in it. */
  ghost predicate Feasible(reserved: map<nat, nat>, mapped: map<nat, Mapping>, dMem: nat, sizes: seq<nat>) {
    && dMem in reserved && Prefix(sizes, |sizes|) <= reserved[dMem]
    && (forall i :: 0 <= i < |sizes| ==> sizes[i] > 0)
    && (forall a :: a in mapped ==> mapped[a].size > 0 && (a + mapped[a].size <= dMem || dMem + Prefix(sizes, |sizes|) <= a))
  }

  lemma {:induction false} PrefixMonotone(sizes: seq<nat>, k: nat, n: nat)
    requires k <= n <= |sizes|
    ensures Prefix(sizes, k) <= Prefix(sizes, n)
    ensures k < n ==> Prefix(sizes, k) + sizes[k] <= Prefix(sizes, n)
    decreases n - k
  {
    if k < n {
      PrefixMonotone(sizes, k, n - 1);
    }
  }

  lemma MapAccepted(gpu: Gpu, dMem: nat, sizes: seq<nat>, handles: seq<nat>, i: nat)
    requires Feasible(gpu.reserved, gpu.mapped, dMem, sizes) && i < |sizes| == |handles| && AddressesDistinct(dMem, sizes, i)
    requires gpu.mapped.Keys !! ChunkMap(dMem, sizes, handles, 0, i).Keys
    ensures var now := gpu.(mapped := gpu.mapped + ChunkMap(dMem, sizes, handles, 0, i));
            !now.Overlaps(ChunkAddr(dMem, sizes, i), sizes[i]) && now.Reserved(ChunkAddr(dMem, sizes, i), sizes[i])
  {
    var chunks := ChunkMap(dMem, sizes, handles, 0, i);
    var now := gpu.(mapped := gpu.mapped + chunks);
    var addr := ChunkAddr(dMem, sizes, i);
    PrefixMonotone(sizes, i, |sizes|);
    PrefixMonotone(sizes, 0, i);
    forall a | a in now.mapped
      ensures !(a == addr || (a < addr + sizes[i] && addr < a + now.mapped[a].size))
    {
      if a in chunks {
        ChunkMapKeys(dMem, sizes, handles, 0, i, a);
        var k :| 0 <= k < i && a == ChunkAddr(dMem, sizes, k);
        ChunkMapValue(dMem, sizes, handles, 0, i, k);
        PrefixMonotone(sizes, k, i);
      } else {
        assert a in gpu.mapped;
      }
    }
  }

  lemma NoChunks(dMem: nat, sizes: seq<nat>, handles: seq<nat>)
    requires |sizes| == |handles|
    ensures ChunkMap(dMem, sizes, handles, 0, 0) == map[] && AddressesDistinct(dMem, sizes, 0)
  {
  }

  lemma UnmapStep(before: Gpu, next: Gpu, own: Status, dMem: nat, sizes: seq<nat>, handles: seq<nat>, j: nat, n: nat, keep: map<nat, Mapping>)
    requires j < n <= |sizes| == |handles| && AddressesDistinct(dMem, sizes, n)
    requires keep.Keys !! ChunkMap(dMem, sizes, handles, j, n).Keys
    requires next == before.Unmap(own, ChunkAddr(dMem, sizes, j), sizes[j]).1
    ensures keep.Keys !! ChunkMap(dMem, sizes, handles, j + 1, n).Keys
    ensures own == OK && before.mapped == keep + ChunkMap(dMem, sizes, handles, j, n) ==>
      next.mapped == keep + ChunkMap(dMem, sizes, handles, j + 1, n)
  {
    ChunkMapDropFirst(dMem, sizes, handles, j, n);
    ChunkMapValue(dMem, sizes, handles, j, n, j);
  }

  lemma MapStep(base: map<nat, Mapping>, dMem: nat, sizes: seq<nat>, handles: seq<nat>, i: nat)
    requires i < |sizes| == |handles| && AddressesDistinct(dMem, sizes, i)
    requires base.Keys !! ChunkMap(dMem, sizes, handles, 0, i).Keys
    requires ChunkAddr(dMem, sizes, i) !in base + ChunkMap(dMem, sizes, handles, 0, i)
    ensures AddressesDistinct(dMem, sizes, i + 1)
    ensures base.Keys !! ChunkMap(dMem, sizes, handles, 0, i + 1).Keys
    ensures base + ChunkMap(dMem, sizes, handles, 0, i + 1) ==
            (base + ChunkMap(dMem, sizes, handles, 0, i))[ChunkAddr(dMem, sizes, i) := Mapping(sizes[i], handles[i])]
  {
    ChunkMapKeys(dMem, sizes, handles, 0, i, ChunkAddr(dMem, sizes, i));
  }

  /** The statuses of a series of calls, and the driver after it. */
  datatype Trail = Trail(statuses: seq<Status>, gpu: Gpu)

  /** Calls c, c + 1, ... unmap the first n chunks, whatever each of them reports. */
  function UnmapAll(gpu: Gpu, fate: nat -> Status, c: nat, dMem: nat, sizes: seq<nat>, n: nat): (t: Trail)
    requires n <= |sizes|
    ensures |t.statuses| == n && t.gpu == gpu.(mapped := t.gpu.mapped)
  {
    if n == 0 then Trail([], gpu)
    else
      var t := UnmapAll(gpu, fate, c, dMem, sizes, n - 1);
      var r := t.gpu.Unmap(fate(c + n - 1), ChunkAddr(dMem, sizes, n - 1), sizes[n - 1]);
      Trail(t.statuses + [r.0], r.1)
  }

  /** Calls c, c + 1, ... release the first n handles. */
  function ReleaseAll(gpu: Gpu, fate: nat -> Status, c: nat, handles: seq<nat>, n: nat): (t: Trail)
    requires n <= |handles|
    ensures |t.statuses| == n && t.gpu == gpu.(live := t.gpu.live)
  {
    if n == 0 then Trail([], gpu)
    else
      var t := ReleaseAll(gpu, fate, c, handles, n - 1);
      var r := t.gpu.Release(fate(c + n - 1), handles[n - 1]);
      Trail(t.statuses + [r.0], r.1)
  }

  /** A failing unmap stops nothing: of the chunks that were mapped, exactly those whose own call fails
      stay, and every status is the driver's own. */
  lemma {:induction false} UnmapAllExact(gpu: Gpu, fate: nat -> Status, c: nat, dMem: nat, sizes: seq<nat>, n: nat)
    requires n <= |sizes| && AddressesDistinct(dMem, sizes, |sizes|)
    requires forall k :: 0 <= k < |sizes| ==> MappedAt(gpu, dMem, sizes, k)
    ensures var t := UnmapAll(gpu, fate, c, dMem, sizes, n);
      && (forall k :: 0 <= k < n ==> t.statuses[k] == fate(c + k))
      && (forall k :: 0 <= k < n ==> (ChunkAddr(dMem, sizes, k) in t.gpu.mapped <==> fate(c + k) != OK))
      && (forall k :: n <= k < |sizes| ==> MappedAt(t.gpu, dMem, sizes, k))
  {
    if n > 0 {
      UnmapAllExact(gpu, fate, c, dMem, sizes, n - 1);
      var before, after := UnmapAll(gpu, fate, c, dMem, sizes, n - 1).gpu, UnmapAll(gpu, fate, c, dMem, sizes, n).gpu;
      assert MappedAt(before, dMem, sizes, n - 1);
      forall k | n <= k < |sizes|
        ensures MappedAt(after, dMem, sizes, k)
      {
        assert MappedAt(before, dMem, sizes, k);
      }
    }
  }

  /** No other mapping is touched. */
  lemma {:induction false} UnmapAllFrame(gpu: Gpu, fate: nat -> Status, c: nat, dMem: nat, sizes: seq<nat>, n: nat, a: nat)
    requires n <= |sizes|
    ensures var t := UnmapAll(gpu, fate, c, dMem, sizes, n);
      && (a in t.gpu.mapped ==> a in gpu.mapped && t.gpu.mapped[a] == gpu.mapped[a])
      && (a in gpu.mapped && !IsChunk(dMem, sizes, n, a) ==> a in t.gpu.mapped)
  {
    if n > 0 {
      UnmapAllFrame(gpu, fate, c, dMem, sizes, n - 1, a);
    }
  }

  /** One of the first n chunks is at address a. */
  ghost predicate IsChunk(dMem: nat, sizes: seq<nat>, n: nat, a: nat)
    requires n <= |sizes|
  {
    exists k :: 0 <= k < n && a == ChunkAddr(dMem, sizes, k)
  }

  ghost predicate MappedAt(gpu: Gpu, dMem: nat, sizes: seq<nat>, k: nat)
    requires k < |sizes|
  {
    ChunkAddr(dMem, sizes, k) in gpu.mapped && gpu.mapped[ChunkAddr(dMem, sizes, k)].size == sizes[k]
  }

  /** The same of releasing. */
  lemma {:induction false} ReleaseAllExact(gpu: Gpu, fate: nat -> Status, c: nat, handles: seq<nat>, n: nat)
    requires n <= |handles| && Distinct(handles) && forall k :: 0 <= k < |handles| ==> handles[k] in gpu.live
    ensures var t := ReleaseAll(gpu, fate, c, handles, n);
      && (forall k :: 0 <= k < n ==> t.statuses[k] == fate(c + k))
      && (forall k :: 0 <= k < n ==> (handles[k] in t.gpu.live <==> fate(c + k) != OK))
      && (forall k :: n <= k < |handles| ==> handles[k] in t.gpu.live)
      && t.gpu.live <= gpu.live
      && (forall h :: h in gpu.live && h !in t.gpu.live ==> h in handles[..n])
  {
    if n > 0 {
      ReleaseAllExact(gpu, fate, c, handles, n - 1);
      assert handles[..n] == handles[..n - 1] + [handles[n - 1]];
    }
  }

  /** Releasing handles that are all dead changes nothing, and is refused each time. */
  lemma {:induction false} ReleaseDead(gpu: Gpu, fate: nat -> Status, c: nat, handles: seq<nat>, n: nat)
    requires n <= |handles| && forall k :: 0 <= k < |handles| ==> handles[k] !in gpu.live
    ensures ReleaseAll(gpu, fate, c, handles, n).gpu == gpu
    ensures forall k :: 0 <= k < n ==> ReleaseAll(gpu, fate, c, handles, n).statuses[k] != OK
  {
    if n > 0 {
      ReleaseDead(gpu, fate, c, handles, n - 1);
    }
  }

  lemma {:induction false} UnmapAbsent(gpu: Gpu, fate: nat -> Status, c: nat, dMem: nat, sizes: seq<nat>, n: nat)
    requires n <= |sizes| && forall k :: 0 <= k < |sizes| ==> ChunkAddr(dMem, sizes, k) !in gpu.mapped
    ensures UnmapAll(gpu, fate, c, dMem, sizes, n).gpu == gpu
    ensures forall k :: 0 <= k < n ==> UnmapAll(gpu, fate, c, dMem, sizes, n).statuses[k] != OK
  {
    if n > 0 {
      UnmapAbsent(gpu, fate, c, dMem, sizes, n - 1);
    }
  }

  /** Unmap every chunk, then release every handle. */
  function Teardown(gpu: Gpu, cells: map<nat, nat>, fate: nat -> Status, c: nat, dMem: nat, ptrs: seq<nat>, sizes: seq<nat>): Trail
    requires |ptrs| == |sizes| && forall i :: 0 <= i < |ptrs| ==> ptrs[i] in cells
  {
    var unmapped := UnmapAll(gpu, fate, c, dMem, sizes, |sizes|);
    var released := ReleaseAll(unmapped.gpu, fate, c + |sizes|, Handles(cells, ptrs), |ptrs|);
    Trail(unmapped.statuses + released.statuses, released.gpu)
  }

  /** A call that reports OK raised no error of its own. */
  lemma {:induction false} UnmapAllOwn(gpu: Gpu, fate: nat -> Status, c: nat, dMem: nat, sizes: seq<nat>, n: nat)
    requires n <= |sizes|
    ensures forall k :: 0 <= k < n && UnmapAll(gpu, fate, c, dMem, sizes, n).statuses[k] == OK ==> fate(c + k) == OK
  {
    if n > 0 {
      UnmapAllOwn(gpu, fate, c, dMem, sizes, n - 1);
    }
  }

  lemma {:induction false} ReleaseAllOwn(gpu: Gpu, fate: nat -> Status, c: nat, handles: seq<nat>, n: nat)
    requires n <= |handles|
    ensures forall k :: 0 <= k < n && ReleaseAll(gpu, fate, c, handles, n).statuses[k] == OK ==> fate(c + k) == OK
  {
    if n > 0 {
      ReleaseAllOwn(gpu, fate, c, handles, n - 1);
    }
  }

  /** So a teardown without an error was quiet. */
  lemma {:induction false} TeardownQuiet(gpu: Gpu, cells: map<nat, nat>, fate: nat -> Status, c: nat, dMem: nat, ptrs: seq<nat>, sizes: seq<nat>)
    requires |ptrs| == |sizes| && forall i :: 0 <= i < |ptrs| ==> ptrs[i] in cells
    requires FirstError(Teardown(gpu, cells, fate, c, dMem, ptrs, sizes).statuses) == OK
    ensures forall k :: c <= k < c + 2 * |sizes| ==> fate(k) == OK
  {
    var unmapped := UnmapAll(gpu, fate, c, dMem, sizes, |sizes|);
    var released := ReleaseAll(unmapped.gpu, fate, c + |sizes|, Handles(cells, ptrs), |ptrs|);
    var statuses := unmapped.statuses + released.statuses;
    UnmapAllOwn(gpu, fate, c, dMem, sizes, |sizes|);
    ReleaseAllOwn(unmapped.gpu, fate, c + |sizes|, Handles(cells, ptrs), |ptrs|);
    hide UnmapAll, ReleaseAll, FirstError;
    var _ := FirstErrorIsFirst(statuses);
    forall k | c <= k < c + 2 * |sizes|
      ensures fate(k) == OK
    {
      assert statuses[k - c] == OK;
      if k - c < |sizes| {
        assert unmapped.statuses[k - c] == OK;
      } else {
        assert released.statuses[k - c - |sizes|] == OK;
      }
    }
  }

  function FirstError(statuses: seq<Status>): Status {
    if statuses == [] then OK
    else if statuses[0] != OK then statuses[0]
    else FirstError(statuses[1..])
  }

  /** Keeping the first error while the statuses come in one by one. */
  lemma {:induction false} FirstErrorAppend(statuses: seq<Status>, s: Status)
    ensures FirstError(statuses + [s]) == if FirstError(statuses) != OK then FirstError(statuses) else s
  {
    if statuses != [] {
      FirstErrorAppend(statuses[1..], s);
      assert (statuses + [s])[1..] == statuses[1..] + [s];
    }
  }

  lemma {:induction false} FirstErrorIsFirst(statuses: seq<Status>) returns (k: nat)
    ensures k <= |statuses| && forall j :: 0 <= j < k ==> statuses[j] == OK
    ensures FirstError(statuses) == OK <==> k == |statuses|
    ensures k < |statuses| ==> statuses[k] == FirstError(statuses)
  {
    if statuses == [] || statuses[0] != OK {
      k := 0;
    } else {
      var rest := FirstErrorIsFirst(statuses[1..]);
      k := rest + 1;
    }
  }
}
