/** Chunk arithmetic of the ROCm allocator path (csrc/cumem_allocator.cpp:21-47, 319, 340-369).
    Sizes are 64-bit unsigned in the source, so every sum and product that can wrap is written out. */
module Chunking {
  import opened Arith
  import opened Options

  const U64: nat := 0x1_0000_0000_0000_0000
  const MB: nat := 1024 * 1024
  const DEFAULT_MEMCREATE_CHUNK_SIZE: nat := 256 * MB

  /** VLLM_ROCM_SLEEP_MEM_CHUNK_SIZE as strtoull sees it: absent, not a number or out of range, or a value. */
  datatype Setting = Unset | Unparsable | Megabytes(value: nat)

  function MemcreateChunkSize(s: Setting): nat {
    if !s.Megabytes? || s.value == 0 || s.value > (U64 - 1) / MB then DEFAULT_MEMCREATE_CHUNK_SIZE else s.value * MB
  }

  /** The setting is used exactly when it is a positive number of megabytes that fits in 64 bits. */
  lemma ChunkSizeFits(s: Setting)
    ensures 0 < MemcreateChunkSize(s) < U64 && MemcreateChunkSize(s) % MB == 0
    ensures s.Megabytes? ==>
      (MemcreateChunkSize(s) == s.value * MB <==> (0 < s.value && s.value * MB < U64))
  {
    FloorMul(U64 - 1, MB);
    if s.Megabytes? && 0 < s.value {
      if s.value <= (U64 - 1) / MB {
        MulLe(s.value, (U64 - 1) / MB, MB);
        DivUnique(s.value * MB, MB, s.value, 0);
      } else {
        MulLe((U64 - 1) / MB + 1, s.value, MB);
      }
    }
  }

  /** ((n + g - 1) / g) * g in 64 bits. */
  function AlignUp(n: nat, g: nat): nat
    requires g > 0
  {
    var units: nat := (n + g - 1) % U64 / g;
    units * g
  }

  lemma AlignUpExact(n: nat, g: nat)
    requires g > 0 && n + g - 1 < U64
    ensures AlignUp(n, g) % g == 0 && n <= AlignUp(n, g) < n + g
    ensures AlignUp(n, g) == n <==> n % g == 0
  {
    var q := (n + g - 1) / g;
    FloorMul(n + g - 1, g);
    DivUnique(q * g, g, q, 0);
    if n % g == 0 {
      FloorMul(n, g);
      DivUnique(n + g - 1, g, n / g, g - 1);
    }
  }

  /** Rounding the chunk size up comes out as zero, and the next division is by zero, exactly when it
      overflows. */
  lemma AlignedChunkIsZero(base: nat, g: nat)
    requires 0 < base < U64 && 0 < g < U64
    ensures AlignUp(base, g) == 0 <==> base + g - 1 >= U64
  {
    var wrapped := (base + g - 1) % U64;
    if base + g - 1 >= U64 {
      DivUnique(base + g - 1, U64, 1, base + g - 1 - U64);
      DivUnique(wrapped, g, 0, wrapped);
    } else {
      AlignUpExact(base, g);
    }
  }

  /** The largest setting that the overflow guard lets through does so with a granularity of 2 MB. */
  lemma LargestSettingDividesByZero()
    ensures MemcreateChunkSize(Megabytes(0xFFF_FFFF_FFFF)) == 0xFFF_FFFF_FFFF * MB
    ensures AlignUp(MemcreateChunkSize(Megabytes(0xFFF_FFFF_FFFF)), 2 * MB) == 0
  {
    ChunkSizeFits(Megabytes(0xFFF_FFFF_FFFF));
    AlignedChunkIsZero(0xFFF_FFFF_FFFF * MB, 2 * MB);
  }

  function NumChunks(aligned: nat, chunk: nat): nat
    requires chunk > 0
  {
    (aligned + chunk - 1) % U64 / chunk
  }

  /** There is no chunk exactly when the range is empty or the division that counts them overflows. */
  lemma NoChunksIff(aligned: nat, chunk: nat)
    requires aligned < U64 && 0 < chunk < U64
    ensures NumChunks(aligned, chunk) == 0 <==> aligned == 0 || aligned + chunk - 1 >= U64
    ensures aligned + chunk - 1 < U64 ==> NumChunks(aligned, chunk) == (aligned + chunk - 1) / chunk
  {
    var sum := aligned + chunk - 1;
    if sum >= U64 {
      DivUnique(sum, U64, 1, sum - U64);
      DivUnique(sum - U64, chunk, 0, sum - U64);
    } else {
      DivUnique(sum, U64, 0, sum);
      if aligned == 0 {
        DivUnique(sum, chunk, 0, sum);
      } else {
        FloorMul(sum, chunk);
      }
    }
  }

  /** A setting that the guard admits, whose rounding does not overflow, and a request of 4 MB that gets no
      chunk at all. */
  lemma AdmittedSettingGetsNoChunk()
    ensures var base := MemcreateChunkSize(Megabytes(0xFFF_FFFF_FFFE));
            var chunk := AlignUp(base, 2 * MB);
            base == 0xFFF_FFFF_FFFE * MB && AlignUp(4 * MB, 2 * MB) == 4 * MB && 0 < chunk && NumChunks(4 * MB, chunk) == 0
  {
    var base := 0xFFF_FFFF_FFFE * MB;
    ChunkSizeFits(Megabytes(0xFFF_FFFF_FFFE));
    AlignUpExact(base, 2 * MB);
    AlignUpExact(4 * MB, 2 * MB);
    NoChunksIff(4 * MB, AlignUp(base, 2 * MB));
  }

  function ChunkCount(size: nat, g: nat, base: nat): nat
    requires g > 0
  {
    if AlignUp(base, g) == 0 then 0 else NumChunks(AlignUp(size, g), AlignUp(base, g))
  }

  /** No rounding of this request overflows. */
  predicate Fits(size: nat, g: nat, base: nat) {
    0 < g && 0 < base && size + g - 1 < U64 && base + g - 1 < U64 && AlignUp(size, g) + AlignUp(base, g) - 1 < U64
  }

  /** What each overflow leads to: rounding the size, to an empty range; rounding the chunk size, to a
      division by zero; counting the chunks, to none. */
  lemma Overflows(size: nat, g: nat, base: nat)
    requires size < U64 && 0 < g < U64 && 0 < base < U64
    ensures AlignUp(size, g) < U64 && AlignUp(base, g) < U64
    ensures size + g - 1 >= U64 ==> AlignUp(size, g) == 0
    ensures size + g - 1 < U64 ==> size <= AlignUp(size, g) && AlignUp(size, g) % g == 0
    ensures base + g - 1 >= U64 <==> AlignUp(base, g) == 0
    ensures base + g - 1 < U64 ==> AlignUp(base, g) % g == 0
    ensures AlignUp(base, g) > 0 && (Fits(size, g, base) ==> size == 0) ==> NumChunks(AlignUp(size, g), AlignUp(base, g)) == 0
  {
    AlignBelow(size, g);
    AlignBelow(base, g);
    AlignedChunkIsZero(base, g);
    if base + g - 1 < U64 {
      AlignUpExact(base, g);
    }
    if size + g - 1 < U64 {
      AlignUpExact(size, g);
    } else {
      AlignedChunkIsZero(size, g);
    }
    hide AlignUp, NumChunks;
    if AlignUp(base, g) > 0 && (Fits(size, g, base) ==> size == 0) {
      SizeZero(size, g);
      NoChunksIff(AlignUp(size, g), AlignUp(base, g));
    }
  }

  lemma AlignBelow(n: nat, g: nat)
    requires 0 < g
    ensures AlignUp(n, g) < U64
  {
    FloorMul((n + g - 1) % U64, g);
  }

  lemma SizeZero(size: nat, g: nat)
    requires 0 < g < U64
    ensures size == 0 ==> AlignUp(size, g) == 0
  {
    if size == 0 {
      DivUnique(g - 1, U64, 0, g - 1);
      DivUnique(g - 1, g, 0, g - 1);
    }
  }

  function Prefix(sizes: seq<nat>, n: nat): nat
    requires n <= |sizes|
  {
    if n == 0 then 0 else Prefix(sizes, n - 1) + sizes[n - 1]
  }

  /** The chunks tile `aligned` bytes: positive multiples of g, all but the last of size `chunk`, the
      running sums being the offsets 0, chunk, 2 * chunk, ..., aligned. */
  ghost predicate Tiles(sizes: seq<nat>, aligned: nat, chunk: nat, g: nat) {
    && g > 0
    && (forall i :: 0 <= i < |sizes| ==> 0 < sizes[i] <= chunk && sizes[i] % g == 0)
    && (forall i :: 0 <= i < |sizes| - 1 ==> sizes[i] == chunk)
    && (forall i :: 0 <= i < |sizes| ==> Prefix(sizes, i) == i * chunk)
    && Prefix(sizes, |sizes|) == aligned
  }

  /** The rounded size and the chunks. */
  datatype Table = Table(aligned: nat, sizes: seq<nat>)

  /** The chunk table of my_malloc; None stands for the division by zero.  There is a table, and it tiles a
      range of at least the size asked for, exactly if nothing overflows. */
  method ChunkSizes(size: nat, g: nat, base: nat) returns (r: Option<Table>)
    requires size < U64 && 0 < g < U64 && 0 < base < U64
    ensures r == None <==> base + g - 1 >= U64
    ensures r.Some? ==> r.value.aligned == AlignUp(size, g)
    ensures r.Some? && Prefix(r.value.sizes, |r.value.sizes|) >= size <==> Fits(size, g, base)
    ensures r.Some? && !Fits(size, g, base) ==> r.value.sizes == []
    ensures r.Some? ==> |r.value.sizes| == ChunkCount(size, g, base)
    ensures Fits(size, g, base) ==> Tiles(r.value.sizes, AlignUp(size, g), AlignUp(base, g), g)
  {
    hide AlignUp, NumChunks, Tiles, Prefix;
    Overflows(size, g, base);
    var aligned, chunk := AlignUp(size, g), AlignUp(base, g);
    if chunk == 0 {
      return None;
    }
    var numChunks := NumChunks(aligned, chunk);
    NoChunksIff(aligned, chunk);
    NoTiles(chunk, g);
    SizeZero(size, g);
    var sizes := [];
    if numChunks > 0 {
      sizes := FillTable(aligned, chunk, numChunks, g);
    }
    r := Some(Table(aligned, sizes));
  }

  lemma NoTiles(chunk: nat, g: nat)
    requires g > 0
    ensures Prefix([], 0) == 0 && Tiles([], 0, chunk, g)
  {
  }

  /** The chunks so far: the offsets are multiples of the chunk size, and the last chunk ends the range. */
  ghost predicate Tiling(sizes: seq<nat>, aligned: nat, chunk: nat, numChunks: nat, g: nat) {
    && g > 0 && |sizes| <= numChunks
    && (forall k :: 0 <= k < |sizes| ==> 0 < sizes[k] <= chunk && sizes[k] % g == 0)
    && (forall k :: 0 <= k < |sizes| && k < numChunks - 1 ==> sizes[k] == chunk)
    && (forall k :: 0 <= k < |sizes| ==> Prefix(sizes, k) == k * chunk)
    && Prefix(sizes, |sizes|) == if |sizes| < numChunks then |sizes| * chunk else aligned
  }

  /** The loop that fills the table. */
  method FillTable(aligned: nat, chunk: nat, numChunks: nat, g: nat) returns (sizes: seq<nat>)
    requires g > 0 && chunk > 0 && aligned % g == 0 && chunk % g == 0 && aligned + chunk - 1 < U64
    requires numChunks == (aligned + chunk - 1) / chunk
    ensures |sizes| == numChunks && Tiles(sizes, aligned, chunk, g) && Prefix(sizes, |sizes|) == aligned
  {
    TilingStart(aligned, chunk, numChunks, g);
    hide Tiling, ChunkAt;
    sizes := [];
    for i := 0 to numChunks
      invariant |sizes| == i && Tiling(sizes, aligned, chunk, numChunks, g)
    {
      TilingStep(sizes, aligned, chunk, numChunks, g);
      sizes := sizes + [ChunkAt(aligned, chunk, i)];
    }
    TilingEnd(sizes, aligned, chunk, numChunks, g);
  }

  lemma TilingStart(aligned: nat, chunk: nat, numChunks: nat, g: nat)
    requires g > 0 && chunk > 0 && numChunks == (aligned + chunk - 1) / chunk
    ensures Tiling([], aligned, chunk, numChunks, g)
  {
    FloorMul(aligned + chunk - 1, chunk);
  }

  lemma TilingEnd(sizes: seq<nat>, aligned: nat, chunk: nat, numChunks: nat, g: nat)
    requires Tiling(sizes, aligned, chunk, numChunks, g) && |sizes| == numChunks
    ensures Tiles(sizes, aligned, chunk, g) && Prefix(sizes, |sizes|) == aligned
  {
  }

  lemma TilingStep(sizes: seq<nat>, aligned: nat, chunk: nat, numChunks: nat, g: nat)
    requires g > 0 && chunk > 0 && aligned % g == 0 && chunk % g == 0 && aligned + chunk - 1 < U64
    requires numChunks == (aligned + chunk - 1) / chunk
    requires Tiling(sizes, aligned, chunk, numChunks, g) && |sizes| < numChunks
    ensures Tiling(sizes + [ChunkAt(aligned, chunk, |sizes|)], aligned, chunk, numChunks, g)
  {
    var i := |sizes|;
    var s := ChunkAt(aligned, chunk, i);
    ChunkAtTiles(aligned, chunk, numChunks, i, g);
    PrefixAppend(sizes, s, i);
    hide ChunkAt, Prefix;
    var next := sizes + [s];
    forall k | 0 <= k < |next|
      ensures 0 < next[k] <= chunk && next[k] % g == 0 && (k < numChunks - 1 ==> next[k] == chunk) && Prefix(next, k) == k * chunk
    {
      if k < i {
        assert next[k] == sizes[k];
      }
    }
  }

  /** my_min(alignedSize - i * aligned_chunk_size, aligned_chunk_size) in 64 bits. */
  function ChunkAt(aligned: nat, chunk: nat, i: nat): nat {
    var rest: nat := (aligned - i * chunk) % U64;
    if rest < chunk then rest else chunk
  }

  lemma ChunkAtTiles(aligned: nat, chunk: nat, numChunks: nat, i: nat, g: nat)
    requires g > 0 && chunk > 0 && aligned % g == 0 && chunk % g == 0 && aligned + chunk - 1 < U64
    requires numChunks == (aligned + chunk - 1) / chunk && i < numChunks
    ensures 0 < ChunkAt(aligned, chunk, i) <= chunk && ChunkAt(aligned, chunk, i) % g == 0
    ensures i < numChunks - 1 ==> ChunkAt(aligned, chunk, i) == chunk
    ensures i * chunk + ChunkAt(aligned, chunk, i) == if i + 1 < numChunks then (i + 1) * chunk else aligned
  {
    ChunkRest(aligned, chunk, numChunks, i, g);
  }

  lemma {:induction false} PrefixAppend(sizes: seq<nat>, s: nat, i: nat)
    requires i <= |sizes|
    ensures forall k :: 0 <= k <= i ==> Prefix(sizes + [s], k) == Prefix(sizes, k)
    ensures Prefix(sizes + [s], |sizes| + 1) == Prefix(sizes + [s], |sizes|) + s
  {
    if i > 0 {
      PrefixAppend(sizes, s, i - 1);
    }
  }

  /** What is left of the range at chunk i. */
  lemma ChunkRest(aligned: nat, chunk: nat, numChunks: nat, i: nat, g: nat)
    requires g > 0 && chunk > 0 && aligned % g == 0 && chunk % g == 0 && aligned + chunk - 1 < U64
    requires numChunks == (aligned + chunk - 1) / chunk && i < numChunks
    ensures i * chunk < aligned
    ensures (aligned - i * chunk) % g == 0 && (aligned - i * chunk) % U64 == aligned - i * chunk
    ensures i < numChunks - 1 <==> aligned - i * chunk > chunk
    ensures (i + 1) * chunk == i * chunk + chunk
  {
    FloorMul(aligned + chunk - 1, chunk);
    MulLe(i + 1, numChunks, chunk);
    if i < numChunks - 1 {
      MulLe(i + 2, numChunks, chunk);
    }
    RestIsMultiple(aligned, chunk, i, g);
  }

  lemma RestIsMultiple(aligned: nat, chunk: nat, i: nat, g: nat)
    requires g > 0 && aligned % g == 0 && chunk % g == 0 && i * chunk <= aligned
    ensures (aligned - i * chunk) % g == 0
  {
    FloorMul(aligned, g);
    FloorMul(chunk, g);
    MultipleMinus(aligned, aligned / g, chunk, chunk / g, i, g);
  }

  lemma MultipleMinus(a: nat, p: nat, c: nat, q: nat, i: nat, g: nat)
    requires g > 0 && a == p * g && c == q * g && i * c <= a
    ensures (a - i * c) % g == 0
  {
    assert a - i * c == (p - i * q) * g;
    DivUnique(a - i * c, g, p - i * q, 0);
  }
}
