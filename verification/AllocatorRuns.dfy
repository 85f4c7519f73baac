/** What whole runs of the sleepable allocator promise about tags and contents
    (vllm/device_allocator/cumem.py): an allocation keeps the tag it was made under, and that tag decides
    what survives a sleep and what wakes up. */
module AllocatorRuns {
  import opened Options
  import opened CumemAllocator

  /** The states of a run of successful operations, as Allocator.Run gives them. */
  ghost predicate Trace(trace: seq<Snapshot>, ops: seq<Op>) {
    |trace| == |ops| + 1 && forall i :: 0 <= i < |ops| ==> Follows(trace[i].(freed := None), ops[i], trace[i + 1])
  }

  /** p is not freed by the operations from i to j. */
  ghost predicate Kept(ops: seq<Op>, i: nat, j: nat, p: nat)
    requires j <= |ops|
  {
    forall m :: i <= m < j && ops[m].Freeing? ==> ops[m].ptr != p
  }

  /** Operation i has made the allocation at p, and it is still there before operation k. */
  ghost predicate MadeBy(ops: seq<Op>, i: nat, k: nat, p: nat)
    requires k <= |ops|
  {
    i < k && ops[i].Malloc? && ops[i].place == p && Kept(ops, i + 1, k, p)
  }

  lemma EntryStep(s: Snapshot, op: Op, t: Snapshot, p: nat)
    requires Follows(s, op, t)
    ensures p in s.table && !(op.Freeing? && op.ptr == p) ==> p in t.table && t.table[p] == s.table[p] && !(op.Malloc? && op.place == p)
    ensures p in t.table && p !in s.table ==> op.Malloc? && op.place == p && t.table[p].tag == s.tag
    ensures op.Malloc? && op.place == p ==> p in t.table && t.table[p].tag == s.tag
    ensures op.Freeing? && op.ptr == p ==> p !in t.table
  {
    hide PoolState.Sound, Gone, Saved;
  }

  /** An allocation that is not freed keeps its tuple, and so its tag. */
  lemma {:induction false} EntryStays(trace: seq<Snapshot>, ops: seq<Op>, i: nat, j: nat, p: nat)
    requires Trace(trace, ops) && i <= j <= |ops| && p in trace[i].table && Kept(ops, i, j, p)
    ensures p in trace[j].table && trace[j].table[p] == trace[i].table[p]
  {
    hide Follows;
    if i < j {
      EntryStays(trace, ops, i, j - 1, p);
      EntryStep(trace[j - 1].(freed := None), ops[j - 1], trace[j], p);
    }
  }

  /** From an empty table on, the entries are those made and not freed, each under the tag that was current
      when it was made. */
  lemma {:induction false} TableIsMade(trace: seq<Snapshot>, ops: seq<Op>, k: nat, p: nat)
    requires Trace(trace, ops) && trace[0].table == map[] && k <= |ops|
    ensures p in trace[k].table <==> exists i: nat :: MadeBy(ops, i, k, p)
    ensures forall i: nat :: MadeBy(ops, i, k, p) ==> p in trace[k].table && trace[k].table[p].tag == trace[i].tag
  {
    hide Follows;
    if k > 0 {
      TableIsMade(trace, ops, k - 1, p);
      var s, op, t := trace[k - 1].(freed := None), ops[k - 1], trace[k];
      EntryStep(s, op, t, p);
      MadeStep(ops, k - 1, p);
      hide MadeBy, Trace;
      forall i: nat | MadeBy(ops, i, k, p)
        ensures p in t.table && t.table[p].tag == trace[i].tag
      {
        MadeBefore(ops, i, k, p);
        if i < k - 1 {
          assert MadeBy(ops, i, (k - 1) + 1, p);
          assert MadeBy(ops, i, k - 1, p);
        } else {
          assert MadeBy(ops, k - 1, (k - 1) + 1, p);
        }
      }
    }
  }

  lemma MadeBefore(ops: seq<Op>, i: nat, k: nat, p: nat)
    requires k <= |ops| && MadeBy(ops, i, k, p)
    ensures i < k
  {
  }

  lemma MadeStep(ops: seq<Op>, k: nat, p: nat)
    requires k < |ops|
    ensures forall i: nat :: i < k ==> (MadeBy(ops, i, k + 1, p) <==> MadeBy(ops, i, k, p) && !(ops[k].Freeing? && ops[k].ptr == p))
    ensures MadeBy(ops, k, k + 1, p) <==> ops[k].Malloc? && ops[k].place == p
  {
    forall i: nat | i < k
      ensures MadeBy(ops, i, k + 1, p) <==> MadeBy(ops, i, k, p) && !(ops[k].Freeing? && ops[k].ptr == p)
    {
      if Kept(ops, i + 1, k, p) && !(ops[k].Freeing? && ops[k].ptr == p) {
        assert Kept(ops, i + 1, k + 1, p);
      }
      if Kept(ops, i + 1, k + 1, p) {
        assert Kept(ops, i + 1, k, p);
      }
    }
  }

  /** wake_up chooses exactly the allocations made, and not freed, under the tags it is given. */
  lemma ChosenByTag(trace: seq<Snapshot>, ops: seq<Op>, k: nat, wanted: Option<set<string>>, p: nat)
    requires Trace(trace, ops) && trace[0].table == map[] && k <= |ops|
    ensures p in Chosen(trace[k].table, wanted) <==>
            exists i: nat :: MadeBy(ops, i, k, p) && (wanted == None || trace[i].tag in wanted.value)
  {
    hide Follows, Kept;
    TableIsMade(trace, ops, k, p);
  }

  /** p sleeps with this copy of its contents. */
  ghost predicate AsleepWith(s: Snapshot, p: nat, tag: string, content: Content) {
    p in s.table && s.table[p].tag == tag && p !in s.awake && p in s.backup && s.backup[p] == content
  }

  lemma AsleepStep(s: Snapshot, op: Op, t: Snapshot, p: nat, tag: string, content: Content)
    requires Follows(s, op, t) && AsleepWith(s, p, tag, content)
    requires !(op.Freeing? && op.ptr == p) && !(op.Waking? && (op.wanted == None || tag in op.wanted.value))
    ensures AsleepWith(t, p, tag, content)
  {
    hide PoolState.Sound, Gone, Saved;
  }

  lemma {:induction false} AsleepStays(trace: seq<Snapshot>, ops: seq<Op>, j: nat, k: nat, p: nat, tag: string, content: Content)
    requires Trace(trace, ops) && j <= k <= |ops| && AsleepWith(trace[j], p, tag, content) && Kept(ops, j, k, p)
    requires forall m :: j <= m < k && ops[m].Waking? ==> ops[m].wanted != None && tag !in ops[m].wanted.value
    ensures AsleepWith(trace[k], p, tag, content)
  {
    hide Follows, AsleepWith;
    if j < k {
      AsleepStays(trace, ops, j, k - 1, p, tag, content);
      AsleepIgnoresFreed(trace[k - 1], p, tag, content);
      AsleepStep(trace[k - 1].(freed := None), ops[k - 1], trace[k], p, tag, content);
    }
  }

  lemma AsleepIgnoresFreed(s: Snapshot, p: nat, tag: string, content: Content)
    ensures AsleepWith(s.(freed := None), p, tag, content) <==> AsleepWith(s, p, tag, content)
  {
  }

  lemma FallsAsleep(s: Snapshot, op: Op, t: Snapshot, p: nat, tag: string)
    requires Follows(s, op, t) && op.Sleeping? && p in s.table && s.table[p].tag == tag
    requires if op.offload == None then tag == "default" else tag in op.offload.value
    ensures p in s.data && AsleepWith(t, p, tag, s.data[p])
  {
    hide PoolState.Sound, Gone;
  }

  lemma WakesUp(s: Snapshot, op: Op, t: Snapshot, p: nat, tag: string, content: Content)
    requires Follows(s, op, t) && op.Waking? && AsleepWith(s, p, tag, content) && (op.wanted == None || tag in op.wanted.value)
    ensures p in t.data && t.data[p] == content && p in t.awake
  {
    hide PoolState.Sound, Gone, Saved;
  }

  /** An allocation made under a tag, put to sleep when that tag is offloaded (by default the default tag), and
      woken later, has the contents it had when it went to sleep; whatever happens in between. */
  lemma ContentsComeBack(trace: seq<Snapshot>, ops: seq<Op>, i: nat, j: nat, k: nat, p: nat)
    requires Trace(trace, ops) && j < k < |ops| && MadeBy(ops, i, j, p) && Kept(ops, j, k, p)
    requires ops[j].Sleeping? && if ops[j].offload == None then trace[i].tag == "default" else trace[i].tag in ops[j].offload.value
    requires ops[k].Waking? && (ops[k].wanted == None || trace[i].tag in ops[k].wanted.value)
    requires forall m :: j < m < k && ops[m].Waking? ==> ops[m].wanted != None && trace[i].tag !in ops[m].wanted.value
    ensures p in trace[j].data && p in trace[k + 1].data && trace[k + 1].data[p] == trace[j].data[p]
  {
    hide Follows, AsleepWith;
    var tag := trace[i].tag;
    EntryStep(trace[i].(freed := None), ops[i], trace[i + 1], p);
    EntryStays(trace, ops, i + 1, j, p);
    FallsAsleep(trace[j].(freed := None), ops[j], trace[j + 1], p, tag);
    AsleepStays(trace, ops, j + 1, k, p, tag, trace[j].data[p]);
    AsleepIgnoresFreed(trace[k], p, tag, trace[j].data[p]);
    WakesUp(trace[k].(freed := None), ops[k], trace[k + 1], p, tag, trace[j].data[p]);
  }

  lemma ContentStep(s: Snapshot, op: Op, t: Snapshot, p: nat)
    requires Follows(s, op, t) && p in s.data && p in s.table
    requires !((op.Freeing? || op.Writing?) && op.ptr == p) && !op.Sleeping?
    ensures p in t.data && t.data[p] == s.data[p] && p in t.table
  {
    hide PoolState.Sound, Gone, Saved;
  }

  /** Nothing but a store to it, a sleep or a free changes what an allocation contains. */
  lemma {:induction false} ContentsStay(trace: seq<Snapshot>, ops: seq<Op>, i: nat, j: nat, p: nat)
    requires Trace(trace, ops) && i <= j <= |ops| && p in trace[i].data && p in trace[i].table
    requires forall m :: i <= m < j ==> !((ops[m].Freeing? || ops[m].Writing?) && ops[m].ptr == p) && !ops[m].Sleeping?
    ensures p in trace[j].data && trace[j].data[p] == trace[i].data[p] && p in trace[j].table
  {
    hide Follows;
    if i < j {
      ContentsStay(trace, ops, i, j - 1, p);
      ContentStep(trace[j - 1].(freed := None), ops[j - 1], trace[j], p);
    }
  }

  // ----- use_memory_pool

  lemma PoolStep(s: Snapshot, op: Op, t: Snapshot)
    requires Follows(s, op, t)
    ensures op.EnteringPool? ==> t.oldTags == s.oldTags + [s.tag] && t.tag == if op.tag == None then "default" else op.tag.value
    ensures op.LeavingPool? ==> s.oldTags == t.oldTags + [t.tag]
    ensures !op.EnteringPool? && !op.LeavingPool? ==> t.tag == s.tag && t.oldTags == s.oldTags
  {
    hide PoolState.Sound, Gone, Saved;
  }

  lemma {:induction false} PoolsInside(trace: seq<Snapshot>, ops: seq<Op>, i: nat, j: nat)
    requires Trace(trace, ops) && i < j <= |ops| && ops[i].EnteringPool?
    requires forall m :: i < m <= j ==> |trace[m].oldTags| > |trace[i].oldTags|
    ensures trace[i].oldTags + [trace[i].tag] <= trace[j].oldTags
  {
    hide Follows;
    PoolStep(trace[j - 1].(freed := None), ops[j - 1], trace[j]);
    if i + 1 < j {
      PoolsInside(trace, ops, i, j - 1);
    }
  }

  /** Leaving a memory pool, whatever was done and however many others were used inside, puts back the tag
      from before. */
  lemma PoolRestoresTag(trace: seq<Snapshot>, ops: seq<Op>, i: nat, j: nat)
    requires Trace(trace, ops) && i < j < |ops| && ops[i].EnteringPool? && ops[j].LeavingPool?
    requires forall m :: i < m <= j ==> |trace[m].oldTags| > |trace[i].oldTags|
    requires |trace[j].oldTags| == |trace[i].oldTags| + 1
    ensures trace[j + 1].tag == trace[i].tag && trace[j + 1].oldTags == trace[i].oldTags
  {
    hide Follows;
    PoolsInside(trace, ops, i, j);
    PoolStep(trace[j].(freed := None), ops[j], trace[j + 1]);
    assert trace[j].oldTags == trace[i].oldTags + [trace[i].tag];
    assert trace[j + 1].oldTags == trace[j].oldTags[..|trace[i].oldTags|];
  }
}
