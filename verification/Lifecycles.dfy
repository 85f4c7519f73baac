/** Which offloaded KV blocks a stalled agent keeps in CPU memory, and for how long
    (vllm/tokencake/lifecycle.py, LifecycleRegistry). */
module Lifecycles {
  import opened Options
  import opened OffloadManager
  import opened Sorting

  type Id = nat

  const ATTACH_SECONDS: real := 60.0
  const TOMBSTONE_SECONDS: real := 60.0

  datatype Cause = Completed | Finished | Aborted | Failed | Expired | Reset

  datatype Event = StallStarted(event: nat, predicted: real) | StallFinished

  /** What the registry makes of an event. */
  datatype Disposition = Applied | Duplicate | Conflict | LateFinish | Unknown

  datatype Lifecycle = Lifecycle(
    completedAt: Option<real>, start: Option<nat>, startedAt: real, predicted: real, safetyDeadline: real, releaseDeadline: real,
    released: bool, retained: set<Key>, pendingEvaluation: bool, terminal: Option<(Cause, real)>, finishAccepted: bool) {
    /** owns_preservation. */
    predicate Owns() {
      start.Some? && terminal.None? && !released
    }

    /** Deadlines that have passed have been acted on. */
    predicate UpToDate(now: real) {
      if terminal.Some? then now < terminal.value.1 + TOMBSTONE_SECONDS
      else if start.Some? then now < safetyDeadline && (now >= releaseDeadline ==> released && retained == {})
      else completedAt.Some? ==> now < completedAt.value + ATTACH_SECONDS
    }
  }

  const NEW: Lifecycle := Lifecycle(None, None, 0.0, 0.0, 0.0, 0.0, false, {}, false, None, false)

  /** A lifecycle only goes forward: what it started with stays, what it gave up it never gets back, and its
      first end is its last. */
  ghost predicate Advances(r: Lifecycle, s: Lifecycle) {
    && (r.start.Some? ==> s.start == r.start && s.startedAt == r.startedAt && s.safetyDeadline == r.safetyDeadline)
    && (r.completedAt.Some? ==> s.completedAt.Some?)
    && (r.released ==> s.released) && (r.terminal.Some? ==> s.terminal == r.terminal)
  }

  /** A lifecycle that ends gives everything up; the first end counts. */
  function Ended(r: Lifecycle, cause: Cause, now: real): Lifecycle {
    if r.terminal.Some? then r
    else r.(retained := {}, released := true, pendingEvaluation := false, terminal := Some((cause, now)))
  }

  /** What expire makes of a lifecycle; None if it forgets it. */
  function Aged(r: Lifecycle, now: real): Option<Lifecycle> {
    if r.terminal.Some? then
      if now >= r.terminal.value.1 + TOMBSTONE_SECONDS then None else Some(r)
    else if r.start.Some? then
      if now >= r.safetyDeadline then Some(Ended(r, Expired, now))
      else if now >= r.releaseDeadline then Some(r.(retained := {}, released := true))
      else Some(r)
    else if r.completedAt.Some? && now >= r.completedAt.value + ATTACH_SECONDS then Some(Ended(r, Expired, now))
    else Some(r)
  }

  function AgedAll(records: map<Id, Lifecycle>, now: real): map<Id, Lifecycle> {
    map id | id in records && Aged(records[id], now).Some? :: Aged(records[id], now).value
  }

  /** After expire nothing is overdue, so nothing is retained beyond its deadline; what was not overdue is as
      it was, and only what has ended is forgotten. */
  lemma AgedIsUpToDate(r: Lifecycle, now: real)
    ensures Aged(r, now).Some? ==> Aged(r, now).value.UpToDate(now) && Advances(r, Aged(r, now).value)
    ensures Aged(r, now).None? ==> r.terminal.Some? && !r.UpToDate(now)
    ensures r.UpToDate(now) ==> Aged(r, now) == Some(r)
    ensures Aged(r, now).Some? && Aged(r, now).value.terminal != r.terminal ==>
      && Aged(r, now).value.terminal == Some((Expired, now)) && Aged(r, now).value.retained == {} && Aged(r, now).value.released
      && if r.start.Some? then now >= r.safetyDeadline else r.completedAt.Some? && now >= r.completedAt.value + 60.0
    ensures Aged(r, now).Some? && Aged(r, now).value.retained != r.retained ==>
      now >= r.releaseDeadline || now >= r.safetyDeadline || r.start.None?
  {
  }

  /** With a new estimate of the time to load its blocks back. */
  function Estimated(r: Lifecycle, seconds: real, releaseLead: real, now: real): Lifecycle {
    var lead := if releaseLead < 1.25 * seconds then 1.25 * seconds else releaseLead;
    var deadline := r.startedAt + r.predicted - lead;
    if now >= deadline then r.(releaseDeadline := deadline, retained := {}, released := true) else r.(releaseDeadline := deadline)
  }

  /** The release deadline leaves the lead time, and time and a quarter for loading back, before the stall is
      expected to end, and not more; past it everything has been given up, before it nothing has. */
  ghost predicate Timely(r: Lifecycle, s: Lifecycle, seconds: real, releaseLead: real, now: real) {
    var expected := r.startedAt + r.predicted;
    && s == r.(releaseDeadline := s.releaseDeadline, retained := s.retained, released := s.released)
    && s.releaseDeadline + releaseLead <= expected && s.releaseDeadline + 1.25 * seconds <= expected
    && (s.releaseDeadline + releaseLead == expected || s.releaseDeadline + 1.25 * seconds == expected)
    && if now >= s.releaseDeadline then s.released && s.retained == {} else s.released == r.released && s.retained == r.retained
  }

  lemma EstimatedIsTimely(r: Lifecycle, seconds: real, releaseLead: real, now: real)
    ensures Timely(r, Estimated(r, seconds, releaseLead, now), seconds, releaseLead, now)
  {
  }

  /** What the registry makes of an event for a lifecycle it knows. */
  function Judged(r: Lifecycle, event: Event): Disposition {
    match event
    case StallStarted(e, _) =>
      if r.start == Some(e) then Duplicate else if r.start.Some? || r.terminal.Some? then Conflict else Applied
    case StallFinished =>
      if r.terminal.Some? then (if r.finishAccepted then Duplicate else LateFinish) else if r.start.None? then Conflict else Applied
  }

  function Stalled(r: Lifecycle, e: nat, predicted: real, now: real): Lifecycle {
    var horizon := if 4.0 * predicted < 60.0 then 60.0 else if 4.0 * predicted < 3600.0 then 4.0 * predicted else 3600.0;
    r.(start := Some(e), startedAt := now, predicted := predicted, safetyDeadline := now + horizon, pendingEvaluation := r.completedAt.Some?)
  }

  function Happened(r: Lifecycle, event: Event, releaseLead: real, now: real): Lifecycle {
    if Judged(r, event) != Applied then r
    else
      match event
      case StallStarted(e, predicted) => Estimated(Stalled(r, e, predicted, now), 0.0, releaseLead, now)
      case StallFinished => Ended(r.(finishAccepted := true), Finished, now)
  }

  /** A stall starts at most once and ends only if it started; its safety deadline is 60 to 3600 seconds
      ahead; a repeated event changes nothing and is told apart from one that conflicts. */
  lemma EventsAdvance(r: Lifecycle, event: Event, releaseLead: real, now: real)
    ensures Advances(r, Happened(r, event, releaseLead, now))
    ensures event.StallStarted? && Judged(r, event) == Applied ==>
      var s := Happened(r, event, releaseLead, now);
      && s.start == Some(event.event) && now + 60.0 <= s.safetyDeadline <= now + 3600.0 && Judged(s, event) == Duplicate
      && s.startedAt == now && s.predicted == event.predicted && s.completedAt == r.completedAt
      && (60.0 <= 4.0 * event.predicted <= 3600.0 ==> s.safetyDeadline == now + 4.0 * event.predicted)
      && s.releaseDeadline <= now + event.predicted - releaseLead && (releaseLead >= 0.0 ==> s.releaseDeadline == now + event.predicted - releaseLead)
      && (s.released <==> r.released || now >= s.releaseDeadline)
    ensures event.StallFinished? && Judged(r, event) == Applied ==>
      var s := Happened(r, event, releaseLead, now);
      !s.Owns() && s.retained == {} && Judged(s, event) == Duplicate
    ensures Happened(Happened(r, event, releaseLead, now), event, releaseLead, now) == Happened(r, event, releaseLead, now)
    ensures Judged(r, event) != Unknown
  {
  }

  /** It has not ended; and a start finds it not yet stalled, a finish stalled. */
  predicate Awaits(r: Lifecycle, event: Event) {
    r.terminal.None? && (event.StallStarted? <==> r.start.None?)
  }

  lemma AppliedIff(r: Lifecycle, event: Event, releaseLead: real, now: real)
    ensures Judged(r, event) == Applied <==> Awaits(r, event)
    ensures Judged(r, event) != Applied ==> Happened(r, event, releaseLead, now) == r
  {
  }

  /** A lifecycle just taken on owns once its stall starts, if the stall is expected to outlast the lead time. */
  lemma NewCanOwn(e: nat, predicted: real, releaseLead: real, now: real)
    requires releaseLead >= 0.0
    ensures !NEW.Owns() && NEW.retained == {} && (Happened(NEW, StallStarted(e, predicted), releaseLead, now).Owns() <==> predicted > releaseLead)
  {
  }

  function Holding(records: map<Id, Lifecycle>, k: Key): set<Id> {
    set id | id in records && k in records[id].retained
  }

  /** How many lifecycles retain k. */
  function Holders(records: map<Id, Lifecycle>, k: Key): nat {
    |Holding(records, k)|
  }

  /** Every use count is accounted for: one per lifecycle that retains the block, one per load under way. */
  ghost predicate Balanced(blocks: map<Key, Block>, records: map<Id, Lifecycle>, loads: multiset<Key>) {
    && (forall k :: k in blocks && blocks[k].Ready() ==> blocks[k].refCnt == loads[k] + Holders(records, k))
    && (forall id, k :: id in records && k in records[id].retained ==> k in blocks && blocks[k].Ready())
    && (forall k :: k in loads ==> k in blocks && blocks[k].Ready())
    && (forall id :: id in records && records[id].retained != {} ==> records[id].Owns())
  }

  lemma HoldersChange(records: map<Id, Lifecycle>, id: Id, r: Lifecycle, k: Key)
    requires id in records
    ensures Holders(records[id := r], k) == Holders(records, k)
              + (if k in r.retained then 1 else 0) - (if k in records[id].retained then 1 else 0)
  {
    var next := records[id := r];
    assert Holding(next, k) - {id} == Holding(records, k) - {id};
    assert id in Holding(next, k) <==> k in r.retained;
    SizeWithout(Holding(next, k), id);
    SizeWithout(Holding(records, k), id);
  }

  lemma SizeWithout(s: set<Id>, id: Id)
    ensures |s| == |s - {id}| + if id in s then 1 else 0
  {
    if id in s {
      assert s == (s - {id}) + {id};
    } else {
      assert s == s - {id};
    }
  }

  lemma HoldersRemove(records: map<Id, Lifecycle>, id: Id, k: Key)
    requires id in records && records[id].retained == {}
    ensures Holders(records - {id}, k) == Holders(records, k)
  {
    assert Holding(records - {id}, k) == Holding(records, k);
  }

  lemma HoldersAdd(records: map<Id, Lifecycle>, id: Id, r: Lifecycle, k: Key)
    requires id !in records && r.retained == {}
    ensures Holders(records[id := r], k) == Holders(records, k)
  {
    var next := records[id := r];
    assert Holding(next, k) == Holding(records, k);
  }

  /** Giving up what a lifecycle retains. */
  lemma ReleaseBalances(blocks: map<Key, Block>, records: map<Id, Lifecycle>, loads: multiset<Key>, id: Id, r: Lifecycle)
    requires Balanced(blocks, records, loads) && id in records && r.retained == {}
    ensures forall k :: k in records[id].retained ==> k in blocks && blocks[k].refCnt > 0
    ensures Balanced(Bumped(blocks, records[id].retained, -1), records[id := r], loads)
  {
    hide Holders;
    var keys := records[id].retained;
    forall k | k in blocks
      ensures Holders(records[id := r], k) == Holders(records, k) - if k in keys then 1 else 0
      ensures k in keys ==> blocks[k].refCnt > 0
    {
      HoldersChange(records, id, r, k);
      if k in keys {
        assert blocks[k].Ready();
      }
    }
  }

  /** Retaining more ready blocks. */
  lemma RetainBalances(blocks: map<Key, Block>, records: map<Id, Lifecycle>, loads: multiset<Key>, id: Id, r: Lifecycle, keys: set<Key>)
    requires Balanced(blocks, records, loads) && id in records && r.Owns() && r.retained == records[id].retained + keys
    requires keys !! records[id].retained && forall k :: k in keys ==> k in blocks && blocks[k].Ready()
    ensures Balanced(Bumped(blocks, keys, 1), records[id := r], loads)
  {
    hide Holders;
    forall k | k in blocks
      ensures Holders(records[id := r], k) == Holders(records, k) + if k in keys then 1 else 0
    {
      HoldersChange(records, id, r, k);
    }
  }

  /** A record changes in other ways. */
  lemma OtherBalances(blocks: map<Key, Block>, records: map<Id, Lifecycle>, loads: multiset<Key>, id: Id, r: Lifecycle)
    requires Balanced(blocks, records, loads) && id in records && r.retained == records[id].retained && (r.retained != {} ==> r.Owns())
    ensures Balanced(blocks, records[id := r], loads)
  {
    hide Holders;
    forall k | k in blocks
      ensures Holders(records[id := r], k) == Holders(records, k)
    {
      HoldersChange(records, id, r, k);
    }
  }

  /** Loads take and give back their own counts, whatever is retained. */
  lemma LoadBalances(blocks: map<Key, Block>, records: map<Id, Lifecycle>, loads: multiset<Key>, keys: seq<Key>)
    requires Balanced(blocks, records, loads) && forall k :: k in keys ==> k in blocks && blocks[k].Ready()
    ensures Balanced(Used(blocks, keys, true), records, loads + multiset(keys))
  {
    hide Holders;
    UsedIs(blocks, keys, true);
    assert forall k :: k in multiset(keys) ==> k in keys;
  }

  lemma UnloadBalances(blocks: map<Key, Block>, records: map<Id, Lifecycle>, loads: multiset<Key>, keys: seq<Key>)
    requires Balanced(blocks, records, loads) && multiset(keys) <= loads
    ensures forall k :: k in keys ==> k in blocks && blocks[k].refCnt >= multiset(keys)[k]
    ensures Balanced(Used(blocks, keys, false), records, loads - multiset(keys))
  {
    hide Holders;
    UsedIs(blocks, keys, false);
    forall k | k in keys
      ensures k in blocks && blocks[k].refCnt >= multiset(keys)[k]
    {
      assert k in multiset(keys) && k in loads;
    }
  }

  /** A store evicts nothing that is retained or being loaded. */
  lemma StoreBalances(blocks: map<Key, Block>, records: map<Id, Lifecycle>, loads: multiset<Key>, next: map<Key, Block>)
    requires Balanced(blocks, records, loads)
    requires forall k :: k in blocks && blocks[k].refCnt != 0 ==> k in next && next[k] == blocks[k]
    requires forall k :: k in next && next[k].Ready() ==> k in blocks && next[k] == blocks[k]
    requires forall k :: k in blocks && k in next ==> next[k] == blocks[k]
    ensures Balanced(next, records, loads)
  {
    forall id, k | id in records && k in records[id].retained
      ensures k in next && next[k].Ready()
    {
      assert id in Holding(records, k);
    }
  }

  lemma WrittenIsNobodys(blocks: map<Key, Block>, records: map<Id, Lifecycle>, loads: multiset<Key>, k: Key)
    requires Balanced(blocks, records, loads) && k in blocks && !blocks[k].Ready()
    ensures loads[k] == 0 && Holders(records, k) == 0 && forall id :: id in records ==> k !in records[id].retained
  {
    assert Holding(records, k) == {};
  }

  /** Blocks that become readable are nobody's yet. */
  lemma ReadableBalances(blocks: map<Key, Block>, records: map<Id, Lifecycle>, loads: multiset<Key>, keys: seq<Key>)
    requires Balanced(blocks, records, loads)
    ensures Balanced(Readable(blocks, keys), records, loads)
  {
    hide Holders;
    forall k | k in blocks && !blocks[k].Ready()
      ensures loads[k] == 0 && Holders(records, k) == 0 && forall id :: id in records ==> k !in records[id].retained
    {
      WrittenIsNobodys(blocks, records, loads, k);
    }
  }

  /** Nor are those that are given back. */
  lemma GivenBackBalances(blocks: map<Key, Block>, records: map<Id, Lifecycle>, loads: multiset<Key>, keys: seq<Key>)
    requires Balanced(blocks, records, loads)
    ensures Balanced(GivenBack(blocks, keys), records, loads)
  {
    hide Holders;
    forall k | k in blocks && !blocks[k].Ready()
      ensures loads[k] == 0 && Holders(records, k) == 0 && forall id :: id in records ==> k !in records[id].retained
    {
      WrittenIsNobodys(blocks, records, loads, k);
    }
  }

  /** No leak: when nobody owns anything and no load is under way, every readable block may be evicted. */
  lemma NobodyHolds(blocks: map<Key, Block>, records: map<Id, Lifecycle>, loads: multiset<Key>, k: Key)
    requires Balanced(blocks, records, loads) && loads == multiset{} && k in blocks && blocks[k].Ready()
    requires forall id :: id in records ==> !records[id].Owns()
    ensures blocks[k].refCnt == 0
  {
    assert Holding(records, k) == {};
  }

  /** What the scheduler and the connector ask of the registry and the manager behind it. */
  datatype Op = Associating(id: Id) | GenerationEnding(id: Id, cause: Cause) | Happening(id: Id, event: Event)
              | Retaining(id: Id, keys: set<Key>) | Estimating(id: Id, seconds: real) | Expiring | Resetting
              | Loading(loadKeys: seq<Key>) | LoadEnding(loadKeys: seq<Key>) | Storing(storeKeys: seq<Key>) | StoreEnding(storeKeys: seq<Key>, success: bool)

  datatype Snapshot = Snapshot(blocks: map<Key, Block>, records: map<Id, Lifecycle>, loads: multiset<Key>)

  /** From one point to a later one every lifecycle advances, is forgotten once it has ended, or is new. */
  ghost predicate Moves(before: map<Id, Lifecycle>, after: map<Id, Lifecycle>) {
    && (forall id :: id in before && id in after ==> Advances(before[id], after[id]) || (before[id].terminal.Some? && after[id] == NEW))
    && (forall id :: id in before && id !in after ==> before[id].terminal.Some?)
    && (forall id :: id in after && id !in before ==> after[id] == NEW)
  }

  ghost predicate MovesAlong(trace: seq<Snapshot>) {
    forall i :: 0 <= i < |trace| - 1 ==> Moves(trace[i].records, trace[i + 1].records)
  }

  lemma Stays(records: map<Id, Lifecycle>)
    ensures Moves(records, records)
  {
  }

  lemma AgedMoves(records: map<Id, Lifecycle>, now: real)
    ensures Moves(records, AgedAll(records, now))
  {
    forall id | id in records
      ensures Aged(records[id], now).Some? ==> Advances(records[id], Aged(records[id], now).value)
      ensures Aged(records[id], now).None? ==> records[id].terminal.Some?
    {
      AgedIsUpToDate(records[id], now);
    }
  }

  /** Aging, then one record going forward. */
  lemma AgedThen(records: map<Id, Lifecycle>, now: real, id: Id, r: Lifecycle)
    requires id in AgedAll(records, now) && Advances(AgedAll(records, now)[id], r)
    ensures Moves(records, AgedAll(records, now)[id := r])
  {
    AgedMoves(records, now);
    AgedIsUpToDate(records[id], now);
    hide Aged;
  }

  lemma AssociateMoves(records: map<Id, Lifecycle>, now: real, id: Id)
    ensures Moves(records, AgedAll(records, now))
    ensures id !in AgedAll(records, now) ==> Moves(records, AgedAll(records, now)[id := NEW])
  {
    AgedMoves(records, now);
    hide AgedAll;
  }

  lemma GenerationMoves(records: map<Id, Lifecycle>, now: real, id: Id, cause: Cause, enabled: bool)
    ensures Moves(records, GenerationOver(AgedAll(records, now), id, cause, enabled, now))
  {
    var aged := AgedAll(records, now);
    AgedMoves(records, now);
    hide AgedAll, Moves;
    if id in aged && aged[id].terminal.None? {
      AgedThen(records, now, id, Ended(aged[id], cause, now));
      AgedThen(records, now, id, aged[id].(completedAt := Some(now), pendingEvaluation := aged[id].start.Some?));
    }
  }

  lemma EventMoves(records: map<Id, Lifecycle>, now: real, id: Id, event: Event, releaseLead: real)
    ensures var aged := AgedAll(records, now);
            Moves(records, if id in aged then aged[id := Happened(aged[id], event, releaseLead, now)] else aged)
  {
    var aged := AgedAll(records, now);
    AgedMoves(records, now);
    hide AgedAll, Moves, Happened;
    if id in aged {
      EventsAdvance(aged[id], event, releaseLead, now);
      AgedThen(records, now, id, Happened(aged[id], event, releaseLead, now));
    }
  }

  lemma RetainMoves(records: map<Id, Lifecycle>, now: real, id: Id, retained: set<Key>)
    ensures Moves(records, AgedAll(records, now))
    ensures var aged := AgedAll(records, now);
            id in aged ==> Moves(records, aged[id := aged[id].(retained := aged[id].retained + retained)])
  {
    var aged := AgedAll(records, now);
    AgedMoves(records, now);
    hide AgedAll, Moves;
    if id in aged {
      AgedThen(records, now, id, aged[id].(retained := aged[id].retained + retained));
    }
  }

  lemma EstimateMoves(records: map<Id, Lifecycle>, id: Id, seconds: real, releaseLead: real, now: real)
    requires id in records
    ensures Moves(records, records[id := Estimated(records[id], seconds, releaseLead, now)])
  {
  }

  lemma ResetMoves(before: map<Id, Lifecycle>, after: map<Id, Lifecycle>, now: real)
    requires after.Keys == before.Keys && forall id :: id in after ==> after[id] == Ended(before[id].(retained := {}), Reset, now)
    ensures Moves(before, after)
  {
  }

  /** Ownership that was given up does not come back: a lifecycle that has started and owns nothing owns
      something later only as a new record of the same name, made after the old one had ended. */
  lemma {:induction false} OnceGivenUp(trace: seq<Snapshot>, id: Id, i: nat, j: nat) returns (k: nat)
    requires MovesAlong(trace) && i <= j < |trace|
    requires id in trace[i].records && trace[i].records[id].start.Some? && !trace[i].records[id].Owns()
    requires id in trace[j].records && trace[j].records[id].Owns()
    ensures i < k <= j && id in trace[k].records && trace[k].records[id] == NEW
    ensures id in trace[k - 1].records ==> trace[k - 1].records[id].terminal.Some?
    decreases j - i
  {
    var before, next := trace[i].records, trace[i + 1].records;
    assert Moves(before, next);
    if id !in next {
      k := Returns(trace, id, i + 1, j);
    } else if Advances(before[id], next[id]) {
      k := OnceGivenUp(trace, id, i + 1, j);
    } else {
      k := i + 1;
    }
  }

  lemma {:induction false} Returns(trace: seq<Snapshot>, id: Id, i: nat, j: nat) returns (k: nat)
    requires MovesAlong(trace) && i <= j < |trace| && id !in trace[i].records && id in trace[j].records
    ensures i < k <= j && id in trace[k].records && trace[k].records[id] == NEW && id !in trace[k - 1].records
    decreases j - i
  {
    assert Moves(trace[i].records, trace[i + 1].records);
    if id in trace[i + 1].records {
      k := i + 1;
    } else {
      k := Returns(trace, id, i + 1, j);
    }
  }

  /** What each operation does to records, loads and blocks. */
  ghost predicate Did(s: Snapshot, op: Op, now: real, enabled: bool, releaseLead: real, t: Snapshot) {
    var aged := AgedAll(s.records, now);
    match op
    case Associating(id) => t.loads == s.loads && (t.records == aged || (id !in aged && t.records == aged[id := NEW]))
    case GenerationEnding(id, cause) => t.loads == s.loads && t.records == GenerationOver(aged, id, cause, enabled, now)
    case Happening(id, event) =>
      t.loads == s.loads && t.records == if id in aged then aged[id := Happened(aged[id], event, releaseLead, now)] else aged
    case Retaining(id, keys) =>
      && t.loads == s.loads && t.records.Keys == aged.Keys && (forall i :: i in aged && i != id ==> t.records[i] == aged[i])
      && (id in aged ==> t.records[id] == aged[id].(retained := t.records[id].retained))
      && (id in aged && aged[id].Owns() ==> forall k :: k in keys && k in t.blocks && t.blocks[k].Ready() ==> k in t.records[id].retained)
    case Estimating(id, seconds) =>
      && t.loads == s.loads
      && t.records == if id in s.records && s.records[id].start.Some? then s.records[id := Estimated(s.records[id], seconds, releaseLead, now)] else s.records
    case Expiring => t.loads == s.loads && t.records == aged
    case Resetting =>
      && t.loads == multiset{} && t.blocks == map[] && t.records.Keys == s.records.Keys
      && forall id :: id in t.records ==> t.records[id] == Ended(s.records[id].(retained := {}), Reset, now)
    case Loading(keys) =>
      && t.records == s.records
      && ((forall i :: 0 <= i < |keys| ==> keys[i] in s.blocks && s.blocks[keys[i]].Ready()) ==> t.loads == s.loads + multiset(keys))
    case LoadEnding(keys) => t.records == s.records && t.loads == if multiset(keys) <= s.loads then s.loads - multiset(keys) else s.loads
    case Storing(keys) => t.records == s.records && t.loads == s.loads && (t.blocks == s.blocks || forall k :: k in keys ==> k in t.blocks)
    case StoreEnding(keys, success) =>
      t.records == s.records && t.loads == s.loads && t.blocks == if success then Readable(s.blocks, keys) else GivenBack(s.blocks, keys)
  }

  /** A generation that completes awaits its stall, any other ends its lifecycle. */
  function GenerationOver(aged: map<Id, Lifecycle>, id: Id, cause: Cause, enabled: bool, now: real): map<Id, Lifecycle> {
    if id !in aged || aged[id].terminal.Some? then aged
    else if cause != Completed || !enabled then aged[id := Ended(aged[id], cause, now)]
    else aged[id := aged[id].(completedAt := Some(now), pendingEvaluation := aged[id].start.Some?)]
  }

  class Registry {
    const manager: Manager
    const enabled: bool
    const releaseLead: real
    var records: map<Id, Lifecycle>
    /** Lifecycles whose generation still runs. */
    var generations: set<Id>
    /** Loads under way: prepared and not completed. */
    var loads: multiset<Key>

    ghost predicate Valid()
      reads this, manager
    {
      manager.Valid() && Balanced(manager.blocks, records, loads)
    }

    constructor (manager: Manager, enabled: bool, releaseLead: real)
      requires manager.Valid() && manager.blocks == map[]
      ensures Valid() && records == map[] && loads == multiset{}
    {
      this.manager, this.enabled, this.releaseLead := manager, enabled, releaseLead;
      records, generations, loads := map[], {}, multiset{};
    }

    /** release: the lifecycle gives up its blocks, which the manager must have counted for it. */
    method Release(id: Id)
      requires Valid() && id in records
      modifies this`records, manager`blocks
      ensures Valid() && records == old(records)[id := old(records)[id].(retained := {}, released := true)]
    {
      var r := records[id];
      var next := r.(retained := {}, released := true);
      hide Balanced, Bumped;
      ReleaseBalances(manager.blocks, records, loads, id, next);
      NothingBumped(manager.blocks);
      records := records[id := next];
      if r.retained != {} {
        var ok := manager.Release(r.retained);
        assert ok;
      }
    }

    /** _terminalize: the first end counts. */
    method Terminalize(id: Id, cause: Cause, now: real)
      requires Valid() && id in records
      modifies this`records, manager`blocks
      ensures Valid() && records == old(records)[id := Ended(old(records)[id], cause, now)]
    {
      hide Balanced;
      if records[id].terminal.None? {
        Release(id);
        var next := records[id].(pendingEvaluation := false, terminal := Some((cause, now)));
        OtherBalances(manager.blocks, records, loads, id, next);
        records := records[id := next];
      }
    }

    /** One turn of the loop of expire. */
    method ExpireOne(id: Id, now: real)
      requires Valid() && id in records
      modifies this`records, manager`blocks
      ensures Valid()
      ensures var r := Aged(old(records)[id], now);
              records == if r.Some? then old(records)[id := r.value] else old(records) - {id}
    {
      hide Balanced;
      var r := records[id];
      if r.terminal.Some? {
        if now >= r.terminal.value.1 + TOMBSTONE_SECONDS {
          RemoveBalances(manager.blocks, records, loads, id);
          records := records - {id};
        }
      } else if r.start.Some? {
        if now >= r.safetyDeadline {
          Terminalize(id, Expired, now);
        } else if now >= r.releaseDeadline {
          Release(id);
        }
      } else if r.completedAt.Some? && now >= r.completedAt.value + ATTACH_SECONDS {
        Terminalize(id, Expired, now);
      }
    }

    /** expire: afterwards nothing is overdue, so nothing is retained beyond its deadline. */
    method Expire(now: real)
      requires Valid()
      modifies this`records, manager`blocks
      ensures Valid() && records == AgedAll(old(records), now)
      ensures forall id :: id in records ==> records[id].UpToDate(now)
    {
      hide Balanced, Aged, PartlyAged;
      var todo := records.Keys;
      PartlyAgedStart(records, now);
      while todo != {}
        invariant Valid() && todo <= records.Keys && PartlyAged(old(records), records, todo, now)
      {
        var id :| id in todo;
        ghost var before := records;
        ExpireOne(id, now);
        PartlyAgedStep(old(records), before, records, todo, id, now);
        todo := todo - {id};
      }
      PartlyAgedEnd(old(records), records, now);
    }

    /** associate: a lifecycle belongs to one generation. */
    method Associate(id: Id, now: real) returns (ok: bool)
      requires Valid()
      modifies this`records, this`generations, manager`blocks
      ensures Valid() && (ok <==> id !in AgedAll(old(records), now) && id !in old(generations))
      ensures records == if ok then AgedAll(old(records), now)[id := NEW] else AgedAll(old(records), now)
      ensures generations == if ok then old(generations) + {id} else old(generations)
    {
      hide Balanced, AgedAll;
      Expire(now);
      if id in records || id in generations {
        return false;
      }
      AddBalances(manager.blocks, records, loads, id, NEW);
      generations := generations + {id};
      records := records[id := NEW];
      ok := true;
    }

    /** generation_finished: a generation that completes awaits its stall, any other ends its lifecycle. */
    method GenerationFinished(id: Id, cause: Cause, now: real)
      requires Valid()
      modifies this`records, this`generations, manager`blocks
      ensures Valid() && generations == old(generations) - {id}
      ensures records == GenerationOver(AgedAll(old(records), now), id, cause, enabled, now)
      ensures var aged := AgedAll(old(records), now);
        && records.Keys == aged.Keys && (forall i :: i in aged && i != id ==> records[i] == aged[i])
        && (id in aged && aged[id].terminal.None? ==>
              if cause == Completed && enabled
              then records[id].completedAt == Some(now) && records[id].terminal.None? && records[id].retained == aged[id].retained &&
                   (records[id].Owns() <==> aged[id].Owns()) && (records[id].pendingEvaluation <==> aged[id].start.Some?)
              else records[id].terminal == Some((cause, now)) && records[id].retained == {} && !records[id].Owns())
    {
      hide Balanced, AgedAll;
      Expire(now);
      generations := generations - {id};
      if id !in records || records[id].terminal.Some? {
        return;
      }
      if cause != Completed || !enabled {
        Terminalize(id, cause, now);
      } else {
        RetainedOwns(manager.blocks, records, loads, id);
        var next := records[id].(completedAt := Some(now), pendingEvaluation := records[id].start.Some?);
        OtherBalances(manager.blocks, records, loads, id, next);
        records := records[id := next];
      }
    }

    /** set_h2d_estimate. */
    method SetH2dEstimate(id: Id, seconds: real, now: real)
      requires Valid() && id in records && records[id].start.Some?
      modifies this`records, manager`blocks
      ensures Valid() && records == old(records)[id := Estimated(old(records)[id], seconds, releaseLead, now)]
      ensures Timely(old(records)[id], records[id], seconds, releaseLead, now)
    {
      hide Balanced, Timely;
      EstimatedIsTimely(records[id], seconds, releaseLead, now);
      var r := records[id];
      var lead := if releaseLead < 1.25 * seconds then 1.25 * seconds else releaseLead;
      var next := r.(releaseDeadline := r.startedAt + r.predicted - lead);
      RetainedOwns(manager.blocks, records, loads, id);
      OtherBalances(manager.blocks, records, loads, id, next);
      records := records[id := next];
      if now >= next.releaseDeadline {
        Release(id);
      }
    }

    /** apply. */
    method Apply(id: Id, event: Event, now: real) returns (d: Disposition)
      requires Valid()
      modifies this`records, manager`blocks
      ensures Valid()
      ensures var aged := AgedAll(old(records), now);
        if id in aged then d == Judged(aged[id], event) && records == aged[id := Happened(aged[id], event, releaseLead, now)]
        else d == Unknown && records == aged
      ensures d != Applied ==> records == AgedAll(old(records), now)
      ensures d == Applied <==> id in AgedAll(old(records), now) && Awaits(AgedAll(old(records), now)[id], event)
      ensures d == Applied && event.StallStarted? ==> records[id].start == Some(event.event) && now + 60.0 <= records[id].safetyDeadline <= now + 3600.0
      ensures d == Applied && event.StallFinished? ==> !records[id].Owns() && records[id].retained == {}
    {
      hide Balanced, AgedAll, Happened, Judged, Awaits;
      Expire(now);
      if id !in records {
        return Unknown;
      }
      EventsAdvance(records[id], event, releaseLead, now);
      AppliedIff(records[id], event, releaseLead, now);
      match event
      case StallStarted(e, predicted) => d := StartStall(id, e, predicted, now);
      case StallFinished => d := FinishStall(id, now);
    }

    method StartStall(id: Id, e: nat, predicted: real, now: real) returns (d: Disposition)
      requires Valid() && id in records
      modifies this`records, manager`blocks
      ensures Valid() && d == Judged(old(records)[id], StallStarted(e, predicted))
      ensures records == old(records)[id := Happened(old(records)[id], StallStarted(e, predicted), releaseLead, now)]
    {
      hide Balanced;
      var r := records[id];
      if r.start == Some(e) {
        return Duplicate;
      }
      if r.start.Some? || r.terminal.Some? {
        return Conflict;
      }
      var next := Stalled(r, e, predicted, now);
      RetainedOwns(manager.blocks, records, loads, id);
      OtherBalances(manager.blocks, records, loads, id, next);
      records := records[id := next];
      SetH2dEstimate(id, 0.0, now);
      d := Applied;
    }

    method FinishStall(id: Id, now: real) returns (d: Disposition)
      requires Valid() && id in records
      modifies this`records, manager`blocks
      ensures Valid() && d == Judged(old(records)[id], StallFinished)
      ensures records == old(records)[id := Happened(old(records)[id], StallFinished, releaseLead, now)]
    {
      hide Balanced;
      var r := records[id];
      if r.terminal.Some? {
        return if r.finishAccepted then Duplicate else LateFinish;
      }
      if r.start.None? {
        return Conflict;
      }
      var next := r.(finishAccepted := true);
      RetainedOwns(manager.blocks, records, loads, id);
      OtherBalances(manager.blocks, records, loads, id, next);
      records := records[id := next];
      Terminalize(id, Finished, now);
      d := Applied;
    }

    /** retain_ready: only a lifecycle that owns its preservation retains blocks, and then all that are readable. */
    method RetainReady(id: Id, keys: set<Key>, now: real) returns (retained: set<Key>)
      requires Valid()
      modifies this`records, manager`blocks
      ensures Valid()
      ensures var aged := AgedAll(old(records), now);
        if id in aged && aged[id].Owns()
        then retained <= keys && retained !! aged[id].retained && records == aged[id := aged[id].(retained := aged[id].retained + retained)]
        else retained == {} && records == aged
      ensures id in records && records[id].Owns() ==>
        forall k :: k in keys && k in manager.blocks && manager.blocks[k].Ready() ==> k in records[id].retained && manager.blocks[k].refCnt > 0
    {
      hide Balanced, Bumped, AgedAll;
      Expire(now);
      if id !in records || !records[id].Owns() {
        return {};
      }
      var r := records[id];
      ghost var blocks := manager.blocks;
      retained := manager.Retain(keys - r.retained);
      var next := r.(retained := r.retained + retained);
      RetainBalances(blocks, records, loads, id, next, retained);
      BumpedUp(blocks, retained);
      records := records[id := next];
      RetainedIsUsed(manager.blocks, records, loads, id);
    }

    /** external_reset_succeeded, after the manager has dropped every block: nothing is released twice. */
    method ExternalReset(now: real)
      requires Valid()
      modifies this`records, this`loads, manager`blocks, manager`order, manager`freeList, manager`issued
      ensures Valid() && manager.blocks == map[] && loads == multiset{} && records.Keys == old(records.Keys)
      ensures forall id :: id in records ==> records[id] == Ended(old(records)[id].(retained := {}), Reset, now)
    {
      hide Balanced, Ended;
      manager.ResetCache();
      loads := multiset{};
      EndAll(now);
      EmptyBalances(records, old(records), now);
    }

    method EndAll(now: real)
      modifies this`records
      ensures records.Keys == old(records.Keys)
      ensures forall id :: id in records ==> records[id] == Ended(old(records)[id].(retained := {}), Reset, now)
    {
      hide Ended;
      var todo := records.Keys;
      while todo != {}
        invariant todo <= records.Keys == old(records.Keys)
        invariant forall id :: id in todo ==> records[id] == old(records)[id]
        invariant forall id :: id in records && id !in todo ==> records[id] == Ended(old(records)[id].(retained := {}), Reset, now)
      {
        var id :| id in todo;
        var r := records[id].(retained := {});
        records := records[id := Ended(r, Reset, now)];
        todo := todo - {id};
      }
    }

    /** A load begins: prepare_load, as far as it gets. */
    method BeginLoad(keys: seq<Key>) returns (done: nat)
      requires Valid()
      modifies this`loads, manager`blocks
      ensures Valid() && done <= |keys| && loads == old(loads) + multiset(keys[..done])
      ensures done == |keys| <==> forall i :: 0 <= i < |keys| ==> keys[i] in old(manager.blocks) && old(manager.blocks)[keys[i]].Ready()
    {
      hide Balanced, Used;
      ghost var blocks := manager.blocks;
      done := manager.PrepareLoad(keys);
      LoadBalances(blocks, records, loads, keys[..done]);
      loads := loads + multiset(keys[..done]);
    }

    /** A load that is under way ends: the assertions of complete_load hold. */
    method EndLoad(keys: seq<Key>) returns (done: nat)
      requires Valid() && multiset(keys) <= loads
      modifies this`loads, manager`blocks
      ensures Valid() && done == |keys| && loads == old(loads) - multiset(keys)
    {
      hide Balanced, Used;
      ghost var blocks := manager.blocks;
      done := manager.CompleteLoad(keys);
      UnloadBalances(blocks, records, loads, keys);
      LaterOccurrence(keys, done);
      assert done == |keys| && keys[..done] == keys;
      loads := loads - multiset(keys);
    }

    /** A store begins: nothing that is retained or being loaded is evicted. */
    method BeginStore(keys: seq<Key>) returns (result: Option<Stored>)
      requires Valid()
      modifies manager`blocks, manager`order, manager`freeList, manager`issued
      ensures result == None ==> manager.blocks == old(manager.blocks)
      ensures result == None || Distinct(result.value.keys) ==> Valid()
      ensures result != None ==> result.value.keys == Without(keys, old(manager.blocks).Keys) && forall k :: k in keys ==> k in manager.blocks
    {
      hide Balanced, InsertAll, Without, Elements, Distinct;
      ghost var blocks := manager.blocks;
      result := manager.PrepareStore(keys);
      if result != None {
        StoreIsSparing(blocks, keys, result.value, manager.blocks);
        StoreBalances(blocks, records, loads, manager.blocks);
      }
    }

    /** A store ends, well or not. */
    method EndStore(keys: seq<Key>, success: bool)
      requires Valid()
      modifies manager`blocks, manager`order, manager`freeList
      ensures Valid()
      ensures manager.blocks == if success then Readable(old(manager.blocks), keys) else GivenBack(old(manager.blocks), keys)
    {
      hide Balanced, Readable, GivenBack;
      ReadableBalances(manager.blocks, records, loads, keys);
      GivenBackBalances(manager.blocks, records, loads, keys);
      manager.CompleteStore(keys, success);
    }

    /** No leak: with no owner and no load under way every readable block may be evicted. */
    lemma NoLeak(k: Key)
      requires Valid() && loads == multiset{} && k in manager.blocks && manager.blocks[k].Ready()
      requires forall id :: id in records ==> !records[id].Owns()
      ensures manager.blocks[k].refCnt == 0
    {
      NobodyHolds(manager.blocks, records, loads, k);
    }

    /** One operation of the scheduler at a time. */
    method Do(op: Op, now: real)
      requires Valid()
      modifies this`records, this`generations, this`loads, manager`blocks, manager`order, manager`freeList, manager`issued
      ensures Valid() && Moves(old(records), records)
      ensures Did(old(Snapshot(manager.blocks, records, loads)), op, now, enabled, releaseLead, Snapshot(manager.blocks, records, loads))
    {
      hide Balanced, Moves, Did;
      if op.Loading? || op.LoadEnding? || op.Storing? || op.StoreEnding? {
        Stays(records);
        DoTransfer(op, now);
      } else if op.Estimating? || op.Expiring? || op.Resetting? {
        DoAll(op, now);
      } else {
        DoOne(op, now);
      }
    }

    method DoOne(op: Op, now: real)
      requires Valid() && (op.Associating? || op.GenerationEnding? || op.Happening? || op.Retaining?)
      modifies this`records, this`generations, manager`blocks
      ensures Valid() && Moves(old(records), records)
      ensures Did(old(Snapshot(manager.blocks, records, loads)), op, now, enabled, releaseLead, Snapshot(manager.blocks, records, loads))
    {
      hide Balanced, Moves, AgedAll, Happened, Estimated, Ended, GenerationOver;
      match op
      case Associating(id) =>
        var ok := Associate(id, now);
        AssociateMoves(old(records), now, id);
      case GenerationEnding(id, cause) =>
        GenerationFinished(id, cause, now);
        GenerationMoves(old(records), now, id, cause, enabled);
      case Happening(id, event) =>
        var _ := Apply(id, event, now);
        EventMoves(old(records), now, id, event, releaseLead);
      case Retaining(id, keys) =>
        var retained := RetainReady(id, keys, now);
        RetainMoves(old(records), now, id, retained);
    }

    method DoAll(op: Op, now: real)
      requires Valid() && (op.Estimating? || op.Expiring? || op.Resetting?)
      modifies this`records, this`loads, manager`blocks, manager`order, manager`freeList, manager`issued
      ensures Valid() && Moves(old(records), records)
      ensures Did(old(Snapshot(manager.blocks, records, loads)), op, now, enabled, releaseLead, Snapshot(manager.blocks, records, loads))
    {
      hide Balanced, Moves, AgedAll, Estimated, Ended;
      match op
      case Estimating(id, seconds) =>
        Stays(records);
        if id in records && records[id].start.Some? {
          EstimateMoves(records, id, seconds, releaseLead, now);
          SetH2dEstimate(id, seconds, now);
        }
      case Expiring =>
        Expire(now);
        AgedMoves(old(records), now);
      case Resetting =>
        ExternalReset(now);
        ResetMoves(old(records), records, now);
    }

    method DoTransfer(op: Op, now: real)
      requires Valid() && (op.Loading? || op.LoadEnding? || op.Storing? || op.StoreEnding?)
      modifies this`loads, manager`blocks, manager`order, manager`freeList, manager`issued
      ensures Valid()
      ensures Did(old(Snapshot(manager.blocks, records, loads)), op, now, enabled, releaseLead, Snapshot(manager.blocks, records, loads))
    {
      hide Balanced, AgedAll, Distinct, Readable, GivenBack, Without;
      match op
      case Loading(keys) =>
        var done := BeginLoad(keys);
        assert done == |keys| ==> keys[..done] == keys;
      case LoadEnding(keys) =>
        if multiset(keys) <= loads {
          var _ := EndLoad(keys);
        }
      case Storing(keys) =>
        if NoRepeats(keys) {
          WithoutDistinct(keys, manager.blocks.Keys);
          var _ := BeginStore(keys);
        }
      case StoreEnding(keys, success) => EndStore(keys, success);
    }

    /** Any sequence of operations from the start: at every point every use count is accounted for, and the
        records move as lifecycles may. */
    method Run(ops: seq<(Op, real)>) returns (ghost trace: seq<Snapshot>)
      requires Valid()
      modifies this`records, this`generations, this`loads, manager`blocks, manager`order, manager`freeList, manager`issued
      ensures Valid() && |trace| == |ops| + 1 && trace[0] == old(Snapshot(manager.blocks, records, loads))
      ensures forall i :: 0 <= i <= |ops| ==> Balanced(trace[i].blocks, trace[i].records, trace[i].loads)
      ensures MovesAlong(trace)
      ensures forall i :: 0 <= i < |ops| ==> Did(trace[i], ops[i].0, ops[i].1, enabled, releaseLead, trace[i + 1])
    {
      hide Balanced, Moves, Did;
      trace := [Snapshot(manager.blocks, records, loads)];
      for i := 0 to |ops|
        invariant Valid() && |trace| == i + 1 && trace[0] == old(Snapshot(manager.blocks, records, loads))
        invariant trace[i] == Snapshot(manager.blocks, records, loads)
        invariant forall j :: 0 <= j <= i ==> Balanced(trace[j].blocks, trace[j].records, trace[j].loads)
        invariant MovesAlong(trace)
        invariant forall j :: 0 <= j < i ==> Did(trace[j], ops[j].0, ops[j].1, enabled, releaseLead, trace[j + 1])
      {
        Do(ops[i].0, ops[i].1);
        trace := trace + [Snapshot(manager.blocks, records, loads)];
      }
    }
  }

  predicate NoRepeats(keys: seq<Key>) {
    forall i, j :: 0 <= i < j < |keys| ==> keys[i] != keys[j]
  }

  lemma WithoutDistinct(keys: seq<Key>, drop: set<Key>)
    requires NoRepeats(keys)
    ensures Distinct(Without(keys, drop))
  {
    assert Distinct(keys);
  }

  lemma LaterOccurrence(keys: seq<Key>, done: nat)
    requires done <= |keys|
    ensures done < |keys| ==> multiset(keys)[keys[done]] > multiset(keys[..done])[keys[done]]
  {
    if done < |keys| {
      assert keys == keys[..done] + [keys[done]] + keys[done + 1..];
    }
  }

  /** What a store does to the blocks that were there. */
  lemma StoreIsSparing(blocks: map<Key, Block>, keys: seq<Key>, stored: Stored, next: map<Key, Block>)
    requires stored.keys == Without(keys, blocks.Keys) && |stored.ids| == |stored.keys|
    requires next == InsertAll(blocks - Elements(stored.evicted), stored.keys, stored.ids)
    requires forall k :: k in blocks && (blocks[k].refCnt != 0 || k in keys) ==> k in next && next[k] == blocks[k]
    ensures forall k :: k in next && next[k].Ready() ==> k in blocks && next[k] == blocks[k]
    ensures forall k :: k in blocks && k in next ==> next[k] == blocks[k]
  {
    hide InsertAll, Without;
    ElementsAre(stored.keys);
  }

  /** The records after expire has dealt with all but todo. */
  ghost predicate PartlyAged(before: map<Id, Lifecycle>, records: map<Id, Lifecycle>, todo: set<Id>, now: real) {
    && records.Keys <= before.Keys && todo <= records.Keys
    && (forall id :: id in todo ==> records[id] == before[id])
    && (forall id :: id in before && id !in todo ==>
          if id in records then Aged(before[id], now) == Some(records[id]) else Aged(before[id], now) == None)
  }

  lemma PartlyAgedStart(records: map<Id, Lifecycle>, now: real)
    ensures PartlyAged(records, records, records.Keys, now)
  {
  }

  lemma PartlyAgedStep(before: map<Id, Lifecycle>, records: map<Id, Lifecycle>, next: map<Id, Lifecycle>, todo: set<Id>, id: Id, now: real)
    requires PartlyAged(before, records, todo, now) && id in todo
    requires var r := Aged(records[id], now); next == if r.Some? then records[id := r.value] else records - {id}
    ensures PartlyAged(before, next, todo - {id}, now)
  {
    hide Aged;
  }

  lemma PartlyAgedEnd(before: map<Id, Lifecycle>, records: map<Id, Lifecycle>, now: real)
    requires PartlyAged(before, records, {}, now)
    ensures records == AgedAll(before, now) && forall id :: id in records ==> records[id].UpToDate(now)
  {
    forall id | id in records
      ensures records[id].UpToDate(now)
    {
      AgedIsUpToDate(before[id], now);
    }
  }

  lemma EmptyBalances(records: map<Id, Lifecycle>, before: map<Id, Lifecycle>, now: real)
    requires records.Keys == before.Keys && forall id :: id in records ==> records[id] == Ended(before[id].(retained := {}), Reset, now)
    ensures Balanced(map[], records, multiset{})
  {
  }

  lemma NothingBumped(blocks: map<Key, Block>)
    ensures Bumped(blocks, {}, -1) == blocks
  {
  }

  lemma RemoveBalances(blocks: map<Key, Block>, records: map<Id, Lifecycle>, loads: multiset<Key>, id: Id)
    requires Balanced(blocks, records, loads) && id in records && !records[id].Owns()
    ensures Balanced(blocks, records - {id}, loads)
  {
    hide Holders;
    forall k | k in blocks
      ensures Holders(records - {id}, k) == Holders(records, k)
    {
      HoldersRemove(records, id, k);
    }
  }

  lemma AddBalances(blocks: map<Key, Block>, records: map<Id, Lifecycle>, loads: multiset<Key>, id: Id, r: Lifecycle)
    requires Balanced(blocks, records, loads) && id !in records && r.retained == {}
    ensures Balanced(blocks, records[id := r], loads)
  {
    hide Holders;
    forall k | k in blocks
      ensures Holders(records[id := r], k) == Holders(records, k)
    {
      HoldersAdd(records, id, r, k);
    }
  }

  lemma RetainedOwns(blocks: map<Key, Block>, records: map<Id, Lifecycle>, loads: multiset<Key>, id: Id)
    requires Balanced(blocks, records, loads) && id in records
    ensures records[id].retained != {} ==> records[id].Owns()
  {
  }

  lemma BumpedUp(blocks: map<Key, Block>, keys: set<Key>)
    requires forall k :: k in keys ==> k in blocks && blocks[k].Ready()
    ensures forall k :: k in blocks ==> k in Bumped(blocks, keys, 1) && (Bumped(blocks, keys, 1)[k].Ready() <==> blocks[k].Ready())
    ensures Bumped(blocks, keys, 1).Keys == blocks.Keys
  {
  }

  lemma RetainedIsUsed(blocks: map<Key, Block>, records: map<Id, Lifecycle>, loads: multiset<Key>, id: Id)
    requires Balanced(blocks, records, loads) && id in records
    ensures forall k :: k in records[id].retained ==> k in blocks && blocks[k].refCnt > 0
  {
    forall k | k in records[id].retained
      ensures k in blocks && blocks[k].refCnt > 0
    {
      assert id in Holding(records, k);
    }
  }
}
