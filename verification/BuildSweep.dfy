/** Sharing out build time among the build steps running at each moment
    (tools/report_build_time_ninja.py, Target and SummarizeEntries). */
module BuildSweep {
  import opened Sorting

  class Target {
    const start: real
    const end: real
    var weightedDuration: real

    constructor (start: real, end: real)
      ensures this.start == start && this.end == end && weightedDuration == 0.0
    {
      this.start, this.end, weightedDuration := start, end, 0.0;
    }

    function Duration(): real {
      end - start
    }

    method SetWeightedDuration(d: real)
      modifies this
      ensures weightedDuration == d
    {
      weightedDuration := d;
    }
  }

  datatype Event = Event(time: real, stop: bool, target: Target)

  datatype Outcome = Summary(length: real, totalCpuTime: real, weightedTotal: real) | IndexError | KeyError

  function StartOf(t: Target): Event { Event(t.start, false, t) }

  function StopOf(t: Target): Event { Event(t.end, true, t) }

  // ----- What a weighted duration is

  /** Step t runs all through the time from a to b. */
  predicate RunsThrough(t: Target, a: real, b: real) {
    t.start <= a && b <= t.end
  }

  /** How many steps run all through the time from a to b. */
  function Running(entries: seq<Target>, a: real, b: real): nat {
    if entries == [] then 0
    else Running(entries[..|entries| - 1], a, b) + if RunsThrough(entries[|entries| - 1], a, b) then 1 else 0
  }

  /** What each of n steps gets of a stretch of time. */
  function Part(span: real, n: nat): real {
    if n > 0 then span / n as real else 0.0
  }

  /** Step t's share of the time from a to b. */
  function Share(entries: seq<Target>, t: Target, a: real, b: real): real {
    if a < b && RunsThrough(t, a, b) then Part(b - a, Running(entries, a, b)) else 0.0
  }

  /** Step t's share of the time between the first n + 1 of the given moments. */
  function WeightedTime(entries: seq<Target>, moments: seq<real>, t: Target, n: nat): real
    requires n < |moments|
  {
    if n == 0 then 0.0
    else WeightedTime(entries, moments, t, n - 1) + Share(entries, t, moments[n - 1], moments[n])
  }

  /** The time between the first n + 1 moments during which at least one step ran. */
  function BusyTime(entries: seq<Target>, moments: seq<real>, n: nat): real
    requires n < |moments|
  {
    if n == 0 then 0.0
    else BusyTime(entries, moments, n - 1) +
         if moments[n - 1] < moments[n] && Running(entries, moments[n - 1], moments[n]) > 0 then moments[n] - moments[n - 1] else 0.0
  }

  function TotalWeighted(entries: seq<Target>, moments: seq<real>, some: seq<Target>, n: nat): real
    requires n < |moments|
  {
    if some == [] then 0.0
    else TotalWeighted(entries, moments, some[..|some| - 1], n) + WeightedTime(entries, moments, some[|some| - 1], n)
  }

  ghost predicate Ascending(moments: seq<real>) {
    forall i, j :: 0 <= i < j < |moments| ==> moments[i] <= moments[j]
  }

  // ----- The laws of weighted time

  function Clamp(t: Target, x: real): real {
    if x < t.start then t.start else if x > t.end then t.end else x
  }

  lemma DivideAtMost(a: real, n: nat)
    requires a >= 0.0 && n > 0
    ensures 0.0 <= a / n as real <= a
  {
    var q := a / n as real;
    assert q * n as real == a;
    if q > a {
      Grow(q, a, n as real);
    }
  }

  lemma Grow(q: real, a: real, n: real)
    requires q > a >= 0.0 && n >= 1.0
    ensures q * n > a
  {
    assert q * n == q + q * (n - 1.0);
    NonnegativeProduct(q, n - 1.0);
  }

  lemma NonnegativeProduct(x: real, y: real)
    requires x >= 0.0 && y >= 0.0
    ensures x * y >= 0.0
  {
  }

  /** A weighted duration is between 0 and the duration, as WeightedDuration asserts. */
  lemma {:induction false} WeightedWithinDuration(entries: seq<Target>, moments: seq<real>, t: Target, n: nat)
    requires n < |moments| && Ascending(moments) && t.start <= t.end
    ensures 0.0 <= WeightedTime(entries, moments, t, n) <= Clamp(t, moments[n]) - Clamp(t, moments[0])
    ensures WeightedTime(entries, moments, t, n) <= t.Duration()
  {
    if n > 0 {
      WeightedWithinDuration(entries, moments, t, n - 1);
      var a, b := moments[n - 1], moments[n];
      if a < b && RunsThrough(t, a, b) && Running(entries, a, b) > 0 {
        DivideAtMost(b - a, Running(entries, a, b));
      }
    }
  }

  /** Every running step gets the same share q of a stretch of time. */
  lemma {:induction false} SharesAddUp(entries: seq<Target>, some: seq<Target>, a: real, b: real, q: real)
    requires a < b && q == Part(b - a, Running(entries, a, b))
    ensures TotalShare(entries, some, a, b) == Running(some, a, b) as real * q
  {
    if some != [] {
      SharesAddUp(entries, some[..|some| - 1], a, b, q);
      OneMore(Running(some[..|some| - 1], a, b), q);
    }
  }

  lemma OneMore(n: nat, q: real)
    ensures (n + 1) as real * q == n as real * q + q
  {
  }

  function TotalShare(entries: seq<Target>, some: seq<Target>, a: real, b: real): real {
    if some == [] then 0.0
    else TotalShare(entries, some[..|some| - 1], a, b) + Share(entries, some[|some| - 1], a, b)
  }

  lemma {:induction false} NoShares(entries: seq<Target>, some: seq<Target>, a: real, b: real)
    requires a >= b || Running(entries, a, b) == 0
    ensures TotalShare(entries, some, a, b) == 0.0
  {
    if some != [] {
      NoShares(entries, some[..|some| - 1], a, b);
    }
  }

  lemma StretchConserved(entries: seq<Target>, a: real, b: real)
    ensures TotalShare(entries, entries, a, b) == if a < b && Running(entries, a, b) > 0 then b - a else 0.0
  {
    if a < b && Running(entries, a, b) > 0 {
      SharesAddUp(entries, entries, a, b, Part(b - a, Running(entries, a, b)));
    } else {
      NoShares(entries, entries, a, b);
    }
  }

  lemma {:induction false} TotalWeightedStep(entries: seq<Target>, moments: seq<real>, some: seq<Target>, n: nat)
    requires 0 < n < |moments|
    ensures TotalWeighted(entries, moments, some, n) ==
            TotalWeighted(entries, moments, some, n - 1) + TotalShare(entries, some, moments[n - 1], moments[n])
  {
    if some != [] {
      TotalWeightedStep(entries, moments, some[..|some| - 1], n);
    }
  }

  lemma {:induction false} TotalWeightedStart(entries: seq<Target>, moments: seq<real>, some: seq<Target>)
    requires |moments| > 0
    ensures TotalWeighted(entries, moments, some, 0) == 0.0
  {
    if some != [] {
      TotalWeightedStart(entries, moments, some[..|some| - 1]);
    }
  }

  /** The weighted times of all steps add up to exactly the time at least one step was running. */
  lemma {:induction false} WeightedTimeConserved(entries: seq<Target>, moments: seq<real>, n: nat)
    requires n < |moments|
    ensures TotalWeighted(entries, moments, entries, n) == BusyTime(entries, moments, n)
  {
    if n == 0 {
      TotalWeightedStart(entries, moments, entries);
    } else {
      WeightedTimeConserved(entries, moments, n - 1);
      TotalWeightedStep(entries, moments, entries, n);
      StretchConserved(entries, moments[n - 1], moments[n]);
    }
  }

  /** Busy time never exceeds the elapsed time; the rest is the time nothing ran. */
  lemma {:induction false} BusyWithinElapsed(entries: seq<Target>, moments: seq<real>, n: nat)
    requires n < |moments| && Ascending(moments)
    ensures 0.0 <= BusyTime(entries, moments, n) <= moments[n] - moments[0]
  {
    if n > 0 {
      BusyWithinElapsed(entries, moments, n - 1);
    }
  }

  // ----- Sorting the events

  /** By time, and at equal times starts before stops. */
  predicate Le(a: Event, b: Event) {
    a.time < b.time || (a.time == b.time && (b.stop || !a.stop))
  }

  ghost predicate Sorted(s: seq<Event>) {
    forall i, j :: 0 <= i < j < |s| ==> Le(s[i], s[j])
  }

  predicate Earlier(a: Event, b: Event) {
    !Le(b, a)
  }

  function SortEvents(s: seq<Event>): (r: seq<Event>)
    ensures |r| == |s|
  {
    Sort(s, Earlier)
  }

  lemma SortMembers(s: seq<Event>, x: Event)
    ensures x in SortEvents(s) <==> x in s
  {
    SortPermutes(s, Earlier);
    assert x in SortEvents(s) <==> x in multiset(SortEvents(s));
  }

  lemma SortIsSorted(s: seq<Event>)
    ensures Sorted(SortEvents(s))
    ensures Distinct(s) ==> Distinct(SortEvents(s))
  {
    SortOrders(s, Earlier);
    var r := SortEvents(s);
    assert forall i, j :: 0 <= i < j < |r| ==> !Earlier(r[j], r[i]);
    if Distinct(s) { SortDistinct(s, Earlier); }
  }

  // ----- The events of the entries

  function EventsOf(entries: seq<Target>): (r: seq<Event>)
    ensures |r| == 2 * |entries|
  {
    if entries == [] then []
    else EventsOf(entries[..|entries| - 1]) + [StartOf(entries[|entries| - 1]), StopOf(entries[|entries| - 1])]
  }

  lemma {:induction false} EventsOfEntries(entries: seq<Target>)
    ensures forall e :: e in EventsOf(entries) <==> e.target in entries && (e == StartOf(e.target) || e == StopOf(e.target))
    ensures Distinct(entries) ==> Distinct(EventsOf(entries))
  {
    if entries != [] {
      var init, last := entries[..|entries| - 1], entries[|entries| - 1];
      EventsOfEntries(init);
      assert entries == init + [last];
      if Distinct(entries) {
        assert last !in init;
      }
    }
  }

  // ----- Sums over the stop events do not depend on their order

  function SumStops(s: seq<Event>, w: Target -> real): real {
    if s == [] then 0.0
    else SumStops(s[..|s| - 1], w) + if s[|s| - 1].stop then w(s[|s| - 1].target) else 0.0
  }

  function SumOver(some: seq<Target>, w: Target -> real): real {
    if some == [] then 0.0 else SumOver(some[..|some| - 1], w) + w(some[|some| - 1])
  }

  function StopShare(e: Event, w: Target -> real): real {
    if e.stop then w(e.target) else 0.0
  }

  lemma {:induction false} SumFirst(e: Event, s: seq<Event>, w: Target -> real)
    ensures SumStops([e] + s, w) == StopShare(e, w) + SumStops(s, w)
  {
    var n := |s|;
    if n == 0 {
      assert [e] + s == [e];
    } else {
      SumFirst(e, s[..n - 1], w);
      assert ([e] + s)[..n] == [e] + s[..n - 1];
    }
  }

  lemma {:induction false} InsertKeepsSum(s: seq<Event>, e: Event, w: Target -> real)
    ensures SumStops(Insert(s, e, Earlier), w) == SumStops(s, w) + StopShare(e, w)
  {
    SumFirst(e, s, w);
    if s == [] {
      assert [e] + s == [e];
    } else if Earlier(s[0], e) {
      InsertKeepsSum(s[1..], e, w);
      SumFirst(s[0], s[1..], w);
      SumFirst(s[0], Insert(s[1..], e, Earlier), w);
      assert s == [s[0]] + s[1..];
    }
  }

  lemma {:induction false} SortKeepsSum(s: seq<Event>, w: Target -> real)
    ensures SumStops(SortEvents(s), w) == SumStops(s, w)
  {
    if s != [] {
      SortKeepsSum(s[1..], w);
      InsertKeepsSum(Sort(s[1..], Earlier), s[0], w);
      SumFirst(s[0], s[1..], w);
      assert s == [s[0]] + s[1..];
    }
  }

  lemma {:induction false} EventsKeepSum(entries: seq<Target>, w: Target -> real)
    ensures SumStops(EventsOf(entries), w) == SumOver(entries, w)
  {
    if entries != [] {
      var init, last := entries[..|entries| - 1], entries[|entries| - 1];
      EventsKeepSum(init, w);
      var r := EventsOf(entries);
      assert r[..|r| - 1] == EventsOf(init) + [StartOf(last)];
      assert (EventsOf(init) + [StartOf(last)])[..|EventsOf(init)|] == EventsOf(init);
    }
  }

  // ----- The sweep

  function Times(events: seq<Event>): (r: seq<real>)
    ensures |r| == |events|
  {
    seq(|events|, i requires 0 <= i < |events| => events[i].time)
  }

  /** The moments at which something starts or stops, in order. */
  function Moments(entries: seq<Target>): (r: seq<real>)
    ensures |r| == 2 * |entries|
  {
    Times(SortEvents(EventsOf(entries)))
  }

  /** How much weighted time one running step gains between moments k and k + 1. */
  function Rate(entries: seq<Target>, moments: seq<real>, k: nat): real
    requires k + 1 < |moments|
  {
    if moments[k] < moments[k + 1] then Part(moments[k + 1] - moments[k], Running(entries, moments[k], moments[k + 1])) else 0.0
  }

  function Accumulated(entries: seq<Target>, moments: seq<real>, n: nat): real
    requires n < |moments|
  {
    if n == 0 then 0.0 else Accumulated(entries, moments, n - 1) + Rate(entries, moments, n - 1)
  }

  /** The sorted events of distinct entries. */
  ghost predicate Schedule(entries: seq<Target>, events: seq<Event>) {
    && Distinct(entries) && Sorted(events) && Distinct(events)
    && (forall i :: 0 <= i < |events| ==>
          && events[i].target in entries
          && (events[i] == StartOf(events[i].target) || events[i] == StopOf(events[i].target)))
    && (forall t :: t in entries ==> StartOf(t) in events && StopOf(t) in events)
  }

  lemma ScheduleOf(entries: seq<Target>)
    requires Distinct(entries)
    ensures Schedule(entries, SortEvents(EventsOf(entries)))
    ensures Ascending(Moments(entries))
  {
    var events := SortEvents(EventsOf(entries));
    EventsOfEntries(entries);
    SortIsSorted(EventsOf(entries));
    forall i | 0 <= i < |events|
      ensures events[i].target in entries && (events[i] == StartOf(events[i].target) || events[i] == StopOf(events[i].target))
    {
      SortMembers(EventsOf(entries), events[i]);
    }
    forall t | t in entries
      ensures StartOf(t) in events && StopOf(t) in events
    {
      SortMembers(EventsOf(entries), StartOf(t));
      SortMembers(EventsOf(entries), StopOf(t));
    }
  }

  /** Where an event stands; past the end if it is not there. */
  ghost function IndexOf(events: seq<Event>, e: Event): (i: nat)
    ensures e in events ==> i < |events| && events[i] == e
    ensures e !in events ==> i == |events|
  {
    if e in events then
      var i: nat :| i < |events| && events[i] == e;
      i
    else |events|
  }

  lemma TimesAscend(events: seq<Event>)
    requires Sorted(events)
    ensures Ascending(Times(events))
  {
    forall i, j | 0 <= i < j < |events|
      ensures events[i].time <= events[j].time
    {
      assert Le(events[i], events[j]);
    }
  }

  lemma IndexUnique(events: seq<Event>, i: nat)
    requires Distinct(events) && i < |events|
    ensures IndexOf(events, events[i]) == i
  {
  }

  /** Step t has been started and not stopped by the first j events. */
  ghost predicate IsRunning(events: seq<Event>, j: nat, t: Target) {
    IndexOf(events, StartOf(t)) < j <= IndexOf(events, StopOf(t))
  }

  /** Between two different moments, a step that starts at moment p and stops at moment q runs all
      through exactly when the stretch lies between p and q. */
  lemma RunsBetween(moments: seq<real>, t: Target, p: nat, q: nat, k: nat)
    requires Ascending(moments) && p < |moments| && q < |moments| && k + 1 < |moments|
    requires moments[p] == t.start && moments[q] == t.end
    requires moments[k] < moments[k + 1]
    ensures RunsThrough(t, moments[k], moments[k + 1]) <==> p <= k < q
  {
  }

  lemma {:induction false} CountRunning(entries: seq<Target>, running: set<Target>, a: real, b: real)
    requires Distinct(entries)
    requires forall t :: t in running <==> t in entries && RunsThrough(t, a, b)
    ensures |running| == Running(entries, a, b)
  {
    if entries == [] {
      assert running == {};
    } else {
      var init, last := entries[..|entries| - 1], entries[|entries| - 1];
      assert entries == init + [last];
      assert last !in init;
      CountRunning(init, running - {last}, a, b);
      if last in running {
        assert |running| == |running - {last}| + 1;
      } else {
        assert running - {last} == running;
      }
    }
  }

  /** A step's start comes before its stop exactly when the step does not end before it starts. */
  lemma StartBeforeStop(events: seq<Event>, t: Target)
    requires Sorted(events) && StartOf(t) in events && StopOf(t) in events
    ensures t.start <= t.end <==> IndexOf(events, StartOf(t)) < IndexOf(events, StopOf(t))
  {
    var p, q := IndexOf(events, StartOf(t)), IndexOf(events, StopOf(t));
    if p < q {
      assert Le(events[p], events[q]);
    } else if q < p {
      assert Le(events[q], events[p]);
    }
  }

  lemma ShareIsRate(entries: seq<Target>, moments: seq<real>, t: Target, p: nat, q: nat, k: nat)
    requires Ascending(moments) && p < |moments| && q < |moments| && k + 1 < |moments|
    requires moments[p] == t.start && moments[q] == t.end
    ensures Share(entries, t, moments[k], moments[k + 1]) == if p <= k < q then Rate(entries, moments, k) else 0.0
  {
    if moments[k] < moments[k + 1] {
      RunsBetween(moments, t, p, q, k);
    }
  }

  /** A step's weighted time up to moment n, when it runs from moment p to moment q. */
  lemma {:induction false} WeightedFromSweep(entries: seq<Target>, moments: seq<real>, t: Target, p: nat, q: nat, n: nat)
    requires Ascending(moments) && n < |moments|
    requires p < q < |moments| && moments[p] == t.start && moments[q] == t.end
    ensures WeightedTime(entries, moments, t, n) ==
            if n <= p then 0.0
            else Accumulated(entries, moments, if n <= q then n else q) - Accumulated(entries, moments, p)
  {
    if n > 0 {
      WeightedFromSweep(entries, moments, t, p, q, n - 1);
      ShareIsRate(entries, moments, t, p, q, n - 1);
    }
  }

  ghost function FullWeight(entries: seq<Target>, moments: seq<real>): Target -> real
    requires |moments| > 0
  {
    (t: Target) => WeightedTime(entries, moments, t, |moments| - 1)
  }

  // What the sweep knows after j events: which steps run, when each began, and the weighted clock.

  ghost predicate RunningSteps(entries: seq<Target>, events: seq<Event>, j: nat, running: set<Target>) {
    && (forall t :: t in entries ==> (t in running <==> IsRunning(events, j, t)))
    && (forall t :: t in running ==> t in entries)
    && (forall t :: t in entries && IndexOf(events, StopOf(t)) < j ==> IndexOf(events, StartOf(t)) < j)
  }

  ghost predicate Begun(entries: seq<Target>, events: seq<Event>, running: map<Target, real>) {
    forall t :: t in running ==>
      && IndexOf(events, StartOf(t)) < |events|
      && running[t] == Accumulated(entries, Times(events), IndexOf(events, StartOf(t)))
  }

  /** The last moment reached after j events. */
  function Reached(j: nat): nat {
    if j == 0 then 0 else j - 1
  }

  lemma NothingRunsYet(entries: seq<Target>, events: seq<Event>, running: set<Target>)
    requires RunningSteps(entries, events, 0, running)
    ensures running == {}
  {
  }

  lemma RunningOne(events: seq<Event>, j: nat, t: Target)
    requires Sorted(events) && 0 < j < |events| && StartOf(t) in events && StopOf(t) in events
    requires events[j - 1].time < events[j].time
    ensures IsRunning(events, j, t) <==> RunsThrough(t, events[j - 1].time, events[j].time)
  {
    TimesAscend(events);
    RunsBetween(Times(events), t, IndexOf(events, StartOf(t)), IndexOf(events, StopOf(t)), j - 1);
  }

  lemma RunningBetween(entries: seq<Target>, events: seq<Event>, j: nat, running: set<Target>)
    requires Schedule(entries, events) && 0 < j < |events| && RunningSteps(entries, events, j, running)
    requires events[j - 1].time < events[j].time
    ensures |running| == Running(entries, events[j - 1].time, events[j].time)
  {
    var a, b := events[j - 1].time, events[j].time;
    forall t | t in entries
      ensures IsRunning(events, j, t) <==> RunsThrough(t, a, b)
    {
      RunningOne(events, j, t);
    }
    CountRunning(entries, running, a, b);
  }

  lemma RateOf(entries: seq<Target>, moments: seq<real>, k: nat, n: nat)
    requires k + 1 < |moments| && moments[k] <= moments[k + 1]
    requires moments[k] < moments[k + 1] ==> n == Running(entries, moments[k], moments[k + 1])
    ensures Rate(entries, moments, k) == Part(moments[k + 1] - moments[k], n)
  {
  }

  /** The weighted clock advanced to event j. */
  lemma ClockStep(entries: seq<Target>, events: seq<Event>, j: nat, running: set<Target>)
    requires Schedule(entries, events) && j < |events| && RunningSteps(entries, events, j, running)
    ensures Accumulated(entries, Times(events), j) ==
            Accumulated(entries, Times(events), Reached(j)) + Part(events[j].time - events[Reached(j)].time, |running|)
  {
    hide Rate, Schedule, RunningSteps;
    if j == 0 {
      NothingRunsYet(entries, events, running);
    } else {
      hide Part;
      ElapsedRate(entries, events, j, running);
    }
  }

  lemma ElapsedRate(entries: seq<Target>, events: seq<Event>, j: nat, running: set<Target>)
    requires Schedule(entries, events) && 0 < j < |events| && RunningSteps(entries, events, j, running)
    ensures Rate(entries, Times(events), j - 1) == Part(events[j].time - events[j - 1].time, |running|)
  {
    hide Part, Rate, RunningSteps, Schedule, Distinct, Running;
    EventsSorted(entries, events);
    assert Le(events[j - 1], events[j]);
    if events[j - 1].time < events[j].time {
      RunningBetween(entries, events, j, running);
    }
    RateOf(entries, Times(events), j - 1, |running|);
  }

  /** An event's position is j exactly for the event at j. */
  lemma AtPosition(events: seq<Event>, j: nat, e: Event)
    requires Distinct(events) && j < |events|
    ensures IndexOf(events, e) == j <==> e == events[j]
  {
    IndexUnique(events, j);
  }

  lemma StartStep(entries: seq<Target>, events: seq<Event>, j: nat, running: set<Target>)
    requires Schedule(entries, events) && j < |events| && !events[j].stop && RunningSteps(entries, events, j, running)
    ensures RunningSteps(entries, events, j + 1, running + {events[j].target})
    ensures IndexOf(events, StartOf(events[j].target)) == j
  {
    forall t | t in entries
      ensures IndexOf(events, StartOf(t)) == j <==> t == events[j].target
      ensures IndexOf(events, StopOf(t)) != j
    {
      AtPosition(events, j, StartOf(t));
      AtPosition(events, j, StopOf(t));
    }
  }

  lemma StopStep(entries: seq<Target>, events: seq<Event>, j: nat, running: set<Target>)
    requires Schedule(entries, events) && j < |events| && events[j].stop && RunningSteps(entries, events, j, running)
    ensures IndexOf(events, StopOf(events[j].target)) == j
    ensures events[j].target in running <==> events[j].target.start <= events[j].target.end
    ensures events[j].target in running ==> RunningSteps(entries, events, j + 1, running - {events[j].target})
  {
    forall t | t in entries
      ensures IndexOf(events, StopOf(t)) == j <==> t == events[j].target
      ensures IndexOf(events, StartOf(t)) != j
    {
      AtPosition(events, j, StartOf(t));
      AtPosition(events, j, StopOf(t));
    }
    StartBeforeStop(events, events[j].target);
  }

  /** The clock difference over a step's run is its weighted time. */
  lemma StopWeight(entries: seq<Target>, events: seq<Event>, j: nat, t: Target)
    requires Sorted(events) && j < |events| && events[j] == StopOf(t)
    requires StartOf(t) in events && IndexOf(events, StartOf(t)) < j
    ensures Accumulated(entries, Times(events), j) - Accumulated(entries, Times(events), IndexOf(events, StartOf(t))) ==
            WeightedTime(entries, Times(events), t, |events| - 1)
  {
    TimesAscend(events);
    WeightedFromSweep(entries, Times(events), t, IndexOf(events, StartOf(t)), j, |events| - 1);
  }

  lemma SumStopsStep(events: seq<Event>, j: nat, w: Target -> real)
    requires j < |events|
    ensures SumStops(events[..j + 1], w) == SumStops(events[..j], w) + if events[j].stop then w(events[j].target) else 0.0
  {
    assert events[..j + 1][..j] == events[..j];
  }

  /** Accumulate weighted time up to now. */
  method AdvanceClock(clock: real, lastTime: real, time: real, numRunning: nat) returns (next: real)
    ensures next == clock + Part(time - lastTime, numRunning)
  {
    next := clock;
    if numRunning > 0 {
      next := clock + (time - lastTime) / numRunning as real;
    }
  }

  /** A start event: the step is entered with the weighted clock. */
  method HandleStart(ghost entries: seq<Target>, ghost events: seq<Event>, ghost j: nat, target: Target,
                     running: map<Target, real>, clock: real) returns (next: map<Target, real>)
    requires Schedule(entries, events) && j < |events| && events[j] == StartOf(target)
    requires RunningSteps(entries, events, j, running.Keys) && Begun(entries, events, running)
    requires clock == Accumulated(entries, Times(events), j)
    ensures RunningSteps(entries, events, j + 1, next.Keys) && Begun(entries, events, next)
  {
    StartStep(entries, events, j, running.Keys);
    next := running[target := clock];
    assert next.Keys == running.Keys + {target};
  }

  /** A stop event: the step leaves with its weighted time, unless it is not there. */
  method HandleStop(ghost entries: seq<Target>, ghost events: seq<Event>, ghost j: nat, target: Target,
                    running: map<Target, real>, clock: real) returns (found: bool, duration: real, next: map<Target, real>)
    requires Schedule(entries, events) && j < |events| && events[j] == StopOf(target)
    requires RunningSteps(entries, events, j, running.Keys) && Begun(entries, events, running)
    requires clock == Accumulated(entries, Times(events), j)
    modifies target
    ensures found <==> target.start <= target.end
    ensures found ==>
      && target.weightedDuration == duration == WeightedTime(entries, Times(events), target, |events| - 1)
      && RunningSteps(entries, events, j + 1, next.Keys) && Begun(entries, events, next)
  {
    hide Rate, WeightedTime, Accumulated;
    StopStep(entries, events, j, running.Keys);
    if target !in running {
      return false, 0.0, running;
    }
    StopWeight(entries, events, j, target);
    found, duration, next := true, clock - running[target], running - {target};
    assert next.Keys == running.Keys - {target};
    target.SetWeightedDuration(duration);
  }

  /** The steps stopped by the first j events have their weighted times. */
  ghost predicate Assigned(entries: seq<Target>, events: seq<Event>, j: nat)
    requires |events| > 0
    reads entries
  {
    forall t :: t in entries && IndexOf(events, StopOf(t)) < j ==>
      && t.start <= t.end
      && t.weightedDuration == WeightedTime(entries, Times(events), t, |events| - 1)
  }

  lemma NextToStop(entries: seq<Target>, events: seq<Event>, j: nat)
    requires Distinct(events) && j < |events|
    ensures forall t :: t in entries ==>
      (IndexOf(events, StopOf(t)) < j + 1 <==> IndexOf(events, StopOf(t)) < j || events[j] == StopOf(t))
  {
    forall t | t in entries
      ensures IndexOf(events, StopOf(t)) < j + 1 <==> IndexOf(events, StopOf(t)) < j || events[j] == StopOf(t)
    {
      AtPosition(events, j, StopOf(t));
    }
  }

  /** The sweep over the sorted events: a KeyError exactly when some step ends before it starts;
      otherwise no step is left running and every step has its weighted time. */
  method Sweep(entries: seq<Target>, events: seq<Event>) returns (ok: bool, weightedTotal: real)
    requires Schedule(entries, events) && |events| > 0
    modifies entries
    ensures ok <==> forall t :: t in entries ==> t.start <= t.end
    ensures ok ==> Assigned(entries, events, |events|)
    ensures ok ==> weightedTotal == SumStops(events, FullWeight(entries, Times(events)))
  {
    hide Rate, WeightedTime, Part, Schedule, Sorted, Distinct, RunningSteps, Begun, Accumulated, SumStops;
    var running: map<Target, real> := map[];
    var lastTime := events[0].time;
    var lastWeightedTime := 0.0;
    weightedTotal := 0.0;
    SweepStarts(entries, events);
    assert running.Keys == {};
    for j := 0 to |events|
      invariant RunningSteps(entries, events, j, running.Keys)
      invariant Begun(entries, events, running)
      invariant lastWeightedTime == Accumulated(entries, Times(events), Reached(j)) && lastTime == events[Reached(j)].time
      invariant weightedTotal == SumStops(events[..j], FullWeight(entries, Times(events)))
      invariant Assigned(entries, events, j)
    {
      var Event(time, stop, target) := events[j];
      EventAt(entries, events, j);
      ClockStep(entries, events, j, running.Keys);
      SumStopsStep(events, j, FullWeight(entries, Times(events)));
      NextToStop(entries, events, j);
      lastWeightedTime := AdvanceClock(lastWeightedTime, lastTime, time, |running|);
      if !stop {
        running := HandleStart(entries, events, j, target, running, lastWeightedTime);
      } else {
        var found, weightedDuration, rest := HandleStop(entries, events, j, target, running, lastWeightedTime);
        if !found {
          return false, weightedTotal;
        }
        weightedTotal := weightedTotal + weightedDuration;
        running := rest;
      }
      lastTime := time;
    }
    assert events[..|events|] == events;
    NothingRunsAtEnd(entries, events, running.Keys);
    assert |running| == 0;
    ok := true;
  }

  lemma SweepStarts(entries: seq<Target>, events: seq<Event>)
    requires |events| > 0
    ensures RunningSteps(entries, events, 0, {}) && Begun(entries, events, map[])
    ensures Accumulated(entries, Times(events), 0) == 0.0
    ensures SumStops(events[..0], FullWeight(entries, Times(events))) == 0.0
  {
  }

  lemma EventAt(entries: seq<Target>, events: seq<Event>, j: nat)
    requires Schedule(entries, events) && j < |events|
    ensures events[j].target in entries && Distinct(events)
    ensures events[j] == if events[j].stop then StopOf(events[j].target) else StartOf(events[j].target)
  {
  }

  lemma NothingRunsAtEnd(entries: seq<Target>, events: seq<Event>, running: set<Target>)
    requires Schedule(entries, events) && RunningSteps(entries, events, |events|, running)
    ensures running == {}
    ensures forall t :: t in entries ==> IndexOf(events, StopOf(t)) < |events|
  {
  }

  // ----- The summary

  function TotalDuration(entries: seq<Target>): real {
    if entries == [] then 0.0 else TotalDuration(entries[..|entries| - 1]) + entries[|entries| - 1].Duration()
  }

  /** The earliest start, the latest end and the sum of the durations, as the first loop finds them. */
  method Extent(entries: seq<Target>) returns (earliest: real, latest: real, totalCpuTime: real)
    ensures totalCpuTime == TotalDuration(entries)
    ensures forall t :: t in entries ==> t.end <= latest
    ensures (forall t :: t in entries ==> t.start >= 0.0) ==> forall t :: t in entries ==> earliest <= t.start
    ensures latest == 0.0 || exists t :: t in entries && t.end == latest
    ensures entries != [] ==> exists t :: t in entries && t.start == earliest
  {
    earliest, latest, totalCpuTime := -1.0, 0.0, 0.0;
    for i := 0 to |entries|
      invariant totalCpuTime == TotalDuration(entries[..i])
      invariant forall t :: t in entries[..i] ==> t.end <= latest
      invariant (forall t :: t in entries ==> t.start >= 0.0) ==> forall t :: t in entries[..i] ==> earliest <= t.start
      invariant latest == 0.0 || exists t :: t in entries[..i] && t.end == latest
      invariant if i == 0 then earliest == -1.0 else exists t :: t in entries[..i] && t.start == earliest
    {
      var target := entries[i];
      assert entries[..i + 1][..i] == entries[..i];
      assert entries[..i + 1] == entries[..i] + [target];
      if earliest < 0.0 || target.start < earliest {
        earliest := target.start;
        assert target in entries[..i + 1];
      }
      if target.end > latest {
        latest := target.end;
        assert target in entries[..i + 1];
      }
      totalCpuTime := totalCpuTime + target.Duration();
    }
    assert entries[..|entries|] == entries;
  }

  lemma {:induction false} SumOverIsTotal(entries: seq<Target>, moments: seq<real>, some: seq<Target>)
    requires |moments| > 0
    ensures SumOver(some, FullWeight(entries, moments)) == TotalWeighted(entries, moments, some, |moments| - 1)
  {
    if some != [] {
      SumOverIsTotal(entries, moments, some[..|some| - 1]);
    }
  }

  /** The whole summary, for distinct targets: an empty list fails on its first event, a step that ends
      before it starts is looked up in vain, and otherwise the weighted times are those of the
      definition, lie between 0 and the durations, and add up to the time something ran. */
  method SummarizeEntries(entries: seq<Target>) returns (r: Outcome)
    requires Distinct(entries)
    modifies entries
    ensures r.IndexError? <==> entries == []
    ensures r.KeyError? <==> exists t :: t in entries && t.end < t.start
    ensures r.Summary? ==>
      var moments := Moments(entries);
      && |moments| > 0
      && (forall t :: t in entries ==>
            && t.weightedDuration == WeightedTime(entries, moments, t, |moments| - 1)
            && 0.0 <= t.weightedDuration <= t.Duration())
      && r.weightedTotal == BusyTime(entries, moments, |moments| - 1)
      && r.totalCpuTime == TotalDuration(entries)
      && ((forall t :: t in entries ==> t.start >= 0.0) ==>
            && r.weightedTotal <= r.length
            && (forall t, u :: t in entries && u in entries ==> t.end - u.start <= r.length)
            && exists t, u :: t in entries && u in entries && t.end - u.start == r.length)
  {
    hide Schedule, WeightedTime, BusyTime, SumStops, SortEvents, EventsOf, Distinct;
    var earliest, latest, totalCpuTime := Extent(entries);
    var length := latest - earliest;
    var events := SortEvents(EventsOf(entries));
    ScheduleOf(entries);
    if events == [] {
      return IndexError;
    }
    var ok, weightedTotal := Sweep(entries, events);
    if !ok {
      return KeyError;
    }
    TotalIsBusy(entries, events);
    WeightsInBounds(entries, events);
    if forall t :: t in entries ==> t.start >= 0.0 {
      ElapsedWithinLength(entries, events, earliest, latest);
      SpanOf(entries, earliest, latest);
    }
    r := Summary(length, totalCpuTime, weightedTotal);
  }

  /** The latest end and the earliest start are those of two steps. */
  lemma SpanOf(entries: seq<Target>, earliest: real, latest: real)
    requires entries != [] && forall t :: t in entries ==> 0.0 <= t.start <= t.end <= latest
    requires (latest == 0.0 || exists t :: t in entries && t.end == latest) && exists t :: t in entries && t.start == earliest
    ensures exists t, u :: t in entries && u in entries && t.end - u.start == latest - earliest
  {
    var u :| u in entries && u.start == earliest;
    if latest == 0.0 {
      assert u.end - u.start == latest - earliest;
    } else {
      var t :| t in entries && t.end == latest;
      assert t.end - u.start == latest - earliest;
    }
  }

  lemma EventsSorted(entries: seq<Target>, events: seq<Event>)
    requires Schedule(entries, events)
    ensures Sorted(events)
  {
  }

  lemma TotalIsBusy(entries: seq<Target>, events: seq<Event>)
    requires events == SortEvents(EventsOf(entries)) && events != []
    ensures SumStops(events, FullWeight(entries, Times(events))) == BusyTime(entries, Times(events), |events| - 1)
  {
    var w := FullWeight(entries, Times(events));
    SortKeepsSum(EventsOf(entries), w);
    EventsKeepSum(entries, w);
    SumOverIsTotal(entries, Times(events), entries);
    WeightedTimeConserved(entries, Times(events), |events| - 1);
  }

  lemma WeightsInBounds(entries: seq<Target>, events: seq<Event>)
    requires Schedule(entries, events) && events != []
    requires forall t :: t in entries ==> t.start <= t.end
    ensures forall t :: t in entries ==>
      && IndexOf(events, StopOf(t)) < |events|
      && 0.0 <= WeightedTime(entries, Times(events), t, |events| - 1) <= t.Duration()
  {
    hide WeightedTime, Sorted, Distinct;
    TimesAscend(events);
    forall t | t in entries
      ensures 0.0 <= WeightedTime(entries, Times(events), t, |events| - 1) <= t.Duration()
    {
      WeightedWithinDuration(entries, Times(events), t, |events| - 1);
    }
  }

  lemma ElapsedWithinLength(entries: seq<Target>, events: seq<Event>, earliest: real, latest: real)
    requires Schedule(entries, events) && events != []
    requires forall t :: t in entries ==> earliest <= t.start <= t.end <= latest
    ensures BusyTime(entries, Times(events), |events| - 1) <= latest - earliest
  {
    hide BusyTime, Schedule, Sorted, Distinct;
    EventsSorted(entries, events);
    TimesAscend(events);
    BusyWithinElapsed(entries, Times(events), |events| - 1);
    EventAt(entries, events, 0);
    EventAt(entries, events, |events| - 1);
  }
}
