/** The wait loop of csrc/spinloop.cpp: a waiter checks a condition on a buffer, arms the processor's
    address monitor, checks once more and sleeps until the monitored line is written, while other threads
    write and time passes.  A callback, a store and a clock reading are one step each. */
module Spinloop {
  import opened Arith

  const U32: nat := 0x1_0000_0000
  const NS_PER_S: nat := 1_000_000_000

  datatype Answer = IsTrue | IsFalse | Raises

  datatype Config = Config(
    buf: nat, len: nat,
    /** cpu_support == MONITORX, and max_monitor_line_size. */
    monitorx: bool, line: nat,
    timeout: real, start: nat,
    callback: seq<int> -> Answer,
    /** The check after arming: always done by the source. */
    recheck: bool) {
    predicate Monitors() {
      monitorx && len <= line
    }

    predicate HaveTimeout() {
      timeout > 0.000000001
    }

    /** A store to this address wakes the waiter: it is in the line that contains the start of the buffer. */
    predicate Watched(a: nat) {
      line > 0 && buf - buf % line <= a < buf - buf % line + line
    }

    /** The whole buffer is in that line: it does not cross a line boundary. */
    predicate InLine() {
      len == 0 || (line > 0 && buf % line + len <= line)
    }

    predicate Overdue(now: nat) {
      HaveTimeout() && Elapsed(start, now) >= timeout
    }
  }

  datatype Pc = Check | TimeoutTest | Arm | Recheck | Wait | Pause | Done(result: Answer)

  datatype State = State(pc: Pc, mem: nat -> int, triggered: bool, iteration: nat, now: nat, last: Answer, passes: nat)

  /** ClockFails is a step of the waiter too: its reading of the clock fails. */
  datatype Event = Waiter | ClockFails | Store(addr: nat, value: int) | Tick(ns: nat)

  /** (t_now.tv_sec - t_start.tv_sec) + (t_now.tv_nsec - t_start.tv_nsec) * 1e-9. */
  function Elapsed(start: nat, now: nat): real {
    (now / NS_PER_S - start / NS_PER_S) as real + (now % NS_PER_S - start % NS_PER_S) as real * 0.000000001
  }

  lemma ElapsedIsDifference(start: nat, now: nat)
    ensures Elapsed(start, now) == (now - start) as real * 0.000000001
  {
    assert now == now / NS_PER_S * NS_PER_S + now % NS_PER_S;
    assert start == start / NS_PER_S * NS_PER_S + start % NS_PER_S;
  }

  function Ask(c: Config, mem: nat -> int): Answer {
    c.callback(seq(c.len, i requires 0 <= i => mem(c.buf + i)))
  }

  function Begin(c: Config, mem: nat -> int): State {
    State(Check, mem, false, 0, c.start, IsFalse, 0)
  }

  /** The time is looked at in every sixteenth pass. */
  predicate LooksAtClock(c: Config, s: State) {
    s.pc == TimeoutTest && c.HaveTimeout() && s.iteration % 16 == 0
  }

  /** Where the waiter goes from each point. */
  ghost predicate WaiterStep(c: Config, s: State, t: State) {
    match s.pc
    case Check =>
      var answer := Ask(c, s.mem);
      t == s.(last := answer, passes := s.passes + 1, pc := if answer == IsFalse then TimeoutTest else Done(answer))
    case TimeoutTest =>
      t == if LooksAtClock(c, s) && c.Overdue(s.now) then s.(pc := Done(IsFalse)) else Next(c, s)
    case Arm => t == s.(triggered := false, pc := if c.recheck then Recheck else Wait)
    case Recheck =>
      var answer := Ask(c, s.mem);
      t == s.(last := answer, pc := if answer == IsFalse then Wait else Done(answer))
    // mwaitx returns when the monitor has fired, or when its own timeout expires
    case Wait => t == s.(pc := Check)
    case Pause => t == s.(pc := Check)
    case Done(_) => false
  }

  function Next(c: Config, s: State): State {
    s.(iteration := (s.iteration + 1) % U32, pc := if c.Monitors() then Arm else Pause)
  }

  function Write(mem: nat -> int, a: nat, v: int): nat -> int {
    (x: nat) => if x == a then v else mem(x)
  }

  ghost predicate Step(c: Config, s: State, e: Event, t: State) {
    match e
    case Waiter => WaiterStep(c, s, t)
    case ClockFails => LooksAtClock(c, s) && t == s.(pc := Done(Raises))
    case Store(a, v) => t == s.(mem := Write(s.mem, a, v), triggered := s.triggered || c.Watched(a))
    case Tick(ns) => t == s.(now := s.now + ns)
  }

  /** The waiter's steps, other threads' stores and the clock, interleaved in any way. */
  ghost predicate Run(c: Config, states: seq<State>, events: seq<Event>) {
    |states| == |events| + 1 && forall i :: 0 <= i < |events| ==> Step(c, states[i], events[i], states[i + 1])
  }

  function WaiterSteps(events: seq<Event>, i: nat): nat
    requires i <= |events|
  {
    if i == 0 then 0 else WaiterSteps(events, i - 1) + if events[i - 1].Waiter? || events[i - 1].ClockFails? then 1 else 0
  }

  /** The waiter sleeps, nothing has woken it, and yet the condition holds. */
  ghost predicate Lost(c: Config, s: State) {
    s.pc == Wait && !s.triggered && Ask(c, s.mem) == IsTrue
  }

  ghost predicate WakeInv(c: Config, s: State) {
    s.pc == Wait ==> s.triggered || Ask(c, s.mem) == IsFalse
  }

  lemma StoreOutside(c: Config, s: State, a: nat, v: int, t: State)
    requires c.InLine() && !c.Watched(a) && Step(c, s, Store(a, v), t)
    ensures Ask(c, t.mem) == Ask(c, s.mem)
  {
    var before := seq(c.len, i requires 0 <= i => s.mem(c.buf + i));
    var after := seq(c.len, i requires 0 <= i => t.mem(c.buf + i));
    forall i | 0 <= i < c.len
      ensures before[i] == after[i]
    {
      assert c.Watched(c.buf + i);
    }
    assert before == after;
  }

  lemma WakeStep(c: Config, s: State, e: Event, t: State)
    requires c.InLine() && c.recheck && WakeInv(c, s) && Step(c, s, e, t)
    ensures WakeInv(c, t)
  {
    match e
    case Store(a, v) =>
      if !c.Watched(a) {
        StoreOutside(c, s, a, v, t);
      }
    case _ =>
  }

  lemma {:induction false} WakeAlong(c: Config, states: seq<State>, events: seq<Event>, i: nat)
    requires c.InLine() && c.recheck && Run(c, states, events) && WakeInv(c, states[0]) && i < |states|
    ensures WakeInv(c, states[i])
  {
    if i > 0 {
      WakeAlong(c, states, events, i - 1);
      WakeStep(c, states[i - 1], events[i - 1], states[i]);
    }
  }

  /** No run of this configuration loses a wakeup, whatever the callback computes from the buffer. */
  ghost predicate Safe(c: Config) {
    forall f: seq<int> -> Answer, mem: nat -> int, states: seq<State>, events: seq<Event> ::
      Run(c.(callback := f), states, events) && states[0] == Begin(c.(callback := f), mem) ==> !Lost(c.(callback := f), states[|events|])
  }

  /** The waiter either polls or is sure to be woken exactly if the buffer is in one monitor line; the
      source only tests that it is no longer than one. */
  lemma SafeIff(c: Config)
    requires c.recheck
    ensures Safe(c) <==> !c.Monitors() || c.InLine()
  {
    if !c.Monitors() || c.InLine() {
      forall f: seq<int> -> Answer, mem: nat -> int, states: seq<State>, events: seq<Event> |
        Run(c.(callback := f), states, events) && states[0] == Begin(c.(callback := f), mem)
        ensures !Lost(c.(callback := f), states[|events|])
      {
        if c.InLine() {
          WakeAlong(c.(callback := f), states, events, |events|);
        } else {
          PollsAlong(c.(callback := f), states, events, |events|);
        }
      }
    } else {
      var a := c.buf + c.len - 1;
      var states, events := StraddlingRun(c, a);
      assert states[0] == Begin(c.(callback := WhenSet(a - c.buf)), Zeros());
    }
  }

  /** Without a monitor the waiter never sleeps. */
  lemma {:induction false} PollsAlong(c: Config, states: seq<State>, events: seq<Event>, i: nat)
    requires !c.Monitors() && Run(c, states, events) && states[0].pc == Check && i < |states|
    ensures !(states[i].pc in {Arm, Recheck, Wait})
  {
    if i > 0 {
      PollsAlong(c, states, events, i - 1);
      assert Step(c, states[i - 1], events[i - 1], states[i]);
    }
  }

  /** The callback that waits for byte k to become 1. */
  function WhenSet(k: int): seq<int> -> Answer {
    (bytes: seq<int>) => if 0 <= k < |bytes| && bytes[k] == 1 then IsTrue else IsFalse
  }

  function Zeros(): nat -> int {
    (x: nat) => 0
  }

  lemma AskWhenSet(d: Config, k: nat, mem: nat -> int)
    requires d.callback == WhenSet(k) && k < d.len
    ensures Ask(d, mem) == if mem(d.buf + k) == 1 then IsTrue else IsFalse
  {
    var bytes := seq(d.len, i requires 0 <= i => mem(d.buf + i));
    assert bytes[k] == mem(d.buf + k);
  }

  /** Check, arm, check again, sleep; then the store to an address outside the line. */
  lemma StraddlingRun(c: Config, a: nat) returns (states: seq<State>, events: seq<Event>)
    requires c.recheck && c.Monitors() && c.buf <= a < c.buf + c.len && !c.Watched(a)
    ensures var d := c.(callback := WhenSet(a - c.buf));
            Run(d, states, events) && Lost(d, states[|events|])
    ensures states[0] == Begin(c.(callback := WhenSet(a - c.buf)), Zeros())
  {
    var d := c.(callback := WhenSet(a - c.buf));
    ElapsedIsDifference(c.start, c.start);
    var s0 := Begin(d, Zeros());
    var s1 := s0.(passes := 1, pc := TimeoutTest);
    var s2 := Next(d, s1);
    var s3 := s2.(pc := Recheck);
    var s4 := s3.(pc := Wait);
    var s5 := s4.(mem := Write(s4.mem, a, 1));
    AskWhenSet(d, a - c.buf, s0.mem);
    AskWhenSet(d, a - c.buf, s5.mem);
    hide Ask, Elapsed;
    states := [s0, s1, s2, s3, s4, s5];
    events := [Waiter, Waiter, Waiter, Waiter, Store(a, 1)];
  }

  /** If the check after arming were left out, a store between the check and the arming would be lost. */
  lemma RecheckIsNeeded(c: Config) returns (states: seq<State>, events: seq<Event>)
    requires !c.recheck && c.Monitors() && c.len > 0
    ensures var d := c.(callback := WhenSet(0));
            Run(d, states, events) && states[0] == Begin(d, Zeros()) && Lost(d, states[|events|])
  {
    var d := c.(callback := WhenSet(0));
    ElapsedIsDifference(c.start, c.start);
    var s0 := Begin(d, Zeros());
    var s1 := s0.(passes := 1, pc := TimeoutTest);
    var s2 := s1.(mem := Write(s1.mem, c.buf, 1), triggered := s1.triggered || d.Watched(c.buf));
    var s3 := Next(d, s2);
    var s4 := s3.(triggered := false, pc := Wait);
    AskWhenSet(d, 0, s0.mem);
    AskWhenSet(d, 0, s4.mem);
    hide Ask, Elapsed;
    states := [s0, s1, s2, s3, s4];
    events := [Waiter, Store(c.buf, 1), Waiter, Waiter];
  }

  /** The loop returns true exactly when its last callback did, raises when that raised, and says false only
      if that said false and the time is up; until it leaves, all callbacks have said false. */
  ghost predicate ResultInv(c: Config, s: State) {
    && (s.last == IsTrue <==> s.pc == Done(IsTrue))
    && (s.last == Raises ==> s.pc == Done(Raises))
    && (s.pc == Done(IsFalse) ==> c.Overdue(s.now))
  }

  /** A step keeps that; what it remembers of a callback is what the callback says then, it leaves by
      raising only if that raised or the clock failed, and after leaving it does nothing. */
  lemma ResultStep(c: Config, s: State, e: Event, t: State)
    requires Step(c, s, e, t) && ResultInv(c, s)
    ensures ResultInv(c, t)
    ensures t.last == s.last || t.last == Ask(c, s.mem)
    ensures t.pc == Done(Raises) ==> s.pc == Done(Raises) || t.last == Raises || e == ClockFails
    ensures s.pc.Done? ==> t.pc == s.pc && t.last == s.last && (e.Store? || e.Tick?)
  {
    ElapsedIsDifference(c.start, s.now);
    ElapsedIsDifference(c.start, t.now);
  }

  lemma {:induction false} ResultAlong(c: Config, mem: nat -> int, states: seq<State>, events: seq<Event>, i: nat)
    requires Run(c, states, events) && states[0] == Begin(c, mem) && i < |states|
    ensures ResultInv(c, states[i])
    ensures states[i].pc == Done(Raises) ==> states[i].last == Raises || ClockFails in events[..i]
  {
    if i > 0 {
      ResultAlong(c, mem, states, events, i - 1);
      ResultStep(c, states[i - 1], events[i - 1], states[i]);
      assert events[..i] == events[..i - 1] + [events[i - 1]];
    }
  }

  /** How many more steps the waiter takes once its condition holds. */
  function Needs(c: Config, pc: Pc): nat {
    match pc
    case Done(_) => 0
    case Check | Recheck => 1
    case Wait | Pause => 2
    case Arm => if c.recheck then 2 else 3
    case TimeoutTest => if c.Monitors() && !c.recheck then 4 else 3
  }

  lemma NoticeStep(c: Config, s: State, e: Event, t: State)
    requires Step(c, s, e, t) && ResultInv(c, s) && Ask(c, s.mem) == IsTrue
    ensures Needs(c, t.pc) + (if e.Waiter? || e.ClockFails? then 1 else 0) <= Needs(c, s.pc)
    ensures s.pc != t.pc && t.pc.Done? ==> t.pc == Done(IsTrue) || LooksAtClock(c, s)
    ensures t.pc == TimeoutTest ==> s.pc == TimeoutTest && t.iteration == s.iteration
  {
  }

  /** Once the condition holds and goes on holding, the waiter returns true after at most three of its steps
      (four without the check after arming), unless it was just about to look at the clock. */
  lemma {:induction false} NoticesAlong(c: Config, states: seq<State>, events: seq<Event>, i: nat)
    requires Run(c, states, events) && ResultInv(c, states[0]) && !states[0].pc.Done? && i < |states|
    requires forall j :: 0 <= j < |states| ==> Ask(c, states[j].mem) == IsTrue
    ensures WaiterSteps(events, i) + Needs(c, states[i].pc) <= Needs(c, states[0].pc) <= if c.recheck then 3 else 4
    ensures states[i].pc == Done(IsTrue) || LooksAtClock(c, states[0]) || !states[i].pc.Done?
    ensures states[i].pc == TimeoutTest ==> states[0].pc == TimeoutTest && states[i].iteration == states[0].iteration
    ensures ResultInv(c, states[i])
  {
    if i > 0 {
      NoticesAlong(c, states, events, i - 1);
      ResultStep(c, states[i - 1], events[i - 1], states[i]);
      NoticeStep(c, states[i - 1], events[i - 1], states[i]);
      hide Step, Ask, ResultInv;
    }
  }

  lemma TrueIsReturned(c: Config, states: seq<State>, events: seq<Event>, i: nat)
    requires Run(c, states, events) && ResultInv(c, states[0]) && !states[0].pc.Done? && i < |states|
    requires forall j :: 0 <= j < |states| ==> Ask(c, states[j].mem) == IsTrue
    requires WaiterSteps(events, i) >= if c.recheck then 3 else 4
    ensures states[i].pc == Done(IsTrue) || (LooksAtClock(c, states[0]) && states[i].pc.Done?)
    ensures !c.HaveTimeout() ==> states[i].pc == Done(IsTrue)
  {
    NoticesAlong(c, states, events, i);
    hide Run, Ask, WaiterSteps;
  }

  /** Passes that skip the clock before the next look at it. */
  function Skips(iteration: nat): nat {
    (16 - iteration % 16) % 16
  }

  /** The counter wraps around at a multiple of 16, so the rhythm is kept. */
  lemma SkipsNext(iteration: nat)
    ensures Skips(iteration) <= 15 && (Skips(iteration) == 0 <==> iteration % 16 == 0)
    ensures iteration % 16 != 0 ==> Skips((iteration + 1) % U32) + 1 == Skips(iteration)
  {
    var x := iteration + 1;
    var wrapped := x % U32;
    DivUnique(x, 16, 0x1000_0000 * (x / U32) + wrapped / 16, wrapped % 16);
  }

  /** Passes that are left once the time is up. */
  function Budget(s: State): nat {
    match s.pc
    case Done(_) => 0
    case TimeoutTest => Skips(s.iteration)
    case _ => Skips(s.iteration) + 1
  }

  function Rank(s: State): nat {
    6 * Budget(s) + match s.pc
    case Check => 0
    case TimeoutTest => 5
    case Arm => 3
    case Recheck => 2
    case Wait => 1
    case Pause => 1
    case Done(_) => 0
  }

  lemma OverdueStep(c: Config, s: State, e: Event, t: State)
    requires c.Overdue(s.now) && Step(c, s, e, t)
    ensures c.Overdue(t.now)
    ensures t.passes + Budget(t) <= s.passes + Budget(s)
    ensures Rank(t) <= Rank(s) && (e.Waiter? || e.ClockFails? ==> Rank(t) < Rank(s))
  {
    ElapsedIsDifference(c.start, s.now);
    ElapsedIsDifference(c.start, t.now);
    SkipsNext(s.iteration);
    hide Elapsed, Ask, Skips;
  }

  /** Once the time is up the loop checks at most 16 more times, whatever the iteration counter was, and
      takes a bounded number of steps. */
  lemma {:induction false} LeavesInTime(c: Config, states: seq<State>, events: seq<Event>, i: nat)
    requires Run(c, states, events) && c.Overdue(states[0].now) && i < |states|
    ensures c.Overdue(states[i].now)
    ensures states[i].passes + Budget(states[i]) <= states[0].passes + Budget(states[0]) <= states[0].passes + 16
    ensures WaiterSteps(events, i) + Rank(states[i]) <= Rank(states[0]) <= 99
  {
    SkipsNext(states[0].iteration);
    if i > 0 {
      LeavesInTime(c, states, events, i - 1);
      OverdueStep(c, states[i - 1], events[i - 1], states[i]);
    }
  }

  /** The waiter can always go on until it has left. */
  lemma NeverStuck(c: Config, s: State)
    ensures (exists t :: WaiterStep(c, s, t)) <==> !s.pc.Done?
  {
    if !s.pc.Done? {
      var answer := Ask(c, s.mem);
      var t := match s.pc
        case Check => s.(last := answer, passes := s.passes + 1, pc := if answer == IsFalse then TimeoutTest else Done(answer))
        case TimeoutTest => if LooksAtClock(c, s) && c.Overdue(s.now) then s.(pc := Done(IsFalse)) else Next(c, s)
        case Arm => s.(triggered := false, pc := if c.recheck then Recheck else Wait)
        case Recheck => s.(last := answer, pc := if answer == IsFalse then Wait else Done(answer))
        case _ => s.(pc := Check);
      assert WaiterStep(c, s, t);
    }
  }
}
