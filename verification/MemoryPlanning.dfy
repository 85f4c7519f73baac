/** Buffer planning over the wrapper's line list (vllm/env_override.py, memory_plan_reuse_patched).

    The list is flat; EnterSubgraph and ExitSubgraph lines bracket the lines of a nested subgraph, and
    each subgraph is planned in a state of its own, kept on a stack.  A planning state is modelled by
    the lines already planned in it, which is all that any deterministic planner can depend on. */
module MemoryPlanning {

  datatype Line = Planning(node: string, code: string) | EnterSubgraph | ExitSubgraph | Other(code: string)

  type State = seq<Line>
  type Planner = (State, Line) -> Line

  datatype Outcome = Finished | IndexError(at: nat) | AssertionError

  // ----- Trimming

  predicate Pointless(line: Line, outNames: seq<string>) {
    line.Planning? && line.node !in outNames
  }

  function Trimmed(lines: seq<Line>, outNames: seq<string>): (r: seq<Line>)
    ensures r <= lines
    ensures forall i :: |r| <= i < |lines| ==> Pointless(lines[i], outNames)
    ensures r == [] || !Pointless(r[|r| - 1], outNames)
  {
    if lines != [] && Pointless(lines[|lines| - 1], outNames) then Trimmed(lines[..|lines| - 1], outNames) else lines
  }

  // ----- The stack, as a function of the lines read so far

  /** Subgraphs entered and not left. */
  function Nesting(lines: seq<Line>): int {
    if lines == [] then 0
    else
      var before := Nesting(lines[..|lines| - 1]);
      match lines[|lines| - 1]
      case EnterSubgraph => before + 1
      case ExitSubgraph => before - 1
      case _ => before
  }

  /** Reading backwards from the end of `lines`: the planning lines that belong to the m-th subgraph
      around that point, counted outwards from the innermost one. */
  function Enclosing(lines: seq<Line>, m: nat): State
    decreases |lines|
  {
    if lines == [] then []
    else
      var last, before := lines[|lines| - 1], lines[..|lines| - 1];
      match last
      case Planning(_, _) => if m == 0 then Enclosing(before, 0) + [last] else Enclosing(before, m)
      case EnterSubgraph => if m == 0 then [] else Enclosing(before, m - 1)
      case ExitSubgraph => Enclosing(before, m + 1)
      case Other(_) => Enclosing(before, m)
  }

  function PlannedLine(planner: Planner, lines: seq<Line>, i: nat): Line
    requires i < |lines|
  {
    if lines[i].Planning? then planner(Enclosing(lines[..i], 0), lines[i]) else lines[i]
  }

  /** The list with each of its first k planning lines planned in its innermost subgraph's state. */
  function PlannedUpTo(planner: Planner, lines: seq<Line>, k: nat): (r: seq<Line>)
    requires k <= |lines|
    ensures |r| == |lines|
  {
    seq(|lines|, i requires 0 <= i < |lines| => if i < k then PlannedLine(planner, lines, i) else lines[i])
  }

  function PlanOf(planner: Planner, lines: seq<Line>): (r: seq<Line>)
    ensures |r| == |lines|
  {
    PlannedUpTo(planner, lines, |lines|)
  }

  // ----- The pass

  /** Some state is on the stack whenever line i needs one. */
  predicate Fits(lines: seq<Line>, i: nat)
    requires i < |lines|
  {
    lines[i].Planning? || lines[i].ExitSubgraph? ==> Nesting(lines[..i]) >= 0
  }

  /** When the pass gets through: what a caller can check before calling it. */
  predicate Plannable(lines: seq<Line>) {
    (forall i :: 0 <= i < |lines| ==> Fits(lines, i)) && Nesting(lines) == 0
  }

  /** The stack after reading `lines` with `depth` states on it, outermost subgraph first. */
  function StackAfter(lines: seq<Line>, depth: nat): (r: seq<State>)
    ensures |r| == depth
  {
    seq(depth, j requires 0 <= j < depth => Enclosing(lines, depth - 1 - j))
  }

  lemma StackStep(lines: seq<Line>, i: nat, depth: nat)
    requires i < |lines|
    ensures Nesting(lines[..i + 1]) == Nesting(lines[..i]) +
              (if lines[i].EnterSubgraph? then 1 else if lines[i].ExitSubgraph? then -1 else 0)
    ensures lines[i].Planning? && depth > 0 ==>
      StackAfter(lines[..i + 1], depth) ==
      StackAfter(lines[..i], depth)[depth - 1 := Enclosing(lines[..i], 0) + [lines[i]]]
    ensures lines[i].EnterSubgraph? ==> StackAfter(lines[..i + 1], depth + 1) == StackAfter(lines[..i], depth) + [[]]
    ensures lines[i].ExitSubgraph? && depth > 0 ==>
      StackAfter(lines[..i + 1], depth - 1) == StackAfter(lines[..i], depth)[..depth - 1]
    ensures lines[i].Other? ==> StackAfter(lines[..i + 1], depth) == StackAfter(lines[..i], depth)
  {
    assert lines[..i + 1][..i] == lines[..i];
    var next := depth + (if lines[i].EnterSubgraph? then 1 else if lines[i].ExitSubgraph? && depth > 0 then -1 else 0);
    var after := StackAfter(lines[..i + 1], next);
    forall j | 0 <= j < next
      ensures after[j] == EnclosingNext(lines, i, next - 1 - j)
    {
      EnclosingStep(lines, i, next - 1 - j);
    }
  }

  function EnclosingNext(lines: seq<Line>, i: nat, m: nat): State
    requires i < |lines|
  {
    match lines[i]
    case Planning(_, _) => if m == 0 then Enclosing(lines[..i], 0) + [lines[i]] else Enclosing(lines[..i], m)
    case EnterSubgraph => if m == 0 then [] else Enclosing(lines[..i], m - 1)
    case ExitSubgraph => Enclosing(lines[..i], m + 1)
    case Other(_) => Enclosing(lines[..i], m)
  }

  lemma EnclosingStep(lines: seq<Line>, i: nat, m: nat)
    requires i < |lines|
    ensures Enclosing(lines[..i + 1], m) == EnclosingNext(lines, i, m)
  {
    assert lines[..i + 1][..i] == lines[..i];
  }

  lemma PlannedStep(planner: Planner, lines: seq<Line>, i: nat)
    requires i < |lines|
    ensures PlannedUpTo(planner, lines, i)[i] == lines[i]
    ensures PlannedUpTo(planner, lines, i + 1) ==
            if lines[i].Planning? then PlannedUpTo(planner, lines, i)[i := planner(Enclosing(lines[..i], 0), lines[i])]
            else PlannedUpTo(planner, lines, i)
  {
  }

  class Wrapper {
    var lines: seq<Line>

    constructor (lines: seq<Line>)
      ensures this.lines == lines
    {
      this.lines := lines;
    }

    method MemoryPlanReuse(outNames: seq<string>, planner: Planner) returns (outcome: Outcome)
      modifies this
      ensures outcome.Finished? <==> Plannable(Trimmed(old(lines), outNames))
      ensures outcome.Finished? ==> lines == PlanOf(planner, Trimmed(old(lines), outNames))
      ensures outcome.AssertionError? ==>
        lines == PlanOf(planner, Trimmed(old(lines), outNames)) && Nesting(Trimmed(old(lines), outNames)) > 0
      ensures outcome.IndexError? ==>
        var trimmed := Trimmed(old(lines), outNames);
        && outcome.at <= |trimmed|
        && (forall i :: 0 <= i < outcome.at ==> Fits(trimmed, i))
        && (if outcome.at < |trimmed| then !Fits(trimmed, outcome.at) else Nesting(trimmed) < 0)
        && lines == PlannedUpTo(planner, trimmed, outcome.at)
    {
      TrimLines(outNames);
      outcome := PlanLines(planner);
    }

    method TrimLines(outNames: seq<string>)
      modifies this
      ensures lines == Trimmed(old(lines), outNames)
      ensures lines <= old(lines) && forall i :: |lines| <= i < |old(lines)| ==> old(lines)[i].Planning? && old(lines)[i].node !in outNames
      ensures lines != [] && lines[|lines| - 1].Planning? ==> lines[|lines| - 1].node in outNames
    {
      while lines != [] && lines[|lines| - 1].Planning? && lines[|lines| - 1].node !in outNames
        invariant Trimmed(lines, outNames) == Trimmed(old(lines), outNames)
        decreases |lines|
      {
        lines := lines[..|lines| - 1];
      }
    }

    method PlanLines(planner: Planner) returns (outcome: Outcome)
      modifies this
      ensures outcome.Finished? ==> Plannable(old(lines)) && lines == PlanOf(planner, old(lines))
      ensures outcome.AssertionError? ==> lines == PlanOf(planner, old(lines)) && Nesting(old(lines)) > 0
      ensures outcome.IndexError? ==>
        && outcome.at <= |old(lines)|
        && (forall i :: 0 <= i < outcome.at ==> Fits(old(lines), i))
        && (if outcome.at < |old(lines)| then !Fits(old(lines), outcome.at) else Nesting(old(lines)) < 0)
        && lines == PlannedUpTo(planner, old(lines), outcome.at)
    {
      ghost var given := lines;
      var states: seq<State> := [[]];
      assert given[..0] == [] && lines == PlannedUpTo(planner, given, 0);
      for i := 0 to |lines|
        invariant |lines| == |given|
        invariant lines == PlannedUpTo(planner, given, i)
        invariant forall j :: 0 <= j < i ==> Fits(given, j)
        invariant Nesting(given[..i]) + 1 == |states|
        invariant states == StackAfter(given[..i], |states|)
      {
        var line := lines[i];
        PlannedStep(planner, given, i);
        StackStep(given, i, |states|);
        match line
        case Planning(_, _) =>
          if states == [] {
            return IndexError(i);
          }
          var top := states[|states| - 1];
          lines := lines[i := planner(top, line)];
          states := states[|states| - 1 := top + [line]];
        case EnterSubgraph =>
          states := states + [[]];
        case ExitSubgraph =>
          if states == [] {
            return IndexError(i);
          }
          states := states[..|states| - 1];
        case Other(_) =>
      }
      assert given[..|given|] == given;
      if states == [] {
        return IndexError(|lines|);
      }
      states := states[..|states| - 1];
      if |states| != 0 {
        return AssertionError;
      }
      outcome := Finished;
    }
  }

  // ----- What the plan means

  /** Every prefix leaves at most the subgraphs it entered, and the whole leaves all of them. */
  ghost predicate WellBracketed(lines: seq<Line>) {
    (forall i :: 0 <= i <= |lines| ==> Nesting(lines[..i]) >= 0) && Nesting(lines) == 0
  }

  ghost predicate NeverLeaves(lines: seq<Line>) {
    forall i :: 0 <= i <= |lines| ==> Nesting(lines[..i]) >= 0
  }

  lemma NeverLeavesPrefix(lines: seq<Line>, k: nat)
    requires NeverLeaves(lines) && k <= |lines|
    ensures NeverLeaves(lines[..k]) && Nesting(lines[..k]) >= 0
  {
    forall i | 0 <= i <= k
      ensures Nesting(lines[..k][..i]) >= 0
    {
      assert lines[..k][..i] == lines[..i];
    }
  }

  /** The states seen after `before + lines`, when `lines` never leaves the subgraph it starts in. */
  lemma {:induction false} EnclosingConcat(before: seq<Line>, lines: seq<Line>, m: nat)
    requires NeverLeaves(lines) && Nesting(lines) >= 0
    ensures Enclosing(before + lines, m) ==
            if m < Nesting(lines) then Enclosing(lines, m)
            else if m == Nesting(lines) then Enclosing(before, 0) + Enclosing(lines, m)
            else Enclosing(before, m - Nesting(lines))
    decreases |lines|
  {
    if lines == [] {
      assert before + lines == before;
    } else {
      var init := lines[..|lines| - 1];
      NeverLeavesPrefix(lines, |lines| - 1);
      assert (before + lines)[..|before + lines| - 1] == before + init;
      match lines[|lines| - 1]
      case Planning(_, _) =>
        EnclosingConcat(before, init, m);
      case EnterSubgraph =>
        if m > 0 { EnclosingConcat(before, init, m - 1); }
      case ExitSubgraph =>
        EnclosingConcat(before, init, m + 1);
      case Other(_) =>
        EnclosingConcat(before, init, m);
    }
  }

  /** A subgraph is planned as if it stood alone, and what follows it as if it were not there. */
  lemma SubgraphsAreIsolated(planner: Planner, before: seq<Line>, body: seq<Line>, following: seq<Line>)
    requires WellBracketed(body) && NeverLeaves(following)
    ensures PlanOf(planner, before + [EnterSubgraph] + body + [ExitSubgraph] + following) ==
            PlanOf(planner, before) + [EnterSubgraph] + PlanOf(planner, body) + [ExitSubgraph] +
            PlanOf(planner, before + following)[|before|..]
  {
    var entered := before + [EnterSubgraph];
    var left := entered + body + [ExitSubgraph];
    var all := left + following;
    var planned := PlanOf(planner, before) + [EnterSubgraph] + PlanOf(planner, body) + [ExitSubgraph] +
                   PlanOf(planner, before + following)[|before|..];
    forall i | 0 <= i < |all|
      ensures PlannedLine(planner, all, i) == planned[i]
    {
      if i < |before| {
        assert all[..i] == before[..i];
      } else if |before| < i <= |before| + |body| {
        BodyLine(before, body, i - |before| - 1);
        assert all[..i] == entered + body[..i - |before| - 1];
      } else if i > |before| + |body| + 1 {
        var k := i - |left|;
        FollowingLine(before, body, following, k);
        assert all[..i] == left + following[..k];
        assert (before + following)[..|before| + k] == before + following[..k];
        assert planned[i] == PlanOf(planner, before + following)[|before|..][k];
      }
    }
  }

  lemma BodyLine(before: seq<Line>, body: seq<Line>, k: nat)
    requires NeverLeaves(body) && k <= |body|
    ensures Enclosing(before + [EnterSubgraph] + body[..k], 0) == Enclosing(body[..k], 0)
  {
    NeverLeavesPrefix(body, k);
    EnclosingConcat(before + [EnterSubgraph], body[..k], 0);
  }

  lemma FollowingLine(before: seq<Line>, body: seq<Line>, following: seq<Line>, k: nat)
    requires WellBracketed(body) && NeverLeaves(following) && k <= |following|
    ensures Enclosing(before + [EnterSubgraph] + body + [ExitSubgraph] + following[..k], 0) ==
            Enclosing(before + following[..k], 0)
  {
    var left := before + [EnterSubgraph] + body + [ExitSubgraph];
    NeverLeavesPrefix(following, k);
    EnclosingConcat(left, following[..k], 0);
    EnclosingConcat(before, following[..k], 0);
    assert left[..|left| - 1] == before + [EnterSubgraph] + body;
    assert body[..|body|] == body;
    EnclosingConcat(before + [EnterSubgraph], body, 1);
    assert (before + [EnterSubgraph])[..|before|] == before;
  }

  /** Trimming takes planning lines only, so it neither makes nor breaks a well-bracketed list. */
  lemma {:induction false} TrimmingKeepsBrackets(lines: seq<Line>, outNames: seq<string>)
    ensures WellBracketed(Trimmed(lines, outNames)) <==> WellBracketed(lines)
    ensures Plannable(Trimmed(lines, outNames)) ==> Nesting(lines) == 0
    decreases |lines|
  {
    if lines != [] && Pointless(lines[|lines| - 1], outNames) {
      var init := lines[..|lines| - 1];
      TrimmingKeepsBrackets(init, outNames);
      forall i | 0 <= i <= |init|
        ensures init[..i] == lines[..i]
      {
      }
      assert lines[..|lines|] == lines;
      assert Nesting(lines) == Nesting(init);
      if WellBracketed(init) {
        forall i | 0 <= i <= |lines|
          ensures Nesting(lines[..i]) >= 0
        {
          if i < |lines| {
            assert init[..i] == lines[..i];
          }
        }
      }
    }
  }

  /** Every well-bracketed list gets through: no state is missing and the final assertion holds. */
  lemma WellBracketedIsPlannable(lines: seq<Line>, outNames: seq<string>)
    requires WellBracketed(lines)
    ensures Plannable(Trimmed(lines, outNames))
  {
    TrimmingKeepsBrackets(lines, outNames);
    var trimmed := Trimmed(lines, outNames);
    forall i | 0 <= i < |trimmed|
      ensures Fits(trimmed, i)
    {
      assert Nesting(trimmed[..i]) >= 0;
    }
  }

  /** The converse fails: leaving the outermost level and entering again passes the final assertion. */
  lemma UnbalancedListPasses()
    ensures Plannable([ExitSubgraph, EnterSubgraph]) && !WellBracketed([ExitSubgraph, EnterSubgraph])
  {
    var lines := [ExitSubgraph, EnterSubgraph];
    assert lines[..0] == [] && lines[..1] == [ExitSubgraph] && lines[..2] == lines;
    assert Nesting([]) == 0;
    assert [ExitSubgraph][..0] == [];
    assert Nesting([ExitSubgraph]) == -1;
  }
}
