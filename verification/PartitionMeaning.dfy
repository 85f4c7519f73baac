/** What a partitioned graph means: the generated wrapper takes each partition's inputs, drops the ones
    it deallocates, calls the partition on them and binds what it returns
    (vllm/env_override.py:235-336).  The theorems say that this computes what the unpartitioned node
    list computes, whatever the nodes are. */
module PartitionMeaning {
  import opened PartitionSignatures

  type Tensor = seq<real>
  type Store = map<Name, Tensor>

  /** What the node of a given name computes from the buffers it uses. */
  type Kernels = (Name, Store) -> Store

  datatype Run = Ran(store: Store) | NameError

  // ----- Meaning of one node and of a node list

  function RawUses(g: Graph, node: Node): set<Name>
    requires Resolved(g)
  {
    Allocated(g, node.readNames + node.writeNames) - node.outputs
  }

  function Uses(g: Graph, node: Node): set<Name>
    requires Resolved(g)
  {
    RealNames(g, RawUses(g, node))
  }

  /** The buffers a node gives a value to: its own, and through a mutation output the mutated one. */
  function Made(g: Graph, node: Node): set<Name>
    requires Resolved(g)
  {
    RealNames(g, Allocated(g, node.outputs))
  }

  function Restrict(s: Store, names: set<Name>): Store {
    map n | n in s && n in names :: s[n]
  }

  function Compute(g: Graph, kernels: Kernels, node: Node, s: Store): Store
    requires Resolved(g)
  {
    var made := kernels(node.name, Restrict(s, Uses(g, node)));
    map n | n in Made(g, node) :: if n in made then made[n] else []
  }

  function RunNodes(g: Graph, kernels: Kernels, nodes: seq<Node>, s: Store): Run
    requires Resolved(g)
  {
    if nodes == [] then Ran(s)
    else if Uses(g, nodes[0]) <= s.Keys then
      RunNodes(g, kernels, nodes[1..], s + Compute(g, kernels, nodes[0], s))
    else NameError
  }

  /** A partition's own code: as RunNodes, but each buffer is deleted after its last usage. */
  function RunPartition(g: Graph, kernels: Kernels, p: Partition, s: Store): Run
    requires Resolved(g)
  {
    if p == [] then Ran(s)
    else if Uses(g, p[0]) <= s.Keys then
      RunPartition(g, kernels, p[1..], (s + Compute(g, kernels, p[0], s)) - p[0].lastUsage)
    else NameError
  }

  /** The call of one partition in the generated wrapper.  It is passed the constants its signature lists. */
  function CallPartition(g: Graph, kernels: Kernels, p: Partition, signature: Signature, constants: Store, env: Store): Run
    requires Resolved(g)
  {
    if !(signature.inputs <= env.Keys) then NameError
    else
      var kept := env - (set n | n in signature.deallocation && signature.deallocation[n]);
      match RunPartition(g, kernels, p, Restrict(env, signature.inputs) + Restrict(constants, signature.constantNames))
      case NameError => NameError
      case Ran(local) =>
        if signature.outputs <= local.Keys then Ran(kept + Restrict(local, signature.outputs)) else NameError
  }

  function RunWrapper(g: Graph, kernels: Kernels, ps: seq<Partition>, signatures: seq<Signature>, constants: Store, env: Store): Run
    requires Resolved(g) && |ps| == |signatures|
  {
    if ps == [] then Ran(env)
    else
      match CallPartition(g, kernels, ps[0], signatures[0], constants, env)
      case NameError => NameError
      case Ran(next) => RunWrapper(g, kernels, ps[1..], signatures[1..], constants, next)
  }

  function Flatten(ps: seq<Partition>): seq<Node> {
    if ps == [] then [] else ps[0] + Flatten(ps[1..])
  }

  // ----- What the scheduler guarantees

  /** The names among `names` that stand for an allocated buffer of their own. */
  function Stored(g: Graph, names: set<Name>): set<Name>
    requires Resolved(g)
  {
    set n | n in names && n !in g.mutationRealName && !IsNoneLayout(g, n)
  }

  function Needed(g: Graph, nodes: seq<Node>): set<Name>
    requires Resolved(g)
  {
    if nodes == [] then {} else Uses(g, nodes[0]) + nodes[0].lastUsage + Needed(g, nodes[1..])
  }

  /** A mutation output is laid out as the buffer it mutates, and its node uses that buffer. */
  ghost predicate MutatesWhatItUses(g: Graph, node: Node)
    requires Resolved(g)
  {
    forall y :: y in node.outputs && y in g.mutationRealName ==>
      && IsNoneLayout(g, y) == IsNoneLayout(g, Real(g, y))
      && (!IsNoneLayout(g, y) ==> Real(g, y) in Uses(g, node) && Real(g, y) in g.nameToNode)
  }

  /** With `have` the names made so far: nodes come in dependency order, each name has one producer,
      and a node's last usage is the last one, in the list and in what comes `after` it. */
  ghost predicate Scheduled(g: Graph, nodes: seq<Node>, have: set<Name>, after: set<Name>)
    requires Resolved(g)
  {
    nodes == [] ||
    (&& nodes[0].outputs !! have
     && RawUses(g, nodes[0]) <= have
     && MutatesWhatItUses(g, nodes[0])
     && nodes[0].lastUsage <= Stored(g, have + nodes[0].outputs)
     && nodes[0].lastUsage !! (Needed(g, nodes[1..]) + after)
     && Scheduled(g, nodes[1..], have + nodes[0].outputs, after))
  }

  /** The node without the NoneLayout names among its last usages. */
  function Struck(g: Graph, node: Node): Node
    requires Resolved(g)
  {
    node.(lastUsage := Allocated(g, node.lastUsage))
  }

  function StruckNodes(g: Graph, p: Partition): (r: Partition)
    requires Resolved(g)
    ensures |r| == |p|
  {
    if p == [] then [] else [Struck(g, p[0])] + StruckNodes(g, p[1..])
  }

  function StruckAll(g: Graph, ps: seq<Partition>): (r: seq<Partition>)
    requires Resolved(g)
    ensures |r| == |ps|
  {
    if ps == [] then [] else [StruckNodes(g, ps[0])] + StruckAll(g, ps[1..])
  }

  /** A graph as the scheduler hands it over.  Of NoneLayout names in the last usages nothing is asked. */
  ghost predicate WellFormed(g: Graph, ps: seq<Partition>, graphInputs: set<Name>) {
    && Resolved(g)
    && graphInputs !! g.constants
    && (forall n :: n in graphInputs + g.constants ==> n !in g.mutationRealName && !IsNoneLayout(g, n))
    && g.nameToNode == graphInputs + Outputs(Flatten(ps))
    && Scheduled(g, Flatten(StruckAll(g, ps)), graphInputs + g.constants, RealNames(g, g.outputNames))
  }

  /** No partition names, among its last usages, a NoneLayout buffer that another one made. */
  ghost predicate FreesNoForeignNone(g: Graph, ps: seq<Partition>)
    requires Resolved(g)
  {
    forall i, n :: 0 <= i < |ps| && n in Freed(ps[i]) - Outputs(ps[i]) && n in g.nameToNode ==> !IsNoneLayout(g, n)
  }

  // ----- Lists of nodes

  lemma {:induction false} OutputsConcat(a: seq<Node>, b: seq<Node>)
    ensures Outputs(a + b) == Outputs(a) + Outputs(b)
  {
    if a == [] {
      assert a + b == b;
    } else {
      assert (a + b)[1..] == a[1..] + b;
      OutputsConcat(a[1..], b);
    }
  }

  lemma {:induction false} NeededConcat(g: Graph, a: seq<Node>, b: seq<Node>)
    requires Resolved(g)
    ensures Needed(g, a + b) == Needed(g, a) + Needed(g, b)
  {
    if a == [] {
      assert a + b == b;
    } else {
      assert (a + b)[1..] == a[1..] + b;
      NeededConcat(g, a[1..], b);
    }
  }

  lemma {:induction false} RunNodesConcat(g: Graph, kernels: Kernels, a: seq<Node>, b: seq<Node>, s: Store)
    requires Resolved(g)
    requires RunNodes(g, kernels, a, s).Ran?
    ensures RunNodes(g, kernels, a + b, s) == RunNodes(g, kernels, b, RunNodes(g, kernels, a, s).store)
  {
    if a == [] {
      assert a + b == b;
    } else {
      assert (a + b)[1..] == a[1..] + b;
      RunNodesConcat(g, kernels, a[1..], b, s + Compute(g, kernels, a[0], s));
    }
  }

  lemma {:induction false} ScheduledConcat(g: Graph, a: seq<Node>, b: seq<Node>, have: set<Name>, after: set<Name>)
    requires Resolved(g)
    requires Scheduled(g, a + b, have, after)
    ensures Scheduled(g, a, have, Needed(g, b) + after)
    ensures Scheduled(g, b, have + Outputs(a), after)
  {
    if a == [] {
      assert a + b == b && have + Outputs(a) == have;
    } else {
      assert (a + b)[1..] == a[1..] + b;
      ScheduledConcat(g, a[1..], b, have + a[0].outputs, after);
      NeededConcat(g, a[1..], b);
      assert have + Outputs(a) == have + a[0].outputs + Outputs(a[1..]);
    }
  }

  function MadeBy(g: Graph, nodes: seq<Node>): set<Name>
    requires Resolved(g)
  {
    if nodes == [] then {} else Made(g, nodes[0]) + MadeBy(g, nodes[1..])
  }

  function RawUsedBy(g: Graph, nodes: seq<Node>): set<Name>
    requires Resolved(g)
  {
    if nodes == [] then {} else RawUses(g, nodes[0]) + RawUsedBy(g, nodes[1..])
  }

  // ----- Consequences of the schedule

  /** The buffer behind every allocated mutation output made so far exists. */
  ghost predicate Closed(g: Graph, have: set<Name>)
    requires Resolved(g)
  {
    forall y :: y in have && y in g.mutationRealName && !IsNoneLayout(g, y) ==> Real(g, y) in Stored(g, have)
  }

  lemma UsesAreStored(g: Graph, names: set<Name>, have: set<Name>)
    requires Resolved(g) && Closed(g, have)
    requires names <= have && (forall n :: n in names ==> !IsNoneLayout(g, n))
    ensures RealNames(g, names) <= Stored(g, have)
  {
    forall b | b in RealNames(g, names)
      ensures b in Stored(g, have)
    {
      var x :| x in names && Real(g, x) == b;
      if x in g.mutationRealName {
        assert Real(g, x) in Stored(g, have);
      }
    }
  }

  lemma MadeAreStored(g: Graph, nodes: seq<Node>, have: set<Name>, after: set<Name>)
    requires Resolved(g) && Closed(g, have) && nodes != []
    requires Scheduled(g, nodes, have, after)
    ensures Uses(g, nodes[0]) <= Stored(g, have)
    ensures Stored(g, have + nodes[0].outputs) == Stored(g, have) + Made(g, nodes[0])
    ensures Closed(g, have + nodes[0].outputs)
  {
    var node := nodes[0];
    UsesAreStored(g, RawUses(g, node), have);
    forall b | b in Made(g, node)
      ensures b in Stored(g, have + node.outputs)
    {
      var y :| y in Allocated(g, node.outputs) && Real(g, y) == b;
      if y in g.mutationRealName {
        assert b in Uses(g, node);
      }
    }
    forall y | y in node.outputs && y !in g.mutationRealName && !IsNoneLayout(g, y)
      ensures y in Made(g, node)
    {
      assert y in Allocated(g, node.outputs) && Real(g, y) == y;
    }
  }

  lemma {:induction false} WholeRuns(g: Graph, kernels: Kernels, nodes: seq<Node>, have: set<Name>, after: set<Name>, s: Store)
    requires Resolved(g) && Closed(g, have) && Scheduled(g, nodes, have, after)
    requires s.Keys == Stored(g, have)
    ensures var r := RunNodes(g, kernels, nodes, s);
            r.Ran? && r.store.Keys == Stored(g, have + Outputs(nodes))
    ensures Closed(g, have + Outputs(nodes))
  {
    if nodes == [] {
      assert have + Outputs(nodes) == have;
    } else {
      MadeAreStored(g, nodes, have, after);
      var next := s + Compute(g, kernels, nodes[0], s);
      assert next.Keys == s.Keys + Made(g, nodes[0]);
      WholeRuns(g, kernels, nodes[1..], have + nodes[0].outputs, after, next);
      assert have + Outputs(nodes) == have + nodes[0].outputs + Outputs(nodes[1..]);
    }
  }

  lemma {:induction false} OutputsAreNew(g: Graph, nodes: seq<Node>, have: set<Name>, after: set<Name>)
    requires Resolved(g) && Scheduled(g, nodes, have, after)
    ensures Outputs(nodes) !! have
  {
    if nodes != [] {
      OutputsAreNew(g, nodes[1..], have + nodes[0].outputs, after);
    }
  }

  lemma {:induction false} FreedAreDead(g: Graph, nodes: seq<Node>, have: set<Name>, after: set<Name>)
    requires Resolved(g) && Scheduled(g, nodes, have, after)
    ensures Freed(nodes) !! after
    ensures Freed(nodes) <= Stored(g, have + Outputs(nodes))
  {
    if nodes != [] {
      FreedAreDead(g, nodes[1..], have + nodes[0].outputs, after);
    }
  }

  lemma {:induction false} NeededAreReal(g: Graph, nodes: seq<Node>, have: set<Name>, after: set<Name>)
    requires Resolved(g) && Scheduled(g, nodes, have, after)
    ensures forall n :: n in Needed(g, nodes) ==> n !in g.mutationRealName
    ensures Freed(nodes) <= Needed(g, nodes)
    ensures RealNames(g, RawUsedBy(g, nodes)) <= Needed(g, nodes)
  {
    if nodes != [] {
      NeededAreReal(g, nodes[1..], have + nodes[0].outputs, after);
    }
  }

  /** What a partition touches and did not make was made before it. */
  lemma {:induction false} RawUsesSplit(g: Graph, nodes: seq<Node>, have: set<Name>, after: set<Name>)
    requires Resolved(g) && Scheduled(g, nodes, have, after)
    ensures Allocated(g, ReadWrites(nodes)) - Outputs(nodes) <= RawUsedBy(g, nodes) * have
    ensures RawUsedBy(g, nodes) * have <= Allocated(g, ReadWrites(nodes)) - Outputs(nodes)
  {
    if nodes != [] {
      RawUsesSplit(g, nodes[1..], have + nodes[0].outputs, after);
      OutputsAreNew(g, nodes, have, after);
      var inner := Allocated(g, ReadWrites(nodes[1..])) - Outputs(nodes[1..]);
      forall x | x in Allocated(g, ReadWrites(nodes)) - Outputs(nodes)
        ensures x in RawUsedBy(g, nodes) * have
      {
        if x in ReadWrites(nodes[1..]) {
          assert x in inner;
        } else {
          assert x in RawUses(g, nodes[0]);
        }
      }
      forall x | x in RawUsedBy(g, nodes) * have
        ensures x in Allocated(g, ReadWrites(nodes)) - Outputs(nodes)
      {
        if x in RawUsedBy(g, nodes[1..]) {
          assert x in inner;
        }
      }
    }
  }

  /** A buffer that a partition changes without producing it is one of its inputs. */
  lemma {:induction false} MutatedIsUsed(g: Graph, nodes: seq<Node>, have: set<Name>, after: set<Name>, b: Name) returns (x: Name)
    requires Resolved(g) && Scheduled(g, nodes, have, after)
    requires b in MadeBy(g, nodes) && b !in Outputs(nodes)
    ensures x in RawUsedBy(g, nodes) * have && Real(g, x) == b
  {
    var node := nodes[0];
    if b !in Made(g, node) {
      x := MutatedIsUsed(g, nodes[1..], have + node.outputs, after, b);
      RawUsedAreAllocated(g, nodes[1..]);
    } else {
      var y :| y in Allocated(g, node.outputs) && Real(g, y) == b;
      assert b in Uses(g, node);
      x :| x in RawUses(g, node) && Real(g, x) == b;
    }
  }

  lemma {:induction false} RawUsedAreAllocated(g: Graph, nodes: seq<Node>)
    requires Resolved(g)
    ensures forall x :: x in RawUsedBy(g, nodes) ==> !IsNoneLayout(g, x)
  {
    if nodes != [] {
      RawUsedAreAllocated(g, nodes[1..]);
    }
  }

  lemma InputNamesAreStored(g: Graph, p: Partition, have: set<Name>, after: set<Name>)
    requires Resolved(g) && Closed(g, have) && Scheduled(g, p, have, after)
    ensures InputNames(g, p) <= Stored(g, have)
    ensures InputNames(g, p) <= Needed(g, p)
    ensures RealNames(g, RawUsedBy(g, p) * have) <= InputNames(g, p)
  {
    RawUsesSplit(g, p, have, after);
    NeededAreReal(g, p, have, after);
    FreedAreDead(g, p, have, after);
    var raw := Allocated(g, ReadWrites(p)) - Outputs(p);
    UsesAreStored(g, raw, have);
    assert raw == RawUsedBy(g, p) * have;
    assert RealNames(g, raw) <= RealNames(g, RawUsedBy(g, p));
  }

  // ----- One partition

  ghost predicate Agrees(part: Store, whole: Store) {
    part.Keys <= whole.Keys && forall n :: n in part ==> part[n] == whole[n]
  }

  lemma {:induction false} MadeOnly(g: Graph, kernels: Kernels, nodes: seq<Node>, s: Store)
    requires Resolved(g) && RunNodes(g, kernels, nodes, s).Ran?
    ensures var t := RunNodes(g, kernels, nodes, s).store;
            forall n :: n in s && n !in MadeBy(g, nodes) ==> n in t && t[n] == s[n]
  {
    if nodes != [] {
      MadeOnly(g, kernels, nodes[1..], s + Compute(g, kernels, nodes[0], s));
    }
  }

  /** A partition run on some of the buffers, freeing as it goes, computes what the same nodes compute
      on all of them, and ends with everything it had or made and did not free. */
  lemma {:induction false} PartitionAgrees(
    g: Graph, kernels: Kernels, p: Partition, have: set<Name>, after: set<Name>, whole: Store, local: Store)
    requires Resolved(g) && Closed(g, have) && Scheduled(g, p, have, after)
    requires whole.Keys == Stored(g, have) && Agrees(local, whole)
    requires RealNames(g, RawUsedBy(g, p) * have) <= local.Keys
    ensures RunNodes(g, kernels, p, whole).Ran? && RunPartition(g, kernels, p, local).Ran?
    ensures Agrees(RunPartition(g, kernels, p, local).store, RunNodes(g, kernels, p, whole).store)
    ensures (local.Keys + MadeBy(g, p)) - Freed(p) <= RunPartition(g, kernels, p, local).store.Keys
  {
    if p != [] {
      var node := p[0];
      MadeAreStored(g, p, have, after);
      assert Uses(g, node) <= local.Keys by {
        assert RawUses(g, node) <= RawUsedBy(g, p) * have;
      }
      assert Restrict(local, Uses(g, node)) == Restrict(whole, Uses(g, node));
      var whole' := whole + Compute(g, kernels, node, whole);
      var local' := (local + Compute(g, kernels, node, local)) - node.lastUsage;
      var have' := have + node.outputs;
      NextUsesPresent(g, p, have, after, local, local');
      PartitionAgrees(g, kernels, p[1..], have', after, whole', local');
    }
  }

  lemma NextUsesPresent(g: Graph, p: Partition, have: set<Name>, after: set<Name>, local: Store, local': Store)
    requires Resolved(g) && p != [] && Scheduled(g, p, have, after)
    requires RealNames(g, RawUsedBy(g, p) * have) <= local.Keys
    requires local'.Keys == (local.Keys + Made(g, p[0])) - p[0].lastUsage
    ensures RealNames(g, RawUsedBy(g, p[1..]) * (have + p[0].outputs)) <= local'.Keys
  {
    NeededAreReal(g, p[1..], have + p[0].outputs, after);
    RawUsedAreAllocated(g, p[1..]);
    forall b | b in RealNames(g, RawUsedBy(g, p[1..]) * (have + p[0].outputs))
      ensures b in local'.Keys
    {
      var x :| x in RawUsedBy(g, p[1..]) * (have + p[0].outputs) && Real(g, x) == b;
      assert b in Needed(g, p[1..]);
      if x in have {
        assert x in RawUsedBy(g, p) * have;
      } else {
        assert x in Allocated(g, p[0].outputs);
      }
    }
  }

  // ----- The wrapper

  function After(g: Graph, rest: seq<Partition>): set<Name>
    requires Resolved(g)
  {
    Needed(g, Flatten(rest)) + RealNames(g, g.outputNames)
  }

  ghost predicate Unchanging(g: Graph, have: set<Name>, constants: Store, whole: Store)
    requires Resolved(g)
  {
    && Closed(g, have)
    && whole.Keys == Stored(g, have)
    && constants.Keys == g.constants && Agrees(constants, whole)
    && g.constants !! g.nameToNode
    && have <= g.nameToNode + g.constants
  }

  /** Everything still wanted that exists is bound in the wrapper. */
  ghost predicate Supplied(g: Graph, unmet: set<Name>, have: set<Name>, env: Store)
    requires Resolved(g)
  {
    forall u :: u in unmet && u in have && !IsNoneLayout(g, u) && Real(g, u) in g.nameToNode ==> Real(g, u) in env
  }

  /** The state of the wrapper between two partitions, against the state of the unpartitioned run. */
  ghost predicate Between(g: Graph, ps: seq<Partition>, have: set<Name>, constants: Store, whole: Store, env: Store)
    requires Resolved(g)
  {
    && Unchanging(g, have, constants, whole)
    && Agrees(env, whole) && env.Keys <= g.nameToNode
    && Outputs(Flatten(ps)) <= g.nameToNode
    && Scheduled(g, Flatten(ps), have, RealNames(g, g.outputNames))
    && Supplied(g, Unmet(g, ps), have, env)
  }

  lemma {:induction false} UnmetAreNeeded(g: Graph, ps: seq<Partition>, have: set<Name>)
    requires Resolved(g) && Closed(g, have)
    requires Scheduled(g, Flatten(ps), have, RealNames(g, g.outputNames))
    ensures Unmet(g, ps) <= g.outputNames + Needed(g, Flatten(ps))
    ensures RealNames(g, Unmet(g, ps)) <= After(g, ps)
  {
    if ps != [] {
      ScheduledConcat(g, ps[0], Flatten(ps[1..]), have, RealNames(g, g.outputNames));
      InputNamesAreStored(g, ps[0], have, After(g, ps[1..]));
      ClosedAfter(g, ps[0], have, After(g, ps[1..]));
      UnmetAreNeeded(g, ps[1..], have + Outputs(ps[0]));
      NeededConcat(g, ps[0], Flatten(ps[1..]));
    }
    NeededAreReal(g, Flatten(ps), have, RealNames(g, g.outputNames));
    RealNamesOfNeeded(g, Unmet(g, ps), Needed(g, Flatten(ps)));
  }

  lemma RealNamesOfNeeded(g: Graph, unmet: set<Name>, needed: set<Name>)
    requires unmet <= g.outputNames + needed
    requires forall n :: n in needed ==> n !in g.mutationRealName
    ensures RealNames(g, unmet) <= needed + RealNames(g, g.outputNames)
  {
  }

  lemma {:induction false} ClosedAfter(g: Graph, nodes: seq<Node>, have: set<Name>, after: set<Name>)
    requires Resolved(g) && Closed(g, have) && Scheduled(g, nodes, have, after)
    ensures Closed(g, have + Outputs(nodes))
  {
    if nodes == [] {
      assert have + Outputs(nodes) == have;
    } else {
      MadeAreStored(g, nodes, have, after);
      ClosedAfter(g, nodes[1..], have + nodes[0].outputs, after);
      assert have + Outputs(nodes) == have + nodes[0].outputs + Outputs(nodes[1..]);
    }
  }

  /** An allocated output of a partition gives a value to the buffer it stands for, and that buffer is known. */
  lemma {:induction false} OutputIsMade(g: Graph, p: Partition, have: set<Name>, after: set<Name>, y: Name)
    requires Resolved(g) && Scheduled(g, p, have, after)
    requires y in Outputs(p)
    ensures !IsNoneLayout(g, Real(g, y)) ==> !IsNoneLayout(g, y) && Real(g, y) in MadeBy(g, p)
    ensures !IsNoneLayout(g, Real(g, y)) && y in g.mutationRealName ==> Real(g, y) in g.nameToNode
    ensures !IsNoneLayout(g, y) ==> !IsNoneLayout(g, Real(g, y))
  {
    if y in p[0].outputs {
      if !IsNoneLayout(g, Real(g, y)) {
        assert y in Allocated(g, p[0].outputs);
      }
    } else {
      OutputIsMade(g, p[1..], have + p[0].outputs, after, y);
    }
  }

  lemma {:induction false} MadeAreKnown(g: Graph, p: Partition, have: set<Name>, after: set<Name>)
    requires Resolved(g) && Scheduled(g, p, have, after) && Outputs(p) <= g.nameToNode
    ensures MadeBy(g, p) <= g.nameToNode
  {
    if p != [] {
      MadeAreKnown(g, p[1..], have + p[0].outputs, after);
    }
  }

  /** The buffers a partition returns, as its signature lists them. */
  lemma ReturnedAreMadeOrPassed(g: Graph, p: Partition, rest: seq<Partition>, have: set<Name>, unmet: set<Name>)
    requires Resolved(g) && Closed(g, have)
    requires Scheduled(g, p, have, After(g, rest)) && Outputs(p) <= g.nameToNode
    requires RealNames(g, unmet) <= After(g, rest)
    ensures Allocated(g, Returned(g, p, unmet)) <= (MadeBy(g, p) + Inputs(g, p)) - Freed(p)
    ensures Allocated(g, Returned(g, p, unmet)) <= g.nameToNode
    ensures Inputs(g, p) - Freed(p) <= Allocated(g, Returned(g, p, unmet))
  {
    var after := After(g, rest);
    InputNamesAreStored(g, p, have, after);
    FreedAreDead(g, p, have, after);
    MadeAreKnown(g, p, have, after);
    forall b | b in Allocated(g, Returned(g, p, unmet))
      ensures b in (MadeBy(g, p) + Inputs(g, p)) - Freed(p)
    {
      var y :| y in (Outputs(p) * unmet) + (Inputs(g, p) - Freed(p)) && Real(g, y) == b;
      if y in Outputs(p) * unmet {
        OutputIsMade(g, p, have, after, y);
        assert b in RealNames(g, unmet);
      }
    }
    forall b | b in Inputs(g, p) - Freed(p)
      ensures b in Allocated(g, Returned(g, p, unmet))
    {
      assert Real(g, b) == b;
    }
  }

  lemma InputsArePresent(g: Graph, ps: seq<Partition>, have: set<Name>, constants: Store, whole: Store, env: Store)
    requires Resolved(g) && ps != [] && Between(g, ps, have, constants, whole, env)
    ensures Scheduled(g, ps[0], have, After(g, ps[1..]))
    ensures Inputs(g, ps[0]) <= env.Keys
    ensures RealNames(g, RawUsedBy(g, ps[0]) * have) <= Inputs(g, ps[0]) + (InputNames(g, ps[0]) * g.constants)
  {
    ScheduledConcat(g, ps[0], Flatten(ps[1..]), have, RealNames(g, g.outputNames));
    InputNamesAreStored(g, ps[0], have, After(g, ps[1..]));
    forall b | b in Inputs(g, ps[0])
      ensures b in env.Keys
    {
      assert b in Unmet(g, ps) && Real(g, b) == b;
    }
  }

  /** What the wrapper binds after a call, given what the partition left in its local store. */
  function Rebind(g: Graph, p: Partition, unmet: set<Name>, env: Store, local: Store): Store
    requires Resolved(g)
  {
    (env - (Inputs(g, p) * Freed(p))) + Restrict(local, Allocated(g, Returned(g, p, unmet)))
  }

  lemma RebindAgrees(g: Graph, kernels: Kernels, p: Partition, rest: seq<Partition>, have: set<Name>, unmet: set<Name>,
                     whole: Store, whole': Store, env: Store, local: Store)
    requires Resolved(g) && Closed(g, have) && Scheduled(g, p, have, After(g, rest))
    requires Outputs(p) <= g.nameToNode && RealNames(g, unmet) <= After(g, rest)
    requires whole.Keys == Stored(g, have) && Agrees(env, whole) && env.Keys <= g.nameToNode
    requires RunNodes(g, kernels, p, whole) == Ran(whole') && Agrees(local, whole')
    requires (MadeBy(g, p) + Inputs(g, p)) - Freed(p) <= local.Keys
    ensures Agrees(Rebind(g, p, unmet, env, local), whole')
  {
    var env' := Rebind(g, p, unmet, env, local);
    var after := After(g, rest);
    ReturnedAreMadeOrPassed(g, p, rest, have, unmet);
    MadeOnly(g, kernels, p, whole);
    OutputsAreNew(g, p, have, after);
    InputNamesAreStored(g, p, have, after);
    forall n | n in env' && n !in Restrict(local, Allocated(g, Returned(g, p, unmet)))
      ensures n in whole' && env'[n] == whole'[n]
    {
      if n in MadeBy(g, p) {
        var x := MutatedIsUsed(g, p, have, after, n);
        assert false;
      }
    }
  }

  lemma RebindSupplies(g: Graph, p: Partition, rest: seq<Partition>, have: set<Name>, unmet: set<Name>, env: Store, local: Store)
    requires Resolved(g) && Closed(g, have) && Scheduled(g, p, have, After(g, rest))
    requires Outputs(p) <= g.nameToNode && RealNames(g, unmet) <= After(g, rest)
    requires (MadeBy(g, p) + Inputs(g, p)) - Freed(p) <= local.Keys
    requires Supplied(g, StillUnmet(g, p, unmet), have, env)
    ensures Supplied(g, unmet, have + Outputs(p), Rebind(g, p, unmet, env, local))
  {
    var env' := Rebind(g, p, unmet, env, local);
    var after := After(g, rest);
    ReturnedAreMadeOrPassed(g, p, rest, have, unmet);
    FreedAreDead(g, p, have, after);
    forall u | u in unmet && u in have + Outputs(p) && !IsNoneLayout(g, u) && Real(g, u) in g.nameToNode
      ensures Real(g, u) in env'
    {
      assert Real(g, u) in RealNames(g, unmet);
      if u in Outputs(p) {
        OutputIsMade(g, p, have, after, u);
        assert Real(g, u) in Returned(g, p, unmet);
      } else if u in Returned(g, p, unmet) {
        assert u !in g.mutationRealName;
      } else {
        assert u in StillUnmet(g, p, unmet);
      }
    }
  }

  /** The call finds its inputs and its outputs, and leaves the wrapper with Rebind. */
  lemma CallRuns(g: Graph, kernels: Kernels, ps: seq<Partition>, skip: bool, have: set<Name>,
                 constants: Store, whole: Store, env: Store) returns (local: Store, whole': Store)
    requires Resolved(g) && ps != [] && Between(g, ps, have, constants, whole, env)
    ensures Scheduled(g, ps[0], have, After(g, ps[1..]))
    ensures Scheduled(g, Flatten(ps[1..]), have + Outputs(ps[0]), RealNames(g, g.outputNames))
    ensures Outputs(ps[0]) <= g.nameToNode && Outputs(Flatten(ps[1..])) <= g.nameToNode
    ensures RealNames(g, Unmet(g, ps[1..])) <= After(g, ps[1..])
    ensures RunNodes(g, kernels, ps[0], whole) == Ran(whole') && Agrees(local, whole')
    ensures (MadeBy(g, ps[0]) + Inputs(g, ps[0])) - Freed(ps[0]) <= local.Keys
    ensures SignatureOf(g, ps[0], skip, Unmet(g, ps[1..])).outputs <= g.nameToNode
    ensures CallPartition(g, kernels, ps[0], SignatureOf(g, ps[0], skip, Unmet(g, ps[1..])), constants, env)
         == Ran(Rebind(g, ps[0], Unmet(g, ps[1..]), env, local))
  {
    var p, rest := ps[0], ps[1..];
    InputsArePresent(g, ps, have, constants, whole, env);
    OutputsConcat(p, Flatten(rest));
    ScheduledConcat(g, p, Flatten(rest), have, RealNames(g, g.outputNames));
    var passed := Restrict(env, Inputs(g, p)) + Restrict(constants, InputNames(g, p) * g.constants);
    PartitionAgrees(g, kernels, p, have, After(g, rest), whole, passed);
    whole' := RunNodes(g, kernels, p, whole).store;
    local := RunPartition(g, kernels, p, passed).store;
    ClosedAfter(g, p, have, After(g, rest));
    UnmetAreNeeded(g, rest, have + Outputs(p));
    ReturnedAreMadeOrPassed(g, p, rest, have, Unmet(g, rest));
    DeallocatedNames(g, p, skip, Unmet(g, rest));
  }

  lemma DeallocatedNames(g: Graph, p: Partition, skip: bool, unmet: set<Name>)
    requires Resolved(g)
    ensures var d := SignatureOf(g, p, skip, unmet).deallocation;
            (set n | n in d && d[n]) == Inputs(g, p) * Freed(p)
  {
  }

  lemma UnchangingAfter(g: Graph, kernels: Kernels, p: Partition, have: set<Name>, after: set<Name>, constants: Store, whole: Store)
    requires Resolved(g) && Unchanging(g, have, constants, whole)
    requires Scheduled(g, p, have, after) && Outputs(p) <= g.nameToNode
    ensures RunNodes(g, kernels, p, whole).Ran?
    ensures Unchanging(g, have + Outputs(p), constants, RunNodes(g, kernels, p, whole).store)
  {
    WholeRuns(g, kernels, p, have, after, whole);
    MadeAreKnown(g, p, have, after);
    MadeOnly(g, kernels, p, whole);
  }

  lemma CallStep(g: Graph, kernels: Kernels, ps: seq<Partition>, skip: bool, have: set<Name>, constants: Store, whole: Store, env: Store)
    requires Resolved(g) && ps != [] && Between(g, ps, have, constants, whole, env)
    ensures var signature := SignatureOf(g, ps[0], skip, Unmet(g, ps[1..]));
            var call := CallPartition(g, kernels, ps[0], signature, constants, env);
            var direct := RunNodes(g, kernels, ps[0], whole);
            && signature.outputs <= g.nameToNode
            && call.Ran? && direct.Ran?
            && Between(g, ps[1..], have + Outputs(ps[0]), constants, direct.store, call.store)
  {
    var p, rest, unmet := ps[0], ps[1..], Unmet(g, ps[1..]);
    var local, whole' := CallRuns(g, kernels, ps, skip, have, constants, whole, env);
    RebindAgrees(g, kernels, p, rest, have, unmet, whole, whole', env, local);
    RebindSupplies(g, p, rest, have, unmet, env, local);
    UnchangingAfter(g, kernels, p, have, After(g, rest), constants, whole);
    RebindIsKnown(g, p, rest, have, unmet, env, local);
  }

  lemma RebindIsKnown(g: Graph, p: Partition, rest: seq<Partition>, have: set<Name>, unmet: set<Name>, env: Store, local: Store)
    requires Resolved(g) && Closed(g, have) && Scheduled(g, p, have, After(g, rest))
    requires Outputs(p) <= g.nameToNode && RealNames(g, unmet) <= After(g, rest) && env.Keys <= g.nameToNode
    ensures Rebind(g, p, unmet, env, local).Keys <= g.nameToNode
  {
    ReturnedAreMadeOrPassed(g, p, rest, have, unmet);
  }

  lemma {:induction false} WrapperAgrees(g: Graph, kernels: Kernels, ps: seq<Partition>, skips: seq<bool>, have: set<Name>,
                                         constants: Store, whole: Store, env: Store)
    requires Resolved(g) && |ps| == |skips| && Between(g, ps, have, constants, whole, env)
    ensures var signatures := SignaturesOf(g, ps, skips);
            var split := RunWrapper(g, kernels, ps, signatures, constants, env);
            var direct := RunNodes(g, kernels, Flatten(ps), whole);
            && Resolvable(g, signatures)
            && split.Ran? && direct.Ran?
            && Between(g, [], have + Outputs(Flatten(ps)), constants, direct.store, split.store)
  {
    if ps == [] {
      assert have + Outputs(Flatten(ps)) == have;
    } else {
      CallStep(g, kernels, ps, skips[0], have, constants, whole, env);
      var signature := SignatureOf(g, ps[0], skips[0], Unmet(g, ps[1..]));
      var next := CallPartition(g, kernels, ps[0], signature, constants, env).store;
      var whole' := RunNodes(g, kernels, ps[0], whole).store;
      WrapperAgrees(g, kernels, ps[1..], skips[1..], have + Outputs(ps[0]), constants, whole', next);
      RunNodesConcat(g, kernels, ps[0], Flatten(ps[1..]), whole);
      OutputsConcat(ps[0], Flatten(ps[1..]));
      assert have + Outputs(Flatten(ps)) == have + Outputs(ps[0]) + Outputs(Flatten(ps[1..]));
      assert SignaturesOf(g, ps, skips)[1..] == SignaturesOf(g, ps[1..], skips[1..]);
    }
  }

  /** Both ran and every allocated graph output is bound to the same tensor. */
  ghost predicate SameOutputs(g: Graph, split: Run, direct: Run)
    requires Resolved(g)
  {
    && split.Ran? && direct.Ran?
    && forall o :: o in g.outputNames && o in g.nameToNode && !IsNoneLayout(g, o) ==>
         var b := Real(g, o);
         b in split.store && b in direct.store && split.store[b] == direct.store[b]
  }

  /** The partitioned graph computes what the unpartitioned one computes, when only stored buffers are freed:
      no partition ever misses a buffer, no name is looked up in vain, and the graph outputs are the same. */
  lemma StoredOnlyPreservesMeaning(g: Graph, kernels: Kernels, ps: seq<Partition>, skips: seq<bool>, inputs: Store, constants: Store)
    requires WellFormed(g, ps, inputs.Keys) && StruckAll(g, ps) == ps && constants.Keys == g.constants && |ps| == |skips|
    ensures Resolvable(g, SignaturesOf(g, ps, skips))
    ensures SameOutputs(g, RunWrapper(g, kernels, ps, SignaturesOf(g, ps, skips), constants, inputs),
                        RunNodes(g, kernels, Flatten(ps), inputs + constants))
  {
    var have := inputs.Keys + g.constants;
    assert (inputs + constants).Keys == Stored(g, have);
    OutputsAreNew(g, Flatten(ps), have, RealNames(g, g.outputNames));
    WrapperAgrees(g, kernels, ps, skips, have, constants, inputs + constants, inputs);
    forall o | o in g.outputNames && o in g.nameToNode && !IsNoneLayout(g, o)
      ensures Real(g, o) in g.nameToNode
    {
      if o in Outputs(Flatten(ps)) {
        OutputIsMade(g, Flatten(ps), have, RealNames(g, g.outputNames), o);
      }
    }
  }

  // ----- Which buffers are returned

  /** The buffers that some partition of `ps` takes. */
  function TakenBy(g: Graph, ps: seq<Partition>): set<Name>
    requires Resolved(g)
  {
    if ps == [] then {} else Inputs(g, ps[0]) + TakenBy(g, ps[1..])
  }

  lemma {:induction false} UnmetOrigin(g: Graph, ps: seq<Partition>, u: Name)
    requires Resolved(g)
    ensures u in Unmet(g, ps) && u in g.nameToNode ==> u in g.outputNames || u in TakenBy(g, ps)
  {
    if ps != [] {
      UnmetOrigin(g, ps[1..], u);
    }
  }

  lemma {:induction false} TakenAreReal(g: Graph, ps: seq<Partition>, have: set<Name>, u: Name)
    requires Resolved(g) && Closed(g, have)
    requires Scheduled(g, Flatten(ps), have, RealNames(g, g.outputNames))
    ensures u in TakenBy(g, ps) ==> u !in g.mutationRealName
  {
    if ps != [] {
      ScheduledConcat(g, ps[0], Flatten(ps[1..]), have, RealNames(g, g.outputNames));
      ClosedAfter(g, ps[0], have, After(g, ps[1..]));
      InputNamesAreStored(g, ps[0], have, After(g, ps[1..]));
      TakenAreReal(g, ps[1..], have + Outputs(ps[0]), u);
    }
  }

  /** A partition that returns a buffer it did not produce also takes it. */
  lemma PassedOnIsTaken(g: Graph, p: Partition, rest: seq<Partition>, have: set<Name>, unmet: set<Name>, b: Name)
    requires Resolved(g) && Closed(g, have) && Scheduled(g, p, have, After(g, rest))
    requires b in Stored(g, have) && b in Returned(g, p, unmet)
    ensures b in InputNames(g, p)
  {
    var after := After(g, rest);
    InputNamesAreStored(g, p, have, after);
    OutputsAreNew(g, p, have, after);
    var y :| y in (Outputs(p) * unmet) + (Inputs(g, p) - Freed(p)) && Real(g, y) == b;
    if y in Outputs(p) {
      OutputIsMade(g, p, have, after, y);
      var x := MutatedIsUsed(g, p, have, after, b);
      assert b in RealNames(g, RawUsedBy(g, p) * have);
    }
  }

  lemma {:induction false} WantedStaysUnmet(g: Graph, ps: seq<Partition>, have: set<Name>, b: Name)
    requires Resolved(g) && Closed(g, have)
    requires Scheduled(g, Flatten(ps), have, RealNames(g, g.outputNames))
    requires b in Stored(g, have) && b in g.outputNames + TakenBy(g, ps)
    ensures b in Unmet(g, ps)
  {
    if ps != [] {
      var p, rest := ps[0], ps[1..];
      ScheduledConcat(g, p, Flatten(rest), have, RealNames(g, g.outputNames));
      if b !in InputNames(g, p) {
        ClosedAfter(g, p, have, After(g, rest));
        WantedStaysUnmet(g, rest, have + Outputs(p), b);
        if b in Returned(g, p, Unmet(g, rest)) {
          PassedOnIsTaken(g, p, rest, have, Unmet(g, rest), b);
        }
      }
    }
  }

  lemma {:induction false} AtPartition(g: Graph, ps: seq<Partition>, have: set<Name>, i: nat) returns (have': set<Name>)
    requires Resolved(g) && Closed(g, have) && i <= |ps|
    requires Scheduled(g, Flatten(ps), have, RealNames(g, g.outputNames))
    ensures Closed(g, have')
    ensures Scheduled(g, Flatten(ps[i..]), have', RealNames(g, g.outputNames))
  {
    if i == 0 {
      have' := have;
      assert ps[0..] == ps;
    } else {
      ScheduledConcat(g, ps[0], Flatten(ps[1..]), have, RealNames(g, g.outputNames));
      ClosedAfter(g, ps[0], have, After(g, ps[1..]));
      have' := AtPartition(g, ps[1..], have + Outputs(ps[0]), i - 1);
      assert ps[1..][i - 1..] == ps[i..];
    }
  }

  lemma StoredOnlyReturned(g: Graph, ps: seq<Partition>, graphInputs: set<Name>, i: nat, skip: bool, b: Name)
    requires WellFormed(g, ps, graphInputs) && StruckAll(g, ps) == ps && i < |ps|
    ensures var signature := SignatureOf(g, ps[i], skip, Unmet(g, ps[i + 1..]));
            && (b in Stored(g, Outputs(ps[i])) ==>
                (b in signature.outputs <==>
                  || (exists y :: y in Outputs(ps[i]) && y in g.outputNames && Real(g, y) == b)
                  || b in TakenBy(g, ps[i + 1..])))
            && (b in signature.inputs && !signature.deallocation[b] ==> b in signature.outputs)
  {
    var p, rest := ps[i], ps[i + 1..];
    var have := AtPartition(g, ps, graphInputs + g.constants, i);
    assert ps[i..][0] == p && ps[i..][1..] == rest;
    ScheduledConcat(g, p, Flatten(rest), have, RealNames(g, g.outputNames));
    ClosedAfter(g, p, have, After(g, rest));
    UnmetAreNeeded(g, rest, have + Outputs(p));
    KnownOutputs(ps, i);
    ReturnedAreMadeOrPassed(g, p, rest, have, Unmet(g, rest));
    if b in Stored(g, Outputs(p)) {
      if (exists y :: y in Outputs(p) && y in g.outputNames && Real(g, y) == b) || b in TakenBy(g, rest) {
        ReturnedIfWanted(g, p, rest, have, b);
      }
      if b in Returned(g, p, Unmet(g, rest)) {
        OnlyWantedReturned(g, p, rest, have, b);
      }
    }
  }

  lemma ReturnedIfWanted(g: Graph, p: Partition, rest: seq<Partition>, have: set<Name>, b: Name)
    requires Resolved(g) && Closed(g, have) && Closed(g, have + Outputs(p))
    requires Scheduled(g, p, have, After(g, rest))
    requires Scheduled(g, Flatten(rest), have + Outputs(p), RealNames(g, g.outputNames))
    requires b in Stored(g, Outputs(p))
    requires (exists y :: y in Outputs(p) && y in g.outputNames && Real(g, y) == b) || b in TakenBy(g, rest)
    ensures b in Returned(g, p, Unmet(g, rest))
  {
    if b in TakenBy(g, rest) {
      WantedStaysUnmet(g, rest, have + Outputs(p), b);
      assert Real(g, b) == b && b in Outputs(p) * Unmet(g, rest);
    } else {
      var y :| y in Outputs(p) && y in g.outputNames && Real(g, y) == b;
      if y !in g.mutationRealName {
        WantedStaysUnmet(g, rest, have + Outputs(p), b);
      } else {
        RenamedStaysUnmet(g, rest, y);
      }
      assert y in Outputs(p) * Unmet(g, rest);
    }
  }

  /** Only real names are ever struck off, so a graph output under a mutation's name stays unmet. */
  lemma {:induction false} RenamedStaysUnmet(g: Graph, ps: seq<Partition>, y: Name)
    requires Resolved(g) && y in g.outputNames && y in g.mutationRealName
    ensures y in Unmet(g, ps)
  {
    if ps != [] {
      RenamedStaysUnmet(g, ps[1..], y);
    }
  }

  lemma OnlyWantedReturned(g: Graph, p: Partition, rest: seq<Partition>, have: set<Name>, b: Name)
    requires Resolved(g) && Closed(g, have) && Scheduled(g, p, have, After(g, rest))
    requires Scheduled(g, Flatten(rest), have + Outputs(p), RealNames(g, g.outputNames))
    requires Closed(g, have + Outputs(p)) && Outputs(p) <= g.nameToNode
    requires b in Stored(g, Outputs(p)) && b in Returned(g, p, Unmet(g, rest))
    ensures (exists y :: y in Outputs(p) && y in g.outputNames && Real(g, y) == b) || b in TakenBy(g, rest)
  {
    OutputsAreNew(g, p, have, After(g, rest));
    InputNamesAreStored(g, p, have, After(g, rest));
    var y :| y in (Outputs(p) * Unmet(g, rest)) + (Inputs(g, p) - Freed(p)) && Real(g, y) == b;
    UnmetOrigin(g, rest, y);
    TakenAreReal(g, rest, have + Outputs(p), y);
  }

  lemma {:induction false} KnownOutputs(ps: seq<Partition>, i: nat)
    requires i < |ps|
    ensures Outputs(ps[i]) <= Outputs(Flatten(ps))
  {
    OutputsConcat(ps[0], Flatten(ps[1..]));
    if i > 0 {
      KnownOutputs(ps[1..], i - 1);
    }
  }

  // ----- NoneLayout buffers among the last usages

  lemma {:induction false} StruckSame(g: Graph, p: Partition)
    requires Resolved(g)
    ensures Outputs(StruckNodes(g, p)) == Outputs(p) && ReadWrites(StruckNodes(g, p)) == ReadWrites(p)
    ensures Freed(StruckNodes(g, p)) == Allocated(g, Freed(p))
  {
    if p != [] {
      StruckSame(g, p[1..]);
      assert StruckNodes(g, p)[1..] == StruckNodes(g, p[1..]);
      assert Allocated(g, p[0].lastUsage + Freed(p[1..])) == Allocated(g, p[0].lastUsage) + Allocated(g, Freed(p[1..]));
    }
  }

  lemma {:induction false} StruckTwice(g: Graph, p: Partition)
    requires Resolved(g)
    ensures StruckNodes(g, StruckNodes(g, p)) == StruckNodes(g, p)
  {
    if p != [] {
      StruckTwice(g, p[1..]);
      assert Allocated(g, Allocated(g, p[0].lastUsage)) == Allocated(g, p[0].lastUsage);
      assert StruckNodes(g, p)[1..] == StruckNodes(g, p[1..]);
    }
  }

  lemma {:induction false} StruckAllTwice(g: Graph, ps: seq<Partition>)
    requires Resolved(g)
    ensures StruckAll(g, StruckAll(g, ps)) == StruckAll(g, ps) && Outputs(Flatten(StruckAll(g, ps))) == Outputs(Flatten(ps))
  {
    if ps != [] {
      StruckAllTwice(g, ps[1..]);
      StruckTwice(g, ps[0]);
      StruckSame(g, ps[0]);
      assert StruckAll(g, ps)[1..] == StruckAll(g, ps[1..]);
      OutputsConcat(ps[0], Flatten(ps[1..]));
      OutputsConcat(StruckNodes(g, ps[0]), Flatten(StruckAll(g, ps[1..])));
    }
  }

  lemma {:induction false} StruckRunsDirect(g: Graph, kernels: Kernels, ps: seq<Partition>, s: Store)
    requires Resolved(g)
    ensures RunNodes(g, kernels, Flatten(StruckAll(g, ps)), s) == RunNodes(g, kernels, Flatten(ps), s)
  {
    StruckFlat(g, ps);
    StruckRunNodes(g, kernels, Flatten(ps), s);
  }

  lemma {:induction false} StruckConcat(g: Graph, a: seq<Node>, b: seq<Node>)
    requires Resolved(g)
    ensures StruckNodes(g, a + b) == StruckNodes(g, a) + StruckNodes(g, b)
  {
    if a == [] {
      assert a + b == b;
    } else {
      assert (a + b)[1..] == a[1..] + b;
      StruckConcat(g, a[1..], b);
    }
  }

  lemma {:induction false} StruckFlat(g: Graph, ps: seq<Partition>)
    requires Resolved(g)
    ensures Flatten(StruckAll(g, ps)) == StruckNodes(g, Flatten(ps))
  {
    if ps != [] {
      StruckFlat(g, ps[1..]);
      StruckConcat(g, ps[0], Flatten(ps[1..]));
      assert StruckAll(g, ps)[1..] == StruckAll(g, ps[1..]);
    }
  }

  lemma {:induction false} StruckRunNodes(g: Graph, kernels: Kernels, nodes: seq<Node>, s: Store)
    requires Resolved(g)
    ensures RunNodes(g, kernels, StruckNodes(g, nodes), s) == RunNodes(g, kernels, nodes, s)
  {
    if nodes != [] {
      assert StruckNodes(g, nodes)[1..] == StruckNodes(g, nodes[1..]);
      StruckRunNodes(g, kernels, nodes[1..], s + Compute(g, kernels, nodes[0], s));
    }
  }

  /** Nothing is bound that is not allocated. */
  ghost predicate NoNone(g: Graph, s: Store)
    requires Resolved(g)
  {
    forall n :: n in s ==> !IsNoneLayout(g, n)
  }

  /** Deleting a name that is not bound is no deletion. */
  lemma {:induction false} StruckRunPartition(g: Graph, kernels: Kernels, p: Partition, have: set<Name>, after: set<Name>, s: Store)
    requires Resolved(g) && NoNone(g, s) && Scheduled(g, StruckNodes(g, p), have, after)
    ensures RunPartition(g, kernels, StruckNodes(g, p), s) == RunPartition(g, kernels, p, s)
    ensures RunPartition(g, kernels, p, s).Ran? ==> NoNone(g, RunPartition(g, kernels, p, s).store)
  {
    if p != [] {
      var node := p[0];
      assert StruckNodes(g, p)[1..] == StruckNodes(g, p[1..]);
      var made := s + Compute(g, kernels, node, s);
      MadeIsAllocated(g, node);
      assert made - node.lastUsage == made - Allocated(g, node.lastUsage);
      StruckRunPartition(g, kernels, p[1..], have + node.outputs, after, made - node.lastUsage);
    }
  }

  lemma MadeIsAllocated(g: Graph, node: Node)
    requires Resolved(g) && MutatesWhatItUses(g, Struck(g, node))
    ensures forall b :: b in Made(g, node) ==> !IsNoneLayout(g, b)
  {
    forall b | b in Made(g, node)
      ensures !IsNoneLayout(g, b)
    {
      var y :| y in Allocated(g, node.outputs) && Real(g, y) == b;
    }
  }

  /** The signature of a partition that frees no foreign NoneLayout buffer is that of the struck one. */
  lemma StruckSignature(g: Graph, p: Partition, skip: bool, have: set<Name>, after: set<Name>, unmet: set<Name>)
    requires Resolved(g) && Closed(g, have) && Scheduled(g, StruckNodes(g, p), have, after)
    requires forall n :: n in Freed(p) - Outputs(p) && n in g.nameToNode ==> !IsNoneLayout(g, n)
    ensures InputNames(g, StruckNodes(g, p)) == InputNames(g, p)
    ensures SignatureOf(g, StruckNodes(g, p), skip, unmet) == SignatureOf(g, p, skip, unmet)
    ensures StillUnmet(g, StruckNodes(g, p), unmet) == StillUnmet(g, p, unmet)
  {
    var q := StruckNodes(g, p);
    StruckSame(g, p);
    InputNamesAreStored(g, q, have, after);
    assert (Freed(q) - Outputs(q)) * g.nameToNode == (Freed(p) - Outputs(p)) * g.nameToNode;
    assert InputNames(g, q) == InputNames(g, p);
    SameInputsSameSignature(g, p, q, skip, unmet);
  }

  lemma SameInputsSameSignature(g: Graph, p: Partition, q: Partition, skip: bool, unmet: set<Name>)
    requires Resolved(g) && InputNames(g, q) == InputNames(g, p) && (forall n :: n in InputNames(g, p) ==> !IsNoneLayout(g, n))
    requires Outputs(q) == Outputs(p) && Freed(q) == Allocated(g, Freed(p))
    ensures SignatureOf(g, q, skip, unmet) == SignatureOf(g, p, skip, unmet) && StillUnmet(g, q, unmet) == StillUnmet(g, p, unmet)
  {
    hide InputNames, Outputs, Freed, IsNoneLayout;
    assert Inputs(g, q) - Freed(q) == Inputs(g, p) - Freed(p);
  }

  lemma {:induction false} StruckSignatures(g: Graph, ps: seq<Partition>, skips: seq<bool>, have: set<Name>)
    requires Resolved(g) && Closed(g, have) && |ps| == |skips| && FreesNoForeignNone(g, ps)
    requires Scheduled(g, Flatten(StruckAll(g, ps)), have, RealNames(g, g.outputNames))
    ensures Unmet(g, StruckAll(g, ps)) == Unmet(g, ps) && SignaturesOf(g, StruckAll(g, ps), skips) == SignaturesOf(g, ps, skips)
    ensures TakenBy(g, StruckAll(g, ps)) == TakenBy(g, ps)
  {
    if ps != [] {
      var q, rest := StruckNodes(g, ps[0]), StruckAll(g, ps[1..]);
      assert StruckAll(g, ps)[1..] == rest;
      ScheduledConcat(g, q, Flatten(rest), have, RealNames(g, g.outputNames));
      ClosedAfter(g, q, have, After(g, rest));
      NoForeignTail(g, ps);
      StruckSignatures(g, ps[1..], skips[1..], have + Outputs(q));
      StruckSignature(g, ps[0], skips[0], have, After(g, rest), Unmet(g, rest));
    }
  }

  lemma NoForeignTail(g: Graph, ps: seq<Partition>)
    requires Resolved(g) && ps != [] && FreesNoForeignNone(g, ps)
    ensures FreesNoForeignNone(g, ps[1..])
    ensures forall n :: n in Freed(ps[0]) - Outputs(ps[0]) && n in g.nameToNode ==> !IsNoneLayout(g, n)
  {
    forall i, n | 0 <= i < |ps[1..]| && n in Freed(ps[1..][i]) - Outputs(ps[1..][i]) && n in g.nameToNode
      ensures !IsNoneLayout(g, n)
    {
      assert ps[1..][i] == ps[i + 1];
    }
  }

  lemma {:induction false} StruckRunWrapper(g: Graph, kernels: Kernels, ps: seq<Partition>, signatures: seq<Signature>, have: set<Name>,
                                            constants: Store, env: Store)
    requires Resolved(g) && |ps| == |signatures| && NoNone(g, constants) && NoNone(g, env)
    requires Scheduled(g, Flatten(StruckAll(g, ps)), have, RealNames(g, g.outputNames))
    ensures RunWrapper(g, kernels, StruckAll(g, ps), signatures, constants, env) == RunWrapper(g, kernels, ps, signatures, constants, env)
  {
    if ps != [] {
      var q, rest := StruckNodes(g, ps[0]), StruckAll(g, ps[1..]);
      assert StruckAll(g, ps)[1..] == rest;
      ScheduledConcat(g, q, Flatten(rest), have, RealNames(g, g.outputNames));
      StruckRunPartition(g, kernels, ps[0], have, After(g, rest), Restrict(env, signatures[0].inputs) + Restrict(constants, signatures[0].constantNames));
      var call := CallPartition(g, kernels, ps[0], signatures[0], constants, env);
      if call.Ran? {
        StruckRunWrapper(g, kernels, ps[1..], signatures[1..], have + Outputs(q), constants, call.store);
      }
    }
  }

  lemma StruckWellFormed(g: Graph, ps: seq<Partition>, graphInputs: set<Name>)
    requires WellFormed(g, ps, graphInputs)
    ensures WellFormed(g, StruckAll(g, ps), graphInputs)
  {
    StruckAllTwice(g, ps);
  }

  /** The partitioned graph runs and gives the outputs of the unpartitioned one, whatever the nodes compute,
      exactly if no partition frees a NoneLayout buffer that another one made: the pass keeps such buffers
      out of the reads and the outputs, but not out of the last usages. */
  lemma SignaturesPreserveMeaningIff(g: Graph, kernels: Kernels, ps: seq<Partition>, skips: seq<bool>, inputs: Store, constants: Store)
    requires WellFormed(g, ps, inputs.Keys) && constants.Keys == g.constants && |ps| == |skips|
    ensures SameOutputs(g, RunWrapper(g, kernels, ps, SignaturesOf(g, ps, skips), constants, inputs),
                        RunNodes(g, kernels, Flatten(ps), inputs + constants))
            <==> FreesNoForeignNone(g, ps)
    ensures FreesNoForeignNone(g, ps) ==> Resolvable(g, SignaturesOf(g, ps, skips))
    ensures !FreesNoForeignNone(g, ps) ==> RunWrapper(g, kernels, ps, SignaturesOf(g, ps, skips), constants, inputs) == NameError
    ensures RunNodes(g, kernels, Flatten(ps), inputs + constants).Ran?
  {
    var have, struck := inputs.Keys + g.constants, StruckAll(g, ps);
    StruckWellFormed(g, ps, inputs.Keys);
    StruckAllTwice(g, ps);
    StoredOnlyPreservesMeaning(g, kernels, struck, skips, inputs, constants);
    StruckRunsDirect(g, kernels, ps, inputs + constants);
    if FreesNoForeignNone(g, ps) {
      StruckSignatures(g, ps, skips, have);
      StruckRunWrapper(g, kernels, ps, SignaturesOf(g, ps, skips), have, constants, inputs);
    } else {
      var i, n :| 0 <= i < |ps| && n in Freed(ps[i]) - Outputs(ps[i]) && n in g.nameToNode && IsNoneLayout(g, n);
      FreeingNoneLayoutFails(g, kernels, ps, skips, constants, inputs, i, n);
    }
  }

  /** A buffer made in a partition is returned by it exactly when it backs a graph output made there
      or a later partition takes it; and every input that is not freed is returned. */
  lemma ReturnedExactly(g: Graph, ps: seq<Partition>, graphInputs: set<Name>, i: nat, skip: bool, b: Name)
    requires WellFormed(g, ps, graphInputs) && FreesNoForeignNone(g, ps) && i < |ps|
    ensures var signature := SignatureOf(g, ps[i], skip, Unmet(g, ps[i + 1..]));
            && (b in Stored(g, Outputs(ps[i])) ==>
                (b in signature.outputs <==>
                  || (exists y :: y in Outputs(ps[i]) && y in g.outputNames && Real(g, y) == b)
                  || b in TakenBy(g, ps[i + 1..])))
            && (b in signature.inputs && !signature.deallocation[b] ==> b in signature.outputs)
  {
    StruckWellFormed(g, ps, graphInputs);
    StruckAllTwice(g, ps);
    StoredOnlyReturned(g, StruckAll(g, ps), graphInputs, i, skip, b);
    StruckAt(g, ps, i, skip, graphInputs + g.constants);
    StruckSame(g, ps[i]);
  }

  lemma {:induction false} StruckAt(g: Graph, ps: seq<Partition>, i: nat, skip: bool, have: set<Name>)
    requires Resolved(g) && Closed(g, have) && FreesNoForeignNone(g, ps) && i < |ps|
    requires Scheduled(g, Flatten(StruckAll(g, ps)), have, RealNames(g, g.outputNames))
    ensures var struck := StruckAll(g, ps);
      && struck[i] == StruckNodes(g, ps[i])
      && SignatureOf(g, struck[i], skip, Unmet(g, struck[i + 1..])) == SignatureOf(g, ps[i], skip, Unmet(g, ps[i + 1..]))
      && TakenBy(g, struck[i + 1..]) == TakenBy(g, ps[i + 1..])
  {
    var q, rest := StruckNodes(g, ps[0]), StruckAll(g, ps[1..]);
    assert StruckAll(g, ps)[1..] == rest;
    ScheduledConcat(g, q, Flatten(rest), have, RealNames(g, g.outputNames));
    ClosedAfter(g, q, have, After(g, rest));
    NoForeignTail(g, ps);
    if i == 0 {
      StruckSignatures(g, ps[1..], seq(|ps| - 1, j => false), have + Outputs(q));
      StruckSignature(g, ps[0], skip, have, After(g, rest), Unmet(g, rest));
    } else {
      StruckAt(g, ps[1..], i - 1, skip, have + Outputs(q));
      assert ps[1..][i..] == ps[i + 1..] && rest[i..] == StruckAll(g, ps)[i + 1..];
    }
  }

  /** A graph that asks nothing unusual and fails: the second partition holds the last usage of a NoneLayout
      buffer that the first one made. */
  lemma NoneLayoutGraphFails(kernels: Kernels)
    ensures var g := Graph({"out"}, {"none", "out"}, map["none" := Buffer(true, false), "out" := Buffer(false, false)], map[], {});
            var ps := [[Node("first", {"none"}, {}, {}, {})], [Node("second", {"out"}, {"none"}, {}, {"none"})]];
            WellFormed(g, ps, {}) && RunWrapper(g, kernels, ps, SignaturesOf(g, ps, [false, false]), map[], map[]) == NameError
  {
    var g := Graph({"out"}, {"none", "out"}, map["none" := Buffer(true, false), "out" := Buffer(false, false)], map[], {});
    var a, b := Node("first", {"none"}, {}, {}, {}), Node("second", {"out"}, {"none"}, {}, {"none"});
    var ps := [[a], [b]];
    OneEach(a, b);
    OneEach(Struck(g, a), Struck(g, b));
    StruckPair(g, a, b);
    assert Struck(g, a) == a && Allocated(g, {"none"}) == {};
    OneScheduled(g, a, b.(lastUsage := {}));
    FreeingNoneLayoutFails(g, kernels, ps, [false, false], map[], map[], 1, "none");
  }

  lemma OneEach(a: Node, b: Node)
    ensures Flatten([[a], [b]]) == [a, b] && Outputs([a, b]) == a.outputs + b.outputs && Outputs([b]) == b.outputs && Freed([b]) == b.lastUsage
  {
    assert [[a], [b]][1..] == [[b]] && [[b]][1..] == [] && [a, b][1..] == [b] && [b][1..] == [];
    assert Flatten([[b]]) == [b];
    assert Outputs([b]) == b.outputs;
  }

  lemma StruckPair(g: Graph, a: Node, b: Node)
    requires Resolved(g)
    ensures StruckAll(g, [[a], [b]]) == [[Struck(g, a)], [Struck(g, b)]]
  {
    assert [[a], [b]][1..] == [[b]] && [[b]][1..] == [] && [a][1..] == [] && [b][1..] == [];
    assert StruckNodes(g, [a]) == [Struck(g, a)] && StruckNodes(g, [b]) == [Struck(g, b)];
    assert StruckAll(g, [[b]]) == [[Struck(g, b)]];
  }

  /** Two nodes without allocated uses, mutations and last usages are scheduled. */
  lemma OneScheduled(g: Graph, a: Node, b: Node)
    requires Resolved(g) && g.mutationRealName == map[] && a.outputs !! b.outputs && a.lastUsage == {} == b.lastUsage
    requires RawUses(g, a) == {} == RawUses(g, b)
    ensures Scheduled(g, [a, b], {}, RealNames(g, g.outputNames))
  {
    assert [a, b][1..] == [b] && [b][1..] == [];
    assert Scheduled(g, [b], {} + a.outputs, RealNames(g, g.outputNames));
  }

  /** The pass keeps NoneLayout buffers out of the reads and of the outputs, but not out of the last
      usages: a partition whose last usages name one from outside takes it, and the wrapper, which
      never binds such a buffer, then fails. */
  lemma {:induction false} FreeingNoneLayoutFails(
    g: Graph, kernels: Kernels, ps: seq<Partition>, skips: seq<bool>, constants: Store, env: Store, i: nat, n: Name)
    requires Resolved(g) && |ps| == |skips| && i < |ps|
    requires n in Freed(ps[i]) - Outputs(ps[i]) && n in g.nameToNode && IsNoneLayout(g, n)
    requires forall m :: m in env ==> !IsNoneLayout(g, m)
    ensures RunWrapper(g, kernels, ps, SignaturesOf(g, ps, skips), constants, env) == NameError
  {
    var signature := SignatureOf(g, ps[0], skips[0], Unmet(g, ps[1..]));
    if i == 0 {
      assert n in signature.inputs;
    } else {
      var call := CallPartition(g, kernels, ps[0], signature, constants, env);
      if call.Ran? {
        FreeingNoneLayoutFails(g, kernels, ps[1..], skips[1..], constants, call.store, i - 1, n);
        assert SignaturesOf(g, ps, skips)[1..] == SignaturesOf(g, ps[1..], skips[1..]);
      }
    }
  }

  // ----- The constants of a signature

  lemma {:induction false} MutatedAreKnown(g: Graph, nodes: seq<Node>, have: set<Name>, after: set<Name>, y: Name)
    requires Resolved(g) && Scheduled(g, nodes, have, after)
    requires y in Outputs(nodes) && y in g.mutationRealName && !IsNoneLayout(g, y)
    ensures Real(g, y) in g.nameToNode
  {
    if y !in nodes[0].outputs {
      MutatedAreKnown(g, nodes[1..], have + nodes[0].outputs, after, y);
    }
  }

  /** A signature lists a constant exactly if some node of its partition uses it. */
  lemma ConstantsAreThoseUsed(g: Graph, ps: seq<Partition>, skips: seq<bool>, graphInputs: set<Name>, i: nat, c: Name)
    requires WellFormed(g, ps, graphInputs) && |ps| == |skips| && i < |ps|
    ensures c in SignaturesOf(g, ps, skips)[i].constantNames <==> c in g.constants && exists k :: 0 <= k < |ps[i]| && c in Uses(g, ps[i][k])
  {
    SignatureAtDescribes(g, ps, skips, i);
    if c in g.constants {
      var have, after := graphInputs + g.constants, RealNames(g, g.outputNames);
      StruckAllTwice(g, ps);
      OutputsAreNew(g, Flatten(StruckAll(g, ps)), have, after);
      KnownOutputs(ps, i);
      if TakenIn(g, ps[i], c) {
        ConstantTaken(g, ps[i], c);
      }
      forall k | 0 <= k < |ps[i]| && c in Uses(g, ps[i][k])
        ensures TakenIn(g, ps[i], c)
      {
        var n :| n in RawUses(g, ps[i][k]) && Real(g, n) == c;
        NamesOfNodes(ps[i], n);
        if n in Outputs(ps[i]) {
          MutatedAreKnown(g, Flatten(StruckAll(g, ps)), have, after, n);
        }
        assert TouchedIn(ps[i], n);
      }
    }
  }

  lemma ConstantTaken(g: Graph, p: Partition, c: Name)
    requires Resolved(g) && TakenIn(g, p, c) && c !in g.nameToNode
    ensures exists k :: 0 <= k < |p| && c in Uses(g, p[k])
  {
    var n :| TouchedIn(p, n) && !IsNoneLayout(g, n) && !MadeIn(p, n) && Real(g, n) == c;
    var k :| 0 <= k < |p| && n in p[k].readNames + p[k].writeNames;
    assert n !in p[k].outputs;
    assert n in RawUses(g, p[k]);
  }
}
