/** Graph-partition signatures of the Inductor scheduler
    (vllm/env_override.py, get_graph_partition_signature_patched).

    A partition is a list of scheduler nodes.  The pass walks the partitions from the last to the
    first and decides, for each one, which buffers it takes, which of them it frees and which
    buffers it hands back.  The pass never looks at what a node computes.  */
module PartitionSignatures {

  type Name = string

  datatype Node = Node(name: Name, outputs: set<Name>, readNames: set<Name>, writeNames: set<Name>, lastUsage: set<Name>)

  type Partition = seq<Node>

  /** What the pass reads of a buffer: has it NoneLayout, is its node a MutationOutput. */
  datatype Buffer = Buffer(noneLayout: bool, mutationOutput: bool)

  datatype Graph = Graph(outputNames: set<Name>, nameToNode: set<Name>, nameToBuf: map<Name, Buffer>,
                         mutationRealName: map<Name, Name>, constants: set<Name>)

  datatype Signature = Signature(inputs: set<Name>, outputs: set<Name>, deallocation: map<Name, bool>,
                                 skipCudagraph: bool, constantNames: set<Name>)

  datatype Result = Signatures(value: seq<Signature>) | KeyError

  /** Mutation chains are stored resolved: a real name is never itself the result of a mutation. */
  predicate Resolved(g: Graph) {
    forall n :: n in g.mutationRealName ==> g.mutationRealName[n] !in g.mutationRealName
  }

  function Real(g: Graph, n: Name): Name {
    if n in g.mutationRealName then g.mutationRealName[n] else n
  }

  predicate IsNoneLayout(g: Graph, n: Name)
    requires Resolved(g)
    decreases n in g.mutationRealName
  {
    if n !in g.nameToBuf || !g.nameToBuf[n].noneLayout then
      false
    else if g.nameToBuf[n].mutationOutput && n in g.mutationRealName && g.mutationRealName[n] != "" then
      IsNoneLayout(g, g.mutationRealName[n])
    else
      true
  }

  function RealNames(g: Graph, names: set<Name>): set<Name> {
    set n | n in names :: Real(g, n)
  }

  function Allocated(g: Graph, names: set<Name>): set<Name>
    requires Resolved(g)
  {
    set n | n in names && !IsNoneLayout(g, n)
  }

  function Outputs(p: Partition): set<Name> {
    if p == [] then {} else p[0].outputs + Outputs(p[1..])
  }

  function ReadWrites(p: Partition): set<Name> {
    if p == [] then {} else p[0].readNames + p[0].writeNames + ReadWrites(p[1..])
  }

  function Freed(p: Partition): set<Name> {
    if p == [] then {} else p[0].lastUsage + Freed(p[1..])
  }

  // ----- The same, node by node

  ghost predicate MadeIn(p: Partition, n: Name) {
    exists k :: 0 <= k < |p| && n in p[k].outputs
  }

  ghost predicate TouchedIn(p: Partition, n: Name) {
    exists k :: 0 <= k < |p| && n in p[k].readNames + p[k].writeNames
  }

  ghost predicate LastUsedIn(p: Partition, n: Name) {
    exists k :: 0 <= k < |p| && n in p[k].lastUsage
  }

  lemma {:induction false} NamesOfNodes(p: Partition, n: Name)
    ensures n in Outputs(p) <==> MadeIn(p, n)
    ensures n in ReadWrites(p) <==> TouchedIn(p, n)
    ensures n in Freed(p) <==> LastUsedIn(p, n)
  {
    if p != [] {
      var rest := p[1..];
      NamesOfNodes(rest, n);
      assert forall k :: 0 <= k < |rest| ==> rest[k] == p[k + 1];
      assert forall k :: 0 < k < |p| ==> p[k] == rest[k - 1];
    }
  }

  /** The partition takes b from outside: a node reads or writes a name for it that no node makes, or the
      last usage of b is here and it is not made here. */
  ghost predicate TakenIn(g: Graph, p: Partition, b: Name)
    requires Resolved(g)
  {
    || (exists n :: TouchedIn(p, n) && !IsNoneLayout(g, n) && !MadeIn(p, n) && Real(g, n) == b)
    || (LastUsedIn(p, b) && !MadeIn(p, b) && b in g.nameToNode)
  }

  /** The partition gives b back: a node makes a name for it that is still wanted, or b is taken and its last
      usage is not here. */
  ghost predicate GivenIn(g: Graph, p: Partition, unmet: set<Name>, b: Name)
    requires Resolved(g)
  {
    exists n :: Real(g, n) == b && ((MadeIn(p, n) && n in unmet) || (TakenIn(g, p, n) && n in g.nameToNode && !LastUsedIn(p, n)))
  }

  /** What a signature says about its partition. */
  ghost predicate Describes(g: Graph, p: Partition, skip: bool, unmet: set<Name>, s: Signature)
    requires Resolved(g)
  {
    && (forall b :: b in s.inputs <==> b in g.nameToNode && TakenIn(g, p, b))
    && (forall b :: b in s.outputs <==> !IsNoneLayout(g, b) && GivenIn(g, p, unmet, b))
    && s.deallocation.Keys == s.inputs && (forall b :: b in s.inputs ==> (s.deallocation[b] <==> LastUsedIn(p, b)))
    && s.skipCudagraph == skip
    && (forall b :: b in s.constantNames <==> b in g.constants && TakenIn(g, p, b))
  }

  // ----- What the pass computes for one partition

  function InputNames(g: Graph, p: Partition): set<Name>
    requires Resolved(g)
  {
    RealNames(g, Allocated(g, ReadWrites(p)) - Outputs(p)) + ((Freed(p) - Outputs(p)) * g.nameToNode)
  }

  function Inputs(g: Graph, p: Partition): set<Name>
    requires Resolved(g)
  {
    InputNames(g, p) * g.nameToNode
  }

  function Returned(g: Graph, p: Partition, unmet: set<Name>): set<Name>
    requires Resolved(g)
  {
    RealNames(g, (Outputs(p) * unmet) + (Inputs(g, p) - Freed(p)))
  }

  function StillUnmet(g: Graph, p: Partition, unmet: set<Name>): set<Name>
    requires Resolved(g)
  {
    InputNames(g, p) + (unmet - Returned(g, p, unmet))
  }

  /** The names that the partitions `ps` and the caller still want before `ps` has run. */
  function Unmet(g: Graph, ps: seq<Partition>): set<Name>
    requires Resolved(g)
  {
    if ps == [] then g.outputNames else StillUnmet(g, ps[0], Unmet(g, ps[1..]))
  }

  function SignatureOf(g: Graph, p: Partition, skip: bool, unmet: set<Name>): Signature
    requires Resolved(g)
  {
    Signature(Inputs(g, p),
              Allocated(g, Returned(g, p, unmet)),
              map n | n in Inputs(g, p) :: n in Freed(p),
              skip,
              InputNames(g, p) * g.constants)
  }

  lemma InputNamesAreTaken(g: Graph, p: Partition)
    requires Resolved(g)
    ensures forall b :: b in InputNames(g, p) <==> TakenIn(g, p, b)
  {
    forall b
      ensures b in InputNames(g, p) <==> TakenIn(g, p, b)
    {
      forall n { NamesOfNodes(p, n); }
      hide Outputs, ReadWrites, Freed, MadeIn, TouchedIn, LastUsedIn;
    }
  }

  lemma SignatureDescribes(g: Graph, p: Partition, skip: bool, unmet: set<Name>)
    requires Resolved(g)
    ensures Describes(g, p, skip, unmet, SignatureOf(g, p, skip, unmet))
    ensures forall b :: b in StillUnmet(g, p, unmet) <==> TakenIn(g, p, b) || (b in unmet && !GivenIn(g, p, unmet, b))
  {
    InputNamesAreTaken(g, p);
    forall n { NamesOfNodes(p, n); }
    hide InputNames, Outputs, ReadWrites, Freed, MadeIn, TouchedIn, LastUsedIn, TakenIn;
    forall b
      ensures b in Returned(g, p, unmet) <==> GivenIn(g, p, unmet, b)
    {
    }
    hide Returned, GivenIn;
  }

  /** The signatures of all partitions, first partition first. */
  function SignaturesOf(g: Graph, ps: seq<Partition>, skips: seq<bool>): (r: seq<Signature>)
    requires Resolved(g) && |ps| == |skips|
    ensures |r| == |ps|
  {
    if ps == [] then []
    else [SignatureOf(g, ps[0], skips[0], Unmet(g, ps[1..]))] + SignaturesOf(g, ps[1..], skips[1..])
  }

  /** Every output node a signature names can be looked up in name_to_node. */
  predicate Resolvable(g: Graph, signatures: seq<Signature>) {
    forall i :: 0 <= i < |signatures| ==> signatures[i].outputs <= g.nameToNode
  }

  function Shorter(m: nat, n: nat): nat {
    if m < n then m else n
  }

  /** The backward pass.  `zip` stops at the shorter of its two lists, so only the last
      `Shorter(...)` partitions are signed. */
  method PartitionSignature(g: Graph, partitions: seq<Partition>, skipCudagraphs: seq<bool>)
    returns (r: Result)
    requires Resolved(g)
    ensures var count := Shorter(|partitions|, |skipCudagraphs|);
            var all := SignaturesOf(g, partitions[|partitions| - count..], skipCudagraphs[|skipCudagraphs| - count..]);
            r == if Resolvable(g, all) then Signatures(all) else KeyError
    ensures r.Signatures? ==>
      var count := Shorter(|partitions|, |skipCudagraphs|);
      && |r.value| == count
      && forall i :: 0 <= i < count ==>
           r.value[i].skipCudagraph == skipCudagraphs[|skipCudagraphs| - count + i] &&
           Describes(g, partitions[|partitions| - count + i], skipCudagraphs[|skipCudagraphs| - count + i],
                     Unmet(g, partitions[|partitions| - count + i + 1..]), r.value[i])
  {
    hide Describes, SignaturesOf, SignatureOf, Unmet;
    var count := Shorter(|partitions|, |skipCudagraphs|);
    var ps, skips := partitions[|partitions| - count..], skipCudagraphs[|skipCudagraphs| - count..];
    r := SignAll(g, ps, skips);
    forall i | 0 <= i < count
      ensures SignaturesOf(g, ps, skips)[i].skipCudagraph == skips[i]
      ensures Describes(g, ps[i], skips[i], Unmet(g, partitions[|partitions| - count + i + 1..]), SignaturesOf(g, ps, skips)[i])
    {
      SignatureAtDescribes(g, ps, skips, i);
      assert ps[i + 1..] == partitions[|partitions| - count + i + 1..];
    }
  }

  lemma SignatureAtDescribes(g: Graph, ps: seq<Partition>, skips: seq<bool>, i: nat)
    requires Resolved(g) && |ps| == |skips| && i < |ps|
    ensures SignaturesOf(g, ps, skips)[i].skipCudagraph == skips[i]
    ensures Describes(g, ps[i], skips[i], Unmet(g, ps[i + 1..]), SignaturesOf(g, ps, skips)[i])
  {
    SignatureAt(g, ps, skips, i);
    SignatureDescribes(g, ps[i], skips[i], Unmet(g, ps[i + 1..]));
  }

  lemma SignatureAt(g: Graph, ps: seq<Partition>, skips: seq<bool>, i: nat)
    requires Resolved(g) && |ps| == |skips| && i < |ps|
    ensures SignaturesOf(g, ps, skips)[i] == SignatureOf(g, ps[i], skips[i], Unmet(g, ps[i + 1..]))
  {
    SignaturesOfSuffix(g, ps, skips, i);
    SuffixStep(ps, i);
    SuffixStep(skips, i);
    assert SignaturesOf(g, ps, skips)[i] == SignaturesOf(g, ps, skips)[i..][0];
  }

  method SignAll(g: Graph, ps: seq<Partition>, skips: seq<bool>) returns (r: Result)
    requires Resolved(g) && |ps| == |skips|
    ensures var all := SignaturesOf(g, ps, skips);
            r == if Resolvable(g, all) then Signatures(all) else KeyError
  {
    var signatures: seq<Signature> := [];
    var unmet := g.outputNames;
    var i := |ps|;
    while i > 0
      invariant 0 <= i <= |ps|
      invariant unmet == Unmet(g, ps[i..])
      invariant signatures == SignaturesOf(g, ps[i..], skips[i..])
      invariant Resolvable(g, signatures)
    {
      i := i - 1;
      SuffixStep(ps, i);
      SuffixStep(skips, i);
      var signature, next := SignOne(g, ps[i], skips[i], unmet);
      signatures, unmet := [signature] + signatures, next;
      if !(signature.outputs <= g.nameToNode) {
        SignaturesOfSuffix(g, ps, skips, i);
        assert SignaturesOf(g, ps, skips)[i] == SignaturesOf(g, ps, skips)[i..][0];
        return KeyError;
      }
    }
    assert ps[0..] == ps && skips[0..] == skips;
    r := Signatures(signatures);
  }

  lemma SuffixStep<T>(s: seq<T>, i: nat)
    requires i < |s|
    ensures s[i..] != [] && s[i..][0] == s[i] && s[i..][1..] == s[i + 1..]
  {
  }

  lemma {:induction false} SignaturesOfSuffix(g: Graph, ps: seq<Partition>, skips: seq<bool>, i: nat)
    requires Resolved(g) && |ps| == |skips| && i <= |ps|
    ensures SignaturesOf(g, ps, skips)[i..] == SignaturesOf(g, ps[i..], skips[i..])
  {
    if i == 0 {
      assert ps[0..] == ps && skips[0..] == skips;
    } else {
      SignaturesOfSuffix(g, ps[1..], skips[1..], i - 1);
      assert ps[1..][i - 1..] == ps[i..] && skips[1..][i - 1..] == skips[i..];
      assert SignaturesOf(g, ps, skips)[i..] == SignaturesOf(g, ps[1..], skips[1..])[i - 1..];
    }
  }

  /** One turn of the pass: the body of its loop. */
  method SignOne(g: Graph, p: Partition, skip: bool, unmet: set<Name>) returns (s: Signature, next: set<Name>)
    requires Resolved(g)
    ensures s == SignatureOf(g, p, skip, unmet)
    ensures next == StillUnmet(g, p, unmet)
    ensures Describes(g, p, skip, unmet, s)
    ensures forall b :: b in next <==> TakenIn(g, p, b) || (b in unmet && !GivenIn(g, p, unmet, b))
  {
    var outputNames, readWrites, toFree := CollectNames(p);
    var returned := outputNames * unmet;
    var inputNames := RealNames(g, Allocated(g, readWrites) - outputNames);
    inputNames := inputNames + ((toFree - outputNames) * g.nameToNode);
    var inputs := inputNames * g.nameToNode;
    var deallocation := map n | n in inputs :: n in toFree;
    returned := RealNames(g, returned + (inputs - toFree));
    s := Signature(inputs, Allocated(g, returned), deallocation, skip, inputNames * g.constants);
    next := inputNames + (unmet - returned);
    SignatureDescribes(g, p, skip, unmet);
  }

  method CollectNames(p: Partition) returns (outputNames: set<Name>, readWrites: set<Name>, toFree: set<Name>)
    ensures outputNames == Outputs(p) && readWrites == ReadWrites(p) && toFree == Freed(p)
  {
    outputNames, readWrites, toFree := {}, {}, {};
    for k := 0 to |p|
      invariant outputNames + Outputs(p[k..]) == Outputs(p)
      invariant readWrites + ReadWrites(p[k..]) == ReadWrites(p)
      invariant toFree + Freed(p[k..]) == Freed(p)
    {
      assert p[k..][1..] == p[k + 1..];
      outputNames := outputNames + p[k].outputs;
      readWrites := readWrites + p[k].readNames + p[k].writeNames;
      toFree := toFree + p[k].lastUsage;
    }
  }
}
