/** Token counts under sequence parallelism (vllm/forward_context.py: _compute_sp_num_tokens and
    DPMetadata.cu_tokens_across_sp). */
module SpTokens {
  import opened Arith

  function Sum(s: seq<nat>): nat {
    if s == [] then 0 else Sum(s[..|s| - 1]) + s[|s| - 1]
  }

  /** (num_tokens + sp - 1) // sp, element by element. */
  function PerRank(tokens: seq<nat>, sp: nat): (r: seq<nat>)
    requires sp > 0
    ensures |r| == |tokens| && forall i :: 0 <= i < |r| ==> r[i] == (tokens[i] + sp - 1) / sp
  {
    seq(|tokens|, i requires 0 <= i < |tokens| => (tokens[i] + sp - 1) / sp)
  }

  function Fill(x: nat, n: nat): (r: seq<nat>)
    ensures |r| == n && forall i :: 0 <= i < n ==> r[i] == x
  {
    seq(n, i => x)
  }

  /** repeat_interleave. */
  function Repeated(s: seq<nat>, sp: nat): seq<nat> {
    if s == [] then [] else Repeated(s[..|s| - 1], sp) + Fill(s[|s| - 1], sp)
  }

  function ComputeSpNumTokens(tokens: seq<nat>, sp: nat): seq<nat>
    requires sp > 0
  {
    Repeated(PerRank(tokens, sp), sp)
  }

  /** cumsum. */
  function CumSum(s: seq<nat>): seq<nat> {
    if s == [] then []
    else
      var init := CumSum(s[..|s| - 1]);
      init + [(if init == [] then 0 else init[|init| - 1]) + s[|s| - 1]]
  }

  lemma {:induction false} CumSumIs(s: seq<nat>)
    ensures |CumSum(s)| == |s| && forall i :: 0 <= i < |s| ==> CumSum(s)[i] == Sum(s[..i + 1])
  {
    if s != [] {
      var init := s[..|s| - 1];
      CumSumIs(init);
      assert s[..|s|] == s && init[..|init|] == init;
      forall i | 0 <= i < |s|
        ensures CumSum(s)[i] == Sum(s[..i + 1])
      {
        if i < |init| {
          assert init[..i + 1] == s[..i + 1];
        }
      }
    }
  }

  function CuTokensAcrossSp(tokens: seq<nat>, sp: nat): seq<nat>
    requires sp > 0
  {
    CumSum(Repeated(seq(|tokens|, i requires 0 <= i < |tokens| => (tokens[i] - 1 + sp) / sp), sp))
  }

  lemma {:induction false} SumAppend(s: seq<nat>, t: seq<nat>)
    ensures Sum(s + t) == Sum(s) + Sum(t)
  {
    if t == [] {
      assert s + t == s;
    } else {
      SumAppend(s, t[..|t| - 1]);
      assert (s + t)[..|s + t| - 1] == s + t[..|t| - 1];
    }
  }

  lemma {:induction false} SumFill(x: nat, n: nat)
    ensures Sum(Fill(x, n)) == n * x
  {
    if n > 0 {
      SumFill(x, n - 1);
      assert Fill(x, n)[..n - 1] == Fill(x, n - 1);
    }
  }

  lemma {:induction false} RepeatedSize(s: seq<nat>, sp: nat)
    ensures |Repeated(s, sp)| == |s| * sp && Sum(Repeated(s, sp)) == sp * Sum(s)
  {
    if s != [] {
      var init, last := s[..|s| - 1], s[|s| - 1];
      RepeatedSize(init, sp);
      SumAppend(Repeated(init, sp), Fill(last, sp));
      SumFill(last, sp);
      CoversStep(sp, Sum(init), last, |init|);
    }
  }

  lemma {:induction false} RepeatedPrefix(s: seq<nat>, sp: nat, r: nat)
    requires r <= |s|
    ensures r * sp <= |Repeated(s, sp)| && Repeated(s, sp)[..r * sp] == Repeated(s[..r], sp)
    decreases |s|
  {
    RepeatedSize(s, sp);
    if r == |s| {
      assert s[..r] == s;
    } else {
      var init := s[..|s| - 1];
      RepeatedPrefix(init, sp, r);
      RepeatedSize(init, sp);
      assert init[..r] == s[..r];
    }
  }

  /** Rounding up per rank adds at most sp - 1. */
  lemma {:induction false} PerRankCovers(tokens: seq<nat>, sp: nat)
    requires sp > 0
    ensures Sum(tokens) <= sp * Sum(PerRank(tokens, sp)) <= Sum(tokens) + |tokens| * (sp - 1)
  {
    if tokens != [] {
      var n := |tokens| - 1;
      PerRankCovers(tokens[..n], sp);
      assert PerRank(tokens, sp)[..n] == PerRank(tokens[..n], sp);
      var last := (tokens[n] + sp - 1) / sp;
      FloorMul(tokens[n] + sp - 1, sp);
      CoversStep(sp, Sum(PerRank(tokens[..n], sp)), last, n);
    }
  }

  lemma CoversStep(sp: nat, s: nat, last: nat, n: nat)
    ensures sp * (s + last) == sp * s + last * sp == sp * s + sp * last
    ensures (n + 1) * (sp - 1) == n * (sp - 1) + (sp - 1) && (n + 1) * sp == n * sp + sp
  {
  }

  /** cu_tokens_across_sp: the running sum of the per-rank counts.  The entry that closes data-parallel rank
      r is sp times the rounded-up counts through r; the last one exceeds the true total by at most
      dp * (sp - 1). */
  lemma CuTokens(tokens: seq<nat>, sp: nat)
    requires sp > 0
    ensures var cu, counts := CuTokensAcrossSp(tokens, sp), ComputeSpNumTokens(tokens, sp);
      && |cu| == |tokens| * sp == |counts|
      && (forall i :: 0 <= i < |cu| ==> cu[i] == Sum(counts[..i + 1]))
      && (forall r :: 0 <= r < |tokens| ==> Closes(tokens, sp, cu, r))
      && (cu != [] ==> Sum(tokens) <= cu[|cu| - 1] <= Sum(tokens) + |tokens| * (sp - 1))
  {
    var cu, counts := CuTokensAcrossSp(tokens, sp), ComputeSpNumTokens(tokens, sp);
    assert seq(|tokens|, i requires 0 <= i < |tokens| => (tokens[i] - 1 + sp) / sp) == PerRank(tokens, sp);
    RepeatedSize(PerRank(tokens, sp), sp);
    CumSumIs(counts);
    forall r | 0 <= r < |tokens|
      ensures Closes(tokens, sp, cu, r)
    {
      ClosingEntry(tokens, sp, cu, r);
    }
    if cu != [] {
      assert counts[..|counts|] == counts;
      PerRankCovers(tokens, sp);
    }
  }

  ghost predicate Closes(tokens: seq<nat>, sp: nat, cu: seq<nat>, r: nat)
    requires sp > 0 && r < |tokens|
  {
    var i := (r + 1) * sp - 1;
    0 <= i < |cu| && cu[i] == sp * Sum(PerRank(tokens, sp)[..r + 1])
  }

  lemma ClosingEntry(tokens: seq<nat>, sp: nat, cu: seq<nat>, r: nat)
    requires sp > 0 && r < |tokens| && |cu| == |ComputeSpNumTokens(tokens, sp)|
    requires forall i :: 0 <= i < |cu| ==> cu[i] == Sum(ComputeSpNumTokens(tokens, sp)[..i + 1])
    ensures Closes(tokens, sp, cu, r)
  {
    var per := PerRank(tokens, sp);
    RepeatedPrefix(per, sp, r + 1);
    RepeatedSize(per[..r + 1], sp);
    MulLe(1, r + 1, sp);
  }
}
