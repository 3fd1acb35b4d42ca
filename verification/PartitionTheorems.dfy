/** What the partition of a plan promises: exact boundaries, alternating types, few subsets. */
module PartitionTheorems {
  import opened TfliteGraph
  import opened PartitionSpec

  /** A node of subset `e` produces `t`. */
  ghost predicate ProducedIn(p: Problem, s: Progress, e: int, t: int)
    requires Shaped(p, s)
  {
    exists v :: 0 <= v < |p.g.nodes| && s.nodeEpochs[v] == e && Produces(p.g, v, t)
  }

  /** A node of a subset after `e` reads `t`. */
  ghost predicate ReadAfter(p: Problem, s: Progress, e: int, t: int)
    requires Shaped(p, s)
  {
    exists v :: 0 <= v < |p.g.nodes| && s.nodeEpochs[v] > e && Reads(p.g, v, t)
  }

  lemma EpochIsProducers(p: Problem, s: Progress, e: nat, t: nat)
    requires Shaped(p, s) && TensorsFollow(p, s) && t < |p.g.tensors|
    ensures s.tensorEpochs[t] == e <==> ProducedIn(p, s, e, t)
  {
    if v :| 0 <= v < |p.g.nodes| && Produces(p.g, v, t) {
      assert s.tensorEpochs[t] == s.nodeEpochs[v];
    }
  }

  /** Dependencies never point to a later subset. */
  lemma DependenciesInEarlierSubsets(p: Problem, s: Progress, v: nat, u: nat)
    requires Partitioned(p, s) && v < |p.g.nodes| && u < |p.g.nodes| && DependsOn(p.g, v, u)
    ensures s.nodeEpochs[u] <= s.nodeEpochs[v]
  {
    assert Assigned(s, v);
    var k :| 0 <= k < |s.order| && s.order[k] == v;
    assert u in s.order[..k];
  }

  /**
   Inputs of a subset are the tensors its nodes read and none of them produces; outputs are the
   tensors it produces that later subsets or the caller read.
   */
  lemma BoundaryListsExact(p: Problem, s: Progress, e: nat, t: int)
    requires Partitioned(p, s) && e < |s.subsets|
    ensures t in s.subsets[e].inputTensors <==>
            0 <= t < |p.g.tensors| && ReadIn(p, s, e, t) && !ProducedIn(p, s, e, t)
    ensures t in s.subsets[e].outputTensors <==>
            0 <= t < |p.g.tensors| && ProducedIn(p, s, e, t) && (ReadAfter(p, s, e, t) || t in p.g.outputs)
    ensures Ascending(s.subsets[e].inputTensors) && Ascending(s.subsets[e].outputTensors)
  {
    if 0 <= t < |p.g.tensors| {
      EpochIsProducers(p, s, e, t);
      if ProducedIn(p, s, e, t) && ReadOutside(p, s, e, t) {
        ReadersComeAfter(p, s, e, t);
      }
    }
  }

  lemma ReadersComeAfter(p: Problem, s: Progress, e: nat, t: int)
    requires Partitioned(p, s) && ProducedIn(p, s, e, t) && ReadOutside(p, s, e, t)
    ensures ReadAfter(p, s, e, t)
  {
    var u :| 0 <= u < |p.g.nodes| && s.nodeEpochs[u] == e && Produces(p.g, u, t);
    var v :| 0 <= v < |p.g.nodes| && Assigned(s, v) && s.nodeEpochs[v] != e && Reads(p.g, v, t);
    DependenciesInEarlierSubsets(p, s, v, u);
  }

  /******* Adjacent subsets have different types *******/

  /** The first node of subset `e`. */
  lemma FirstOf(p: Problem, s: Progress, e: nat) returns (k: nat)
    requires Partitioned(p, s) && e < |s.subsets|
    ensures k < |s.order| && s.nodeEpochs[s.order[k]] == e
    ensures forall i :: 0 <= i < k ==> s.nodeEpochs[s.order[i]] < e
  {
    k := |Concat(s.subsets[..e])|;
    assert s.subsets[..e + 1][..e] == s.subsets[..e];
    assert s.subsets[e].nodes != [];
    ConcatGrows(s.subsets, e + 1);
    assert k < |Concat(s.subsets[..e + 1])| <= |s.order|;
  }

  lemma TypesAlternate(p: Problem, s: Progress, e: nat)
    requires Partitioned(p, s) && e + 1 < |s.subsets|
    ensures s.subsets[e].kind != s.subsets[e + 1].kind
  {
    var k := FirstOf(p, s, e + 1);
    var v := s.order[k];
    forall u | 0 <= u < |p.g.nodes| && DependsOn(p.g, v, u)
      ensures !After(s.nodeEpochs[u], e)
    {
      assert Assigned(s, u) && u in s.order[..k];
    }
    assert !Waits(p, s, e, v) && Exhausted(p, s, e);
  }

  function Other(kind: NodeType): NodeType {
    match kind
    case Partition => NonPartition
    case NonPartition => NodeType.Partition
    case Unexplored => Unexplored
  }

  lemma {:induction false} TypeByParity(p: Problem, s: Progress, e: nat)
    requires Partitioned(p, s) && e < |s.subsets|
    ensures s.subsets[e].kind == if e % 2 == 0 then s.subsets[0].kind else Other(s.subsets[0].kind)
  {
    assert s.subsets[e].nodes != [];
    if e > 0 {
      assert s.subsets[e - 1].nodes != [];
      TypeByParity(p, s, e - 1);
      TypesAlternate(p, s, e - 1);
    }
  }

  /******* No other grouping has noticeably fewer groups *******/

  /** Node `v` goes to group `group[v]`, whose nodes are all of type `kinds[group[v]]`. */
  datatype Grouping = Grouping(kinds: seq<NodeType>, group: seq<nat>)

  /** Groups are of one type, and no node is in an earlier group than a node it depends on. */
  ghost predicate Respects(p: Problem, h: Grouping)
    requires ValidProblem(p)
  {
    && |h.group| == |p.g.nodes|
    && (forall j :: 0 <= j < |h.kinds| ==> !h.kinds[j].Unexplored?)
    && (forall v :: 0 <= v < |h.group| ==> h.group[v] < |h.kinds| && h.kinds[h.group[v]] == p.types[v])
    && (forall v, u :: 0 <= v < |h.group| && 0 <= u < |h.group| && DependsOn(p.g, v, u) ==> h.group[u] <= h.group[v])
  }

  /** How often the type changes among the groups `0..j`. */
  function Changes(kinds: seq<NodeType>, j: nat): (c: nat)
    requires j < |kinds|
    ensures c <= j
  {
    if j == 0 then 0 else Changes(kinds, j - 1) + if kinds[j] == kinds[j - 1] then 0 else 1
  }

  lemma {:induction false} ChangesGrow(kinds: seq<NodeType>, i: nat, j: nat)
    requires i <= j < |kinds|
    ensures Changes(kinds, i) <= Changes(kinds, j)
    decreases j
  {
    if i < j {
      ChangesGrow(kinds, i, j - 1);
    }
  }

  lemma {:induction false} ChangesDecideType(kinds: seq<NodeType>, j: nat)
    requires j < |kinds| && forall i :: 0 <= i < |kinds| ==> !kinds[i].Unexplored?
    ensures kinds[j] == if Changes(kinds, j) % 2 == 0 then kinds[0] else Other(kinds[0])
  {
    if j > 0 {
      ChangesDecideType(kinds, j - 1);
    }
  }

  /** 1 if the other grouping starts with the other type. */
  function Handicap(s: Progress, h: Grouping): nat
    requires s.subsets != [] && h.kinds != []
  {
    if h.kinds[0] == s.subsets[0].kind then 0 else 1
  }

  /** Every node comes in greedy epochs at least as early as in any other grouping. */
  lemma {:induction false} GreedyIsEarliest(p: Problem, s: Progress, h: Grouping, v: nat)
    requires Partitioned(p, s) && Topological(p.g) && Respects(p, h) && v < |p.g.nodes|
    requires s.subsets != [] && h.kinds != []
    ensures s.nodeEpochs[v] <= Changes(h.kinds, h.group[v]) + Handicap(s, h)
    decreases v
  {
    var limit := Changes(h.kinds, h.group[v]) + Handicap(s, h);
    forall u | 0 <= u < |p.g.nodes| && DependsOn(p.g, v, u)
      ensures !After(s.nodeEpochs[u], limit)
    {
      assert Assigned(s, u);
      DependenciesAreEarlier(p.g, v, u);
      GreedyIsEarliest(p, s, h, u);
      ChangesGrow(h.kinds, h.group[u], h.group[v]);
    }
    assert !Waits(p, s, limit, v);
    if limit < |s.subsets| {
      ChangesDecideType(h.kinds, h.group[v]);
      assert s.subsets[0].nodes != [];
      TypeByParity(p, s, limit);
      assert s.subsets[limit].kind == p.types[v] && Exhausted(p, s, limit);
    }
  }

  /** No grouping that starts with the same type has fewer groups; none at all has two fewer. */
  lemma GreedyIsOptimal(p: Problem, s: Progress, h: Grouping)
    requires Partitioned(p, s) && Topological(p.g) && Respects(p, h)
    ensures s.subsets != [] ==> h.kinds != [] && |s.subsets| <= |h.kinds| + Handicap(s, h)
  {
    if s.subsets != [] {
      var k := FirstOf(p, s, |s.subsets| - 1);
      var v := s.order[k];
      assert h.group[v] < |h.kinds|;
      GreedyIsEarliest(p, s, h, v);
    }
  }

  /** The greedy subsets are themselves such a grouping, so the bound is met. */
  lemma GreedyRespects(p: Problem, s: Progress)
    requires Partitioned(p, s)
    ensures Respects(p, Grouping(seq(|s.subsets|, e requires 0 <= e < |s.subsets| => s.subsets[e].kind),
                                 seq(|p.g.nodes|, v requires 0 <= v < |p.g.nodes| =>
                                     if s.nodeEpochs[v] >= 0 then s.nodeEpochs[v] else 0)))
  {
    forall v | 0 <= v < |p.g.nodes|
      ensures 0 <= s.nodeEpochs[v] < |s.subsets| && s.subsets[s.nodeEpochs[v]].kind == p.types[v]
    {
      assert Assigned(s, v);
    }
    forall e | 0 <= e < |s.subsets|
      ensures !s.subsets[e].kind.Unexplored?
    {
      assert s.subsets[e].nodes != [];
    }
    forall v, u | 0 <= v < |p.g.nodes| && 0 <= u < |p.g.nodes| && DependsOn(p.g, v, u)
      ensures s.nodeEpochs[u] <= s.nodeEpochs[v]
    {
      DependenciesInEarlierSubsets(p, s, v, u);
    }
  }
}
