/** The states through which the partitioner of tensorflow/lite/graph_info.cc passes. */
module PartitionSpec {
  import opened TfliteGraph

  datatype NodeType = Unexplored | Partition | NonPartition

  datatype NodeSubset = NodeSubset(kind: NodeType, nodes: seq<nat>, inputTensors: seq<int>, outputTensors: seq<int>)

  const NOT_READY := -1
  const ALWAYS_READY := -2

  /** A graph and the type of each of its plan nodes. */
  datatype Problem = Problem(g: Graph, types: seq<NodeType>)

  ghost predicate ValidProblem(p: Problem) {
    && IndicesOk(p.g)
    && |p.types| == |p.g.nodes| == |p.g.nodeIndex|
    && forall v :: 0 <= v < |p.types| ==> !p.types[v].Unexplored?
  }

  /** The last node before `n` that might have a side effect, or -1. */
  function PreviousEffect(g: Graph, n: nat): (u: int)
    requires n <= |g.nodes|
    ensures -1 <= u < n
    ensures u >= 0 ==> g.nodes[u].sideEffect
    ensures forall w :: u < w < n ==> !g.nodes[w].sideEffect
  {
    if n == 0 then -1 else if g.nodes[n - 1].sideEffect then n - 1 else PreviousEffect(g, n - 1)
  }

  /** control_deps_: nodes with side effects form a chain. */
  function ControlDep(g: Graph, v: nat): int
    requires v < |g.nodes|
  {
    if g.nodes[v].sideEffect then PreviousEffect(g, v) else -1
  }

  /** Node `v` must not run before node `u`. */
  ghost predicate DependsOn(g: Graph, v: nat, u: nat)
    requires v < |g.nodes| && u < |g.nodes|
  {
    ControlDep(g, v) == u || exists t :: Reads(g, v, t) && Produces(g, u, t)
  }

  /** The partitioner's variables; `order` lists the assigned plan nodes in the order of assignment. */
  datatype Progress = Progress(subsets: seq<NodeSubset>, tensorEpochs: seq<int>, nodeEpochs: seq<int>, order: seq<nat>)

  ghost predicate Shaped(p: Problem, s: Progress) {
    && |s.nodeEpochs| == |p.g.nodes| && |s.tensorEpochs| == |p.g.tensors|
    && (forall v :: 0 <= v < |s.nodeEpochs| ==> NOT_READY <= s.nodeEpochs[v] < |s.subsets|)
    && (forall t :: 0 <= t < |s.tensorEpochs| ==> ALWAYS_READY <= s.tensorEpochs[t] < |s.subsets|)
    && (forall k :: 0 <= k < |s.order| ==> s.order[k] < |p.g.nodes|)
  }

  predicate Assigned(s: Progress, v: int) {
    0 <= v < |s.nodeEpochs| && s.nodeEpochs[v] >= 0
  }

  function Concat(subsets: seq<NodeSubset>): seq<nat> {
    if subsets == [] then [] else Concat(subsets[..|subsets| - 1]) + subsets[|subsets| - 1].nodes
  }

  function OriginalIndices(g: Graph, order: seq<nat>): seq<nat>
    requires |g.nodeIndex| == |g.nodes| && forall k :: 0 <= k < |order| ==> order[k] < |g.nodes|
  {
    seq(|order|, k requires 0 <= k < |order| => g.nodeIndex[order[k]])
  }

  /** The assigned nodes are listed once each, epoch by epoch, and the subsets hold them in that order. */
  ghost predicate Listed(p: Problem, s: Progress)
    requires Shaped(p, s) && |p.g.nodeIndex| == |p.g.nodes|
  {
    && (forall i, j :: 0 <= i < j < |s.order| ==>
          s.order[i] != s.order[j] && s.nodeEpochs[s.order[i]] <= s.nodeEpochs[s.order[j]])
    && (forall v :: 0 <= v < |p.g.nodes| ==> (Assigned(s, v) <==> v in s.order))
    && Concat(s.subsets) == OriginalIndices(p.g, s.order)
  }

  /** The subsets cut the list of assigned nodes where the epochs change. */
  ghost predicate CutByEpoch(p: Problem, s: Progress)
    requires Shaped(p, s)
  {
    forall e, k :: 0 <= e <= |s.subsets| && 0 <= k < |s.order| ==>
      (s.nodeEpochs[s.order[k]] < e <==> k < |Concat(s.subsets[..e])|)
  }

  /** A subset holds nodes of its own type, and is of no type while it is empty. */
  ghost predicate Typed(p: Problem, s: Progress)
    requires ValidProblem(p) && Shaped(p, s)
  {
    && (forall v :: 0 <= v < |p.g.nodes| && Assigned(s, v) ==> s.subsets[s.nodeEpochs[v]].kind == p.types[v])
    && (forall e :: 0 <= e < |s.subsets| ==> (s.subsets[e].nodes == [] <==> s.subsets[e].kind.Unexplored?))
    && (forall e :: 0 <= e < |s.subsets| - 1 ==> s.subsets[e].nodes != [])
    && (forall t :: 0 <= t < |p.g.tensors| && s.tensorEpochs[t] >= 0 ==> s.subsets[s.tensorEpochs[t]].nodes != [])
  }

  /** The epoch of a tensor is that of its producer. */
  ghost predicate TensorsFollow(p: Problem, s: Progress)
    requires Shaped(p, s)
  {
    && (forall v, t :: 0 <= v < |p.g.nodes| && 0 <= t < |p.g.tensors| && Produces(p.g, v, t) ==>
          s.tensorEpochs[t] == s.nodeEpochs[v])
    && (forall t :: 0 <= t < |p.g.tensors| && (forall v :: 0 <= v < |p.g.nodes| ==> !Produces(p.g, v, t)) ==>
          s.tensorEpochs[t] == ALWAYS_READY)
  }

  /** Everything a node depends on was assigned before it. */
  ghost predicate DependenciesFirst(p: Problem, s: Progress)
    requires Shaped(p, s)
  {
    forall k, u :: 0 <= k < |s.order| && 0 <= u < |p.g.nodes| && DependsOn(p.g, s.order[k], u) ==> u in s.order[..k]
  }

  /** A node in epoch `e` reads `t`. */
  ghost predicate ReadIn(p: Problem, s: Progress, e: int, t: int)
    requires Shaped(p, s)
  {
    exists v :: 0 <= v < |p.g.nodes| && s.nodeEpochs[v] == e && Reads(p.g, v, t)
  }

  /** An assigned node outside epoch `e` reads `t`. */
  ghost predicate ReadOutside(p: Problem, s: Progress, e: int, t: int)
    requires Shaped(p, s)
  {
    exists v :: 0 <= v < |p.g.nodes| && Assigned(s, v) && s.nodeEpochs[v] != e && Reads(p.g, v, t)
  }

  /** The inputs of a subset are what its nodes read from elsewhere. */
  ghost predicate InputsExact(p: Problem, s: Progress)
    requires Shaped(p, s)
  {
    && (forall e :: 0 <= e < |s.subsets| ==> AllIn(s.subsets[e].inputTensors, |p.g.tensors|))
    && (forall e, t :: 0 <= e < |s.subsets| && 0 <= t < |p.g.tensors| ==>
          (t in s.subsets[e].inputTensors <==> ReadIn(p, s, e, t) && s.tensorEpochs[t] != e))
  }

  /** The outputs of a subset are what other subsets read from it. */
  ghost predicate OutputsExact(p: Problem, s: Progress)
    requires Shaped(p, s)
  {
    && (forall e :: 0 <= e < |s.subsets| ==> AllIn(s.subsets[e].outputTensors, |p.g.tensors|))
    && (forall e, t :: 0 <= e < |s.subsets| && 0 <= t < |p.g.tensors| ==>
          (t in s.subsets[e].outputTensors <==> ReadOutside(p, s, e, t) && s.tensorEpochs[t] == e))
  }

  /** Not assigned when epoch `e` ended. */
  predicate After(epoch: int, e: int) { epoch == NOT_READY || epoch > e }

  /** Node `v` depends on a node that was left over when epoch `e` ended. */
  ghost predicate Waits(p: Problem, s: Progress, e: nat, v: nat)
    requires Shaped(p, s) && v < |p.g.nodes|
  {
    exists u :: 0 <= u < |p.g.nodes| && DependsOn(p.g, v, u) && After(s.nodeEpochs[u], e)
  }

  /** When epoch `e` ended, each node that was left over and of its type depended on another one left over. */
  ghost predicate Exhausted(p: Problem, s: Progress, e: nat)
    requires Shaped(p, s) && |p.types| == |p.g.nodes| && e < |s.subsets|
  {
    forall v {:trigger Waits(p, s, e, v)} ::
      (0 <= v < |p.g.nodes| && After(s.nodeEpochs[v], e)
       && (s.subsets[e].kind.Unexplored? || p.types[v] == s.subsets[e].kind)) ==> Waits(p, s, e, v)
  }

  /** What holds throughout, on every graph; and what holds if no tensor has two producers. */
  ghost predicate Inv(p: Problem, s: Progress) {
    && ValidProblem(p) && Shaped(p, s) && Listed(p, s) && CutByEpoch(p, s) && Typed(p, s)
    && (UniqueProducers(p.g) ==>
          && TensorsFollow(p, s) && DependenciesFirst(p, s) && InputsExact(p, s) && OutputsExact(p, s)
          && forall e :: 0 <= e < |s.subsets| - 1 ==> Exhausted(p, s, e))
  }

  /******* One assignment *******/

  /** Nothing that node `v` needs is missing. */
  ghost predicate Ready(p: Problem, s: Progress, v: nat)
    requires ValidProblem(p) && Shaped(p, s) && v < |p.g.nodes|
  {
    && !Assigned(s, v)
    && (forall t :: 0 <= t < |p.g.tensors| && Reads(p.g, v, t) ==> s.tensorEpochs[t] != NOT_READY)
    && (ControlDep(p.g, v) != -1 ==> Assigned(s, ControlDep(p.g, v)))
  }

  /** Node `v` is ready and may join the current subset. */
  ghost predicate Assignable(p: Problem, s: Progress, v: nat)
    requires ValidProblem(p) && Shaped(p, s) && v < |p.g.nodes| && s.subsets != []
  {
    var kind := s.subsets[|s.subsets| - 1].kind;
    Ready(p, s, v) && (kind.Unexplored? || kind == p.types[v])
  }

  /** `now` comes from `was` when node `v` is assigned to the current subset. */
  ghost predicate Assigns(p: Problem, was: Progress, v: nat, now: Progress)
    requires ValidProblem(p) && v < |p.g.nodes|
  {
    var last := |was.subsets| - 1;
    && was.subsets != [] && |now.subsets| == |was.subsets|
    && now.order == was.order + [v]
    && v < |was.nodeEpochs| && now.nodeEpochs == was.nodeEpochs[v := last]
    && |now.tensorEpochs| == |was.tensorEpochs|
    && (forall t :: 0 <= t < |now.tensorEpochs| ==>
          now.tensorEpochs[t] == if Produces(p.g, v, t) then last else was.tensorEpochs[t])
    && now.subsets[last].kind == p.types[v]
    && now.subsets[last].nodes == was.subsets[last].nodes + [p.g.nodeIndex[v]]
    && (forall e :: 0 <= e < last ==>
          now.subsets[e].kind == was.subsets[e].kind && now.subsets[e].nodes == was.subsets[e].nodes)
    && ListsGrow(p, was, v, now)
  }

  /** `t` is among `inputs` and in epoch `e`. */
  predicate Within(tensorEpochs: seq<int>, inputs: seq<int>, t: int, e: int) {
    0 <= t < |tensorEpochs| && t in inputs && tensorEpochs[t] == e
  }

  predicate Outside(tensorEpochs: seq<int>, inputs: seq<int>, t: int, e: int) {
    0 <= t < |tensorEpochs| && t in inputs && tensorEpochs[t] != e
  }

  /** What reading `inputs` in the current epoch adds to the lists of the subset of epoch `e`. */
  ghost predicate Grows(tensorEpochs: seq<int>, inputs: seq<int>, e: int, current: bool,
                        was: NodeSubset, now: NodeSubset)
  {
    && (forall t :: t in now.inputTensors <==>
          t in was.inputTensors || (current && Outside(tensorEpochs, inputs, t, e)))
    && (forall t :: t in now.outputTensors <==>
          t in was.outputTensors || (!current && Within(tensorEpochs, inputs, t, e)))
  }

  /** The inputs of `v` from other epochs become inputs of the current subset and outputs of theirs. */
  ghost predicate ListsGrow(p: Problem, was: Progress, v: nat, now: Progress)
    requires v < |p.g.nodes| && |now.subsets| == |was.subsets|
  {
    forall e :: 0 <= e < |was.subsets| ==>
      Grows(now.tensorEpochs, p.g.nodes[v].inputs, e, e == |was.subsets| - 1, was.subsets[e], now.subsets[e])
  }

  lemma AssignKeepsListed(p: Problem, was: Progress, v: nat, now: Progress)
    requires ValidProblem(p) && Shaped(p, was) && Listed(p, was) && v < |p.g.nodes|
    requires !Assigned(was, v) && Assigns(p, was, v, now)
    ensures Shaped(p, now) && Listed(p, now)
  {
    hide ListsGrow;
    var last := |was.subsets| - 1;
    SameNodesSameConcat(was.subsets[..last], now.subsets[..last]);
    assert OriginalIndices(p.g, now.order) == OriginalIndices(p.g, was.order) + [p.g.nodeIndex[v]];
  }

  lemma AssignKeepsCut(p: Problem, was: Progress, v: nat, now: Progress)
    requires ValidProblem(p) && Shaped(p, was) && Listed(p, was) && CutByEpoch(p, was) && v < |p.g.nodes|
    requires !Assigned(was, v) && Assigns(p, was, v, now) && Shaped(p, now) && Listed(p, now)
    ensures CutByEpoch(p, now)
  {
    hide ListsGrow;
    var last := |was.subsets| - 1;
    assert now.subsets[..last + 1] == now.subsets;
    assert forall f :: 0 <= f < last ==> was.subsets[f].nodes == now.subsets[f].nodes;
    forall e, k | 0 <= e <= |now.subsets| && 0 <= k < |now.order|
      ensures now.nodeEpochs[now.order[k]] < e <==> k < |Concat(now.subsets[..e])|
    {
      if e <= last {
        SameNodesSameConcat(was.subsets[..e], now.subsets[..e]);
        ConcatGrows(was.subsets, e);
        if k < |was.order| {
          assert now.order[k] == was.order[k];
          assert now.order[k] in was.order && now.order[k] != v;
        }
      }
    }
  }

  lemma {:induction false} ConcatGrows(subsets: seq<NodeSubset>, e: nat)
    requires e <= |subsets|
    ensures Concat(subsets[..e]) <= Concat(subsets)
  {
    if e == |subsets| {
      assert subsets[..e] == subsets;
    } else {
      ConcatGrows(subsets[..|subsets| - 1], e);
      assert subsets[..|subsets| - 1][..e] == subsets[..e];
    }
  }

  lemma {:induction false} SameNodesSameConcat(a: seq<NodeSubset>, b: seq<NodeSubset>)
    requires |a| == |b| && forall e :: 0 <= e < |a| ==> a[e].nodes == b[e].nodes
    ensures Concat(a) == Concat(b)
  {
    if a != [] {
      SameNodesSameConcat(a[..|a| - 1], b[..|b| - 1]);
    }
  }

  lemma AssignKeepsTyped(p: Problem, was: Progress, v: nat, now: Progress)
    requires ValidProblem(p) && Shaped(p, was) && Typed(p, was) && v < |p.g.nodes|
    requires was.subsets != [] && Assignable(p, was, v) && Assigns(p, was, v, now) && Shaped(p, now)
    ensures Typed(p, now)
  {
  }

  lemma AssignKeepsTensors(p: Problem, was: Progress, v: nat, now: Progress)
    requires ValidProblem(p) && Shaped(p, was) && v < |p.g.nodes| && UniqueProducers(p.g)
    requires TensorsFollow(p, was) && Assigns(p, was, v, now) && Shaped(p, now)
    ensures TensorsFollow(p, now)
  {
  }

  /** Where no tensor has two producers, a node is ready exactly when all it depends on is assigned. */
  lemma ReadyMeansDependenciesAssigned(p: Problem, s: Progress, v: nat)
    requires ValidProblem(p) && Shaped(p, s) && v < |p.g.nodes| && TensorsFollow(p, s)
    ensures Ready(p, s, v) <==>
            (!Assigned(s, v) && forall u :: 0 <= u < |p.g.nodes| && DependsOn(p.g, v, u) ==> Assigned(s, u))
  {
    if !Assigned(s, v) && forall u :: 0 <= u < |p.g.nodes| && DependsOn(p.g, v, u) ==> Assigned(s, u) {
      forall t | 0 <= t < |p.g.tensors| && Reads(p.g, v, t)
        ensures s.tensorEpochs[t] != NOT_READY
      {
        if u :| 0 <= u < |p.g.nodes| && Produces(p.g, u, t) {
          assert DependsOn(p.g, v, u);
        }
      }
      var c := ControlDep(p.g, v);
      if c != -1 {
        assert DependsOn(p.g, v, c);
      }
    }
  }

  lemma AssignKeepsDependencies(p: Problem, was: Progress, v: nat, now: Progress)
    requires ValidProblem(p) && Shaped(p, was) && Listed(p, was) && v < |p.g.nodes|
    requires TensorsFollow(p, was) && DependenciesFirst(p, was)
    requires Ready(p, was, v) && Assigns(p, was, v, now) && Shaped(p, now)
    ensures DependenciesFirst(p, now)
  {
    ReadyMeansDependenciesAssigned(p, was, v);
    forall k, u | 0 <= k < |now.order| && 0 <= u < |p.g.nodes| && DependsOn(p.g, now.order[k], u)
      ensures u in now.order[..k]
    {
      assert now.order[..k] == was.order[..k];
      if k == |was.order| {
        assert Assigned(was, u);
        assert was.order[..k] == was.order;
      } else {
        assert now.order[k] == was.order[k];
      }
    }
  }

  /** The tensors that assigned nodes read are never NOT_READY, so later assignments do not change them. */
  lemma ReadTensorsStay(p: Problem, was: Progress, v: nat, now: Progress, w: nat, t: int)
    requires ValidProblem(p) && Shaped(p, was) && Listed(p, was) && v < |p.g.nodes|
    requires TensorsFollow(p, was) && DependenciesFirst(p, was)
    requires !Assigned(was, v) && Assigns(p, was, v, now)
    requires w < |p.g.nodes| && Assigned(was, w) && 0 <= t < |p.g.tensors| && Reads(p.g, w, t)
    ensures now.tensorEpochs[t] == was.tensorEpochs[t]
  {
    var k :| 0 <= k < |was.order| && was.order[k] == w;
    assert !DependsOn(p.g, was.order[k], v);
  }

  lemma AssignKeepsInputs(p: Problem, was: Progress, v: nat, now: Progress)
    requires ValidProblem(p) && Shaped(p, was) && Listed(p, was) && v < |p.g.nodes|
    requires TensorsFollow(p, was) && DependenciesFirst(p, was) && InputsExact(p, was)
    requires !Assigned(was, v) && Assigns(p, was, v, now) && Shaped(p, now)
    ensures InputsExact(p, now)
  {
    forall e, t | 0 <= e < |now.subsets| && t in now.subsets[e].inputTensors
      ensures 0 <= t < |p.g.tensors|
    {
      assert t in was.subsets[e].inputTensors || Outside(now.tensorEpochs, p.g.nodes[v].inputs, t, e);
    }
    forall e, t | 0 <= e < |now.subsets| && 0 <= t < |p.g.tensors|
      ensures t in now.subsets[e].inputTensors <==> ReadIn(p, now, e, t) && now.tensorEpochs[t] != e
    {
      OldReadersStay(p, was, v, now, t);
      assert t in was.subsets[e].inputTensors <==> ReadIn(p, was, e, t) && was.tensorEpochs[t] != e;
      assert ReadIn(p, now, e, t) <==> ReadIn(p, was, e, t) || (e == |was.subsets| - 1 && Reads(p.g, v, t));
    }
  }

  lemma AssignKeepsOutputs(p: Problem, was: Progress, v: nat, now: Progress)
    requires ValidProblem(p) && Shaped(p, was) && Listed(p, was) && v < |p.g.nodes|
    requires TensorsFollow(p, was) && DependenciesFirst(p, was) && OutputsExact(p, was)
    requires !Assigned(was, v) && Assigns(p, was, v, now) && Shaped(p, now)
    ensures OutputsExact(p, now)
  {
    forall e, t | 0 <= e < |now.subsets| && t in now.subsets[e].outputTensors
      ensures 0 <= t < |p.g.tensors|
    {
      assert t in was.subsets[e].outputTensors || Within(now.tensorEpochs, p.g.nodes[v].inputs, t, e);
    }
    forall e, t | 0 <= e < |now.subsets| && 0 <= t < |p.g.tensors|
      ensures t in now.subsets[e].outputTensors <==> ReadOutside(p, now, e, t) && now.tensorEpochs[t] == e
    {
      OldReadersStay(p, was, v, now, t);
      assert t in was.subsets[e].outputTensors <==> ReadOutside(p, was, e, t) && was.tensorEpochs[t] == e;
      assert ReadOutside(p, now, e, t) <==> ReadOutside(p, was, e, t) || (e != |was.subsets| - 1 && Reads(p.g, v, t));
    }
  }

  lemma OldReadersStay(p: Problem, was: Progress, v: nat, now: Progress, t: nat)
    requires ValidProblem(p) && Shaped(p, was) && Listed(p, was) && v < |p.g.nodes| && t < |p.g.tensors|
    requires TensorsFollow(p, was) && DependenciesFirst(p, was)
    requires !Assigned(was, v) && Assigns(p, was, v, now)
    ensures now.nodeEpochs[v] == |was.subsets| - 1
    ensures forall w :: 0 <= w < |p.g.nodes| && w != v ==> now.nodeEpochs[w] == was.nodeEpochs[w]
    ensures forall e :: e >= 0 && (ReadIn(p, was, e, t) || ReadOutside(p, was, e, t)) ==>
              now.tensorEpochs[t] == was.tensorEpochs[t]
  {
    if w :| 0 <= w < |p.g.nodes| && Assigned(was, w) && Reads(p.g, w, t) {
      ReadTensorsStay(p, was, v, now, w, t);
    }
  }

  /** Ended epochs stay exhausted: what is assigned later was left over before. */
  lemma AssignKeepsExhausted(p: Problem, was: Progress, v: nat, now: Progress, e: nat)
    requires ValidProblem(p) && Shaped(p, was) && v < |p.g.nodes|
    requires e < |was.subsets| - 1 && Exhausted(p, was, e)
    requires !Assigned(was, v) && Assigns(p, was, v, now) && Shaped(p, now)
    ensures Exhausted(p, now, e)
  {
    forall w | 0 <= w < |p.g.nodes|
      ensures Waits(p, now, e, w) <==> Waits(p, was, e, w)
    {
    }
  }

  lemma AssignKeepsInv(p: Problem, was: Progress, v: nat, now: Progress)
    requires Inv(p, was) && v < |p.g.nodes| && was.subsets != []
    requires Assignable(p, was, v) && Assigns(p, was, v, now)
    ensures Inv(p, now)
  {
    AssignKeepsListed(p, was, v, now);
    AssignKeepsCut(p, was, v, now);
    AssignKeepsTyped(p, was, v, now);
    if UniqueProducers(p.g) {
      AssignKeepsTensors(p, was, v, now);
      AssignKeepsDependencies(p, was, v, now);
      AssignKeepsInputs(p, was, v, now);
      AssignKeepsOutputs(p, was, v, now);
      forall e | 0 <= e < |now.subsets| - 1
        ensures Exhausted(p, now, e)
      {
        AssignKeepsExhausted(p, was, v, now, e);
      }
    }
  }

  /** An epoch ends when nothing can join it; then it is exhausted. */
  lemma EndOfEpoch(p: Problem, s: Progress)
    requires Inv(p, s) && UniqueProducers(p.g) && s.subsets != []
    requires forall v :: 0 <= v < |p.g.nodes| ==> !Assignable(p, s, v)
    ensures Exhausted(p, s, |s.subsets| - 1)
  {
    var last := |s.subsets| - 1;
    forall v | 0 <= v < |p.g.nodes| && After(s.nodeEpochs[v], last)
               && (s.subsets[last].kind.Unexplored? || p.types[v] == s.subsets[last].kind)
      ensures Waits(p, s, last, v)
    {
      assert !Assignable(p, s, v);
      ReadyMeansDependenciesAssigned(p, s, v);
      var u :| 0 <= u < |p.g.nodes| && DependsOn(p.g, v, u) && !Assigned(s, u);
      assert After(s.nodeEpochs[u], last);
    }
  }

  lemma SameEpochsSameExhausted(p: Problem, s: Progress, n: Progress, e: nat)
    requires Shaped(p, s) && Shaped(p, n) && |p.types| == |p.g.nodes| && e < |s.subsets| && e < |n.subsets|
    requires n.nodeEpochs == s.nodeEpochs && n.subsets[e].kind == s.subsets[e].kind && Exhausted(p, s, e)
    ensures Exhausted(p, n, e)
  {
    forall v | 0 <= v < |p.g.nodes|
      ensures Waits(p, n, e, v) <==> Waits(p, s, e, v)
    {
    }
  }

  function WithNewSubset(s: Progress): Progress {
    s.(subsets := s.subsets + [NodeSubset(Unexplored, [], [], [])])
  }

  lemma NewEpochKeepsLists(p: Problem, s: Progress)
    requires Shaped(p, s) && InputsExact(p, s) && OutputsExact(p, s)
    ensures Shaped(p, WithNewSubset(s)) && InputsExact(p, WithNewSubset(s)) && OutputsExact(p, WithNewSubset(s))
  {
    var n := WithNewSubset(s);
    forall e, t | 0 <= e < |n.subsets| && 0 <= t < |p.g.tensors|
      ensures t in n.subsets[e].inputTensors <==> ReadIn(p, n, e, t) && n.tensorEpochs[t] != e
      ensures t in n.subsets[e].outputTensors <==> ReadOutside(p, n, e, t) && n.tensorEpochs[t] == e
    {
      assert ReadIn(p, n, e, t) == ReadIn(p, s, e, t);
      assert ReadOutside(p, n, e, t) == ReadOutside(p, s, e, t);
    }
  }

  lemma NewEpochKeepsBasics(p: Problem, s: Progress)
    requires ValidProblem(p) && Shaped(p, s) && Listed(p, s) && CutByEpoch(p, s) && Typed(p, s)
    requires s.subsets != [] ==> s.subsets[|s.subsets| - 1].nodes != []
    ensures var n := WithNewSubset(s); Shaped(p, n) && Listed(p, n) && CutByEpoch(p, n) && Typed(p, n)
  {
    hide CutByEpoch;
    var n := WithNewSubset(s);
    assert n.subsets[..|s.subsets|] == s.subsets;
    NewEpochKeepsCut(p, s);
  }

  lemma NewEpochKeepsCut(p: Problem, s: Progress)
    requires ValidProblem(p) && Shaped(p, s) && Listed(p, s) && CutByEpoch(p, s)
    requires Shaped(p, WithNewSubset(s)) && Listed(p, WithNewSubset(s))
    ensures CutByEpoch(p, WithNewSubset(s))
  {
    hide Listed;
    var n := WithNewSubset(s);
    forall e, k | 0 <= e <= |n.subsets| && 0 <= k < |n.order|
      ensures n.nodeEpochs[n.order[k]] < e <==> k < |Concat(n.subsets[..e])|
    {
      if e <= |s.subsets| {
        assert n.subsets[..e] == s.subsets[..e];
      } else {
        assert n.subsets[..e] == n.subsets && n.subsets[..|s.subsets|] == s.subsets[..|s.subsets|] == s.subsets;
      }
    }
  }

  lemma NewEpochKeepsOrder(p: Problem, s: Progress)
    requires ValidProblem(p) && Shaped(p, s) && Shaped(p, WithNewSubset(s))
    requires TensorsFollow(p, s) && DependenciesFirst(p, s)
    ensures TensorsFollow(p, WithNewSubset(s)) && DependenciesFirst(p, WithNewSubset(s))
  {
  }

  /** A new, empty subset starts the next epoch. */
  lemma NewEpoch(p: Problem, s: Progress)
    requires Inv(p, s)
    requires s.subsets != [] ==>
               && s.subsets[|s.subsets| - 1].nodes != []
               && (UniqueProducers(p.g) ==> Exhausted(p, s, |s.subsets| - 1))
    ensures Inv(p, WithNewSubset(s))
  {
    hide Shaped, Listed, CutByEpoch, Typed, TensorsFollow, DependenciesFirst, InputsExact, OutputsExact, Exhausted;
    var n := WithNewSubset(s);
    NewEpochKeepsBasics(p, s);
    if UniqueProducers(p.g) {
      NewEpochKeepsLists(p, s);
      NewEpochKeepsOrder(p, s);
      forall e | 0 <= e < |s.subsets|
        ensures Exhausted(p, n, e)
      {
        SameEpochsSameExhausted(p, s, n, e);
      }
    }
  }

  /******* The end of the epoch loop *******/

  ghost function Unassigned(p: Problem, s: Progress): set<int> {
    set v | 0 <= v < |p.g.nodes| && !Assigned(s, v)
  }

  /** Node `v` depends on a node that was never assigned. */
  ghost predicate Blocked(p: Problem, s: Progress, v: nat)
    requires v < |p.g.nodes|
  {
    exists u :: u in Unassigned(p, s) && DependsOn(p.g, v, u)
  }

  /** Every subset is nonempty and exhausted, and each node left over depends on another one left over. */
  ghost predicate Finished(p: Problem, s: Progress) {
    && Inv(p, s)
    && (forall e :: 0 <= e < |s.subsets| ==> s.subsets[e].nodes != [])
    && (UniqueProducers(p.g) ==>
          && (forall e :: 0 <= e < |s.subsets| ==> Exhausted(p, s, e))
          && forall v {:trigger Blocked(p, s, v)} :: v in Unassigned(p, s) ==> Blocked(p, s, v))
  }

  function WithoutLast(s: Progress): Progress
    requires s.subsets != []
  {
    s.(subsets := s.subsets[..|s.subsets| - 1])
  }

  /** When nothing could join a new epoch, its empty subset is taken away again. */
  lemma PopEpoch(p: Problem, s: Progress)
    requires Inv(p, s) && s.subsets != [] && s.subsets[|s.subsets| - 1].nodes == []
    requires UniqueProducers(p.g) ==> Exhausted(p, s, |s.subsets| - 1)
    ensures Finished(p, WithoutLast(s))
  {
    PopKeepsBasics(p, s);
    hide Listed, CutByEpoch;
    if UniqueProducers(p.g) {
      PopKeepsLists(p, s);
      hide TensorsFollow, DependenciesFirst, InputsExact, OutputsExact, Exhausted, Blocked;
      forall e | 0 <= e < |s.subsets| - 1
        ensures Exhausted(p, WithoutLast(s), e)
      {
        SameEpochsSameExhausted(p, s, WithoutLast(s), e);
      }
      LeftOversDepend(p, s);
    }
  }

  lemma PopKeepsBasics(p: Problem, s: Progress)
    requires ValidProblem(p) && Shaped(p, s) && Listed(p, s) && CutByEpoch(p, s) && Typed(p, s)
    requires s.subsets != [] && s.subsets[|s.subsets| - 1].nodes == []
    ensures Shaped(p, WithoutLast(s)) && Listed(p, WithoutLast(s)) && Typed(p, WithoutLast(s))
    ensures CutByEpoch(p, WithoutLast(s))
  {
    assert forall e :: 0 <= e < |s.subsets| ==> WithoutLast(s).subsets[..e] == s.subsets[..e];
    forall v | 0 <= v < |p.g.nodes|
      ensures s.nodeEpochs[v] != |s.subsets| - 1
    {
      assert Assigned(s, v) ==> s.subsets[s.nodeEpochs[v]].kind == p.types[v];
    }
  }

  lemma PopKeepsLists(p: Problem, s: Progress)
    requires s.subsets != [] && Shaped(p, s) && Shaped(p, WithoutLast(s))
    requires TensorsFollow(p, s) && DependenciesFirst(p, s) && InputsExact(p, s) && OutputsExact(p, s)
    ensures TensorsFollow(p, WithoutLast(s)) && DependenciesFirst(p, WithoutLast(s))
    ensures InputsExact(p, WithoutLast(s)) && OutputsExact(p, WithoutLast(s))
  {
    var n := WithoutLast(s);
    hide TensorsFollow, DependenciesFirst;
    forall e, t | 0 <= e < |n.subsets| && 0 <= t < |p.g.tensors|
      ensures t in n.subsets[e].inputTensors <==> ReadIn(p, n, e, t) && n.tensorEpochs[t] != e
      ensures t in n.subsets[e].outputTensors <==> ReadOutside(p, n, e, t) && n.tensorEpochs[t] == e
    {
      assert ReadIn(p, n, e, t) == ReadIn(p, s, e, t);
      assert ReadOutside(p, n, e, t) == ReadOutside(p, s, e, t);
    }
    assert InputsExact(p, n) && OutputsExact(p, n);
    PopKeepsOrder(p, s);
  }

  lemma PopKeepsOrder(p: Problem, s: Progress)
    requires s.subsets != [] && Shaped(p, s) && Shaped(p, WithoutLast(s))
    requires TensorsFollow(p, s) && DependenciesFirst(p, s)
    ensures TensorsFollow(p, WithoutLast(s)) && DependenciesFirst(p, WithoutLast(s))
  {
  }

  lemma LeftOversDepend(p: Problem, s: Progress)
    requires ValidProblem(p) && Shaped(p, s) && s.subsets != []
    requires s.subsets[|s.subsets| - 1].kind.Unexplored? && Exhausted(p, s, |s.subsets| - 1)
    ensures var n := WithoutLast(s);
            forall v {:trigger Blocked(p, n, v)} :: v in Unassigned(p, n) ==> Blocked(p, n, v)
  {
    var n := WithoutLast(s);
    forall v | v in Unassigned(p, n)
      ensures Blocked(p, n, v)
    {
      assert Waits(p, s, |s.subsets| - 1, v);
      var u :| 0 <= u < |p.g.nodes| && DependsOn(p.g, v, u) && After(s.nodeEpochs[u], |s.subsets| - 1);
      assert u in Unassigned(p, n);
    }
  }

  lemma DependenciesAreEarlier(g: Graph, v: nat, u: nat)
    requires v < |g.nodes| && u < |g.nodes| && Topological(g) && DependsOn(g, v, u)
    ensures u < v
  {
  }

  /** On a plan in topological order, the epoch loop assigns every node. */
  lemma TopologicalPlansComplete(p: Problem, s: Progress)
    requires Finished(p, s) && UniqueProducers(p.g) && Topological(p.g)
    ensures Unassigned(p, s) == {}
  {
    hide Inv, Exhausted, UniqueProducers;
    if v :| v in Unassigned(p, s) {
      var m := Least(p, s, v);
      assert Blocked(p, s, m);
      var u :| u in Unassigned(p, s) && DependsOn(p.g, m, u);
      DependenciesAreEarlier(p.g, m, u);
    }
  }

  lemma Least(p: Problem, s: Progress, v: int) returns (m: int)
    requires v in Unassigned(p, s)
    ensures m in Unassigned(p, s) && forall u :: u in Unassigned(p, s) ==> m <= u
  {
    m := 0;
    while m !in Unassigned(p, s)
      invariant 0 <= m <= v
      invariant forall u :: 0 <= u < m ==> u !in Unassigned(p, s)
      decreases v - m
    {
      m := m + 1;
    }
  }

  /******* The result *******/

  ghost predicate Ascending(s: seq<int>) {
    forall i, j :: 0 <= i < j < |s| ==> s[i] < s[j]
  }

  /** The boundary lists are exact and in ascending order without repetitions. */
  ghost predicate Bounded(p: Problem, s: Progress)
    requires Shaped(p, s)
  {
    && (forall e :: 0 <= e < |s.subsets| ==>
          Ascending(s.subsets[e].inputTensors) && Ascending(s.subsets[e].outputTensors))
    && (forall e :: 0 <= e < |s.subsets| ==>
          AllIn(s.subsets[e].inputTensors, |p.g.tensors|) && AllIn(s.subsets[e].outputTensors, |p.g.tensors|))
    && (forall e, t :: 0 <= e < |s.subsets| && 0 <= t < |p.g.tensors| ==>
          (t in s.subsets[e].inputTensors <==> ReadIn(p, s, e, t) && s.tensorEpochs[t] != e))
    && (forall e, t :: 0 <= e < |s.subsets| && 0 <= t < |p.g.tensors| ==>
          (t in s.subsets[e].outputTensors <==>
           s.tensorEpochs[t] == e && (ReadOutside(p, s, e, t) || t in p.g.outputs)))
  }

  /** What Partition() establishes on a plan in topological order without repeated producers. */
  ghost predicate Partitioned(p: Problem, s: Progress) {
    && ValidProblem(p) && Shaped(p, s) && Listed(p, s) && CutByEpoch(p, s) && Typed(p, s)
    && (forall v :: 0 <= v < |p.g.nodes| ==> Assigned(s, v))
    && (forall e :: 0 <= e < |s.subsets| ==> s.subsets[e].nodes != [] && Exhausted(p, s, e))
    && TensorsFollow(p, s) && DependenciesFirst(p, s) && Bounded(p, s)
  }
}
