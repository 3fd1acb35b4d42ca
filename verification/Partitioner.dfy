/** PartitionGraphIntoIndependentNodeSubsetsImpl (tensorflow/lite/graph_info.cc). */
module Partitioner {
  import opened TfliteGraph
  import opened PartitionSpec

  function InsertUnique(s: seq<int>, x: int): (r: seq<int>)
    requires Ascending(s)
    ensures Ascending(r)
    ensures forall y :: y in r <==> y in s || y == x
  {
    if s == [] || s[|s| - 1] < x then s + [x]
    else if s[|s| - 1] == x then s
    else
      var init, last := s[..|s| - 1], s[|s| - 1];
      assert s == init + [last];
      assert forall y :: y in init ==> y < last;
      var r := InsertUnique(init, x);
      assert forall y :: y in r ==> y < last;
      assert forall i :: 0 <= i < |r| ==> r[i] in r;
      r + [last]
  }

  /** std::sort, std::unique, erase. */
  function SortedUnique(s: seq<int>): (r: seq<int>)
    ensures Ascending(r)
    ensures forall y :: y in r <==> y in s
  {
    if s == [] then []
    else
      assert s == s[..|s| - 1] + [s[|s| - 1]];
      InsertUnique(SortedUnique(s[..|s| - 1]), s[|s| - 1])
  }

  /** What the inputs of a node add to the lists of the subsets. */
  ghost predicate ListsOf(tensorEpochs: seq<int>, was: seq<NodeSubset>, now: seq<NodeSubset>, inputs: seq<int>) {
    && |now| == |was|
    && forall e :: 0 <= e < |was| ==>
         && now[e].kind == was[e].kind && now[e].nodes == was[e].nodes
         && Grows(tensorEpochs, inputs, e, e == |was| - 1, was[e], now[e])
  }

  /** The subsets with graph outputs added, and nothing else changed. */
  ghost predicate OutputsMarked(tensorEpochs: seq<int>, outputs: seq<int>,
                                       was: seq<NodeSubset>, now: seq<NodeSubset>)
  {
    && |now| == |was|
    && forall e :: 0 <= e < |was| ==>
         && now[e] == was[e].(outputTensors := now[e].outputTensors)
         && forall t :: t in now[e].outputTensors <==>
              t in was[e].outputTensors || Within(tensorEpochs, outputs, t, e)
  }

  ghost predicate ListsSorted(was: seq<NodeSubset>, now: seq<NodeSubset>) {
    && |now| == |was|
    && forall e :: 0 <= e < |was| ==>
         && now[e].kind == was[e].kind && now[e].nodes == was[e].nodes
         && now[e].inputTensors == SortedUnique(was[e].inputTensors)
         && now[e].outputTensors == SortedUnique(was[e].outputTensors)
  }

  /** Marking graph outputs and sorting the lists completes the result of the epoch loop. */
  lemma ListsAreComplete(p: Problem, s: Progress, marked: seq<NodeSubset>, sorted: seq<NodeSubset>)
    requires Finished(p, s) && UniqueProducers(p.g) && Topological(p.g)
    requires OutputsMarked(s.tensorEpochs, p.g.outputs, s.subsets, marked) && ListsSorted(marked, sorted)
    ensures Partitioned(p, s.(subsets := sorted))
  {
    var n := s.(subsets := sorted);
    TopologicalPlansComplete(p, s);
    FinishedKeepsBasics(p, s, n);
    forall v | 0 <= v < |p.g.nodes|
      ensures Assigned(n, v)
    {
      assert v !in Unassigned(p, s);
    }
    assert forall e :: 0 <= e < |s.subsets| ==> Exhausted(p, s, e);
    hide Typed, Listed, CutByEpoch, UniqueProducers, Topological;
    forall e | 0 <= e < |n.subsets|
      ensures Exhausted(p, n, e)
    {
      SameEpochsSameExhausted(p, s, n, e);
    }
    hide Exhausted;
    FinishedListsBounded(p, s, marked, sorted);
  }

  lemma OutputsAreReady(p: Problem, s: Progress)
    requires Finished(p, s) && UniqueProducers(p.g) && Topological(p.g)
    ensures forall t :: 0 <= t < |p.g.tensors| ==> s.tensorEpochs[t] != NOT_READY
  {
    TopologicalPlansComplete(p, s);
    assert TensorsFollow(p, s);
    hide UniqueProducers, Topological, Listed, CutByEpoch, Typed, Exhausted;
    forall t | 0 <= t < |p.g.tensors|
      ensures s.tensorEpochs[t] != NOT_READY
    {
      if v :| 0 <= v < |p.g.nodes| && Produces(p.g, v, t) {
        assert v !in Unassigned(p, s);
      }
    }
  }

  lemma FinishedKeepsBasics(p: Problem, s: Progress, n: Progress)
    requires ValidProblem(p) && Shaped(p, s) && Listed(p, s) && CutByEpoch(p, s) && Typed(p, s)
    requires TensorsFollow(p, s) && DependenciesFirst(p, s)
    requires n == s.(subsets := n.subsets) && |n.subsets| == |s.subsets|
    requires forall e :: 0 <= e < |s.subsets| ==>
               n.subsets[e].kind == s.subsets[e].kind && n.subsets[e].nodes == s.subsets[e].nodes
    ensures Shaped(p, n) && Listed(p, n) && CutByEpoch(p, n) && Typed(p, n)
    ensures TensorsFollow(p, n) && DependenciesFirst(p, n)
  {
    SameNodesSameConcat(s.subsets, n.subsets);
    forall e | 0 <= e <= |s.subsets|
      ensures Concat(n.subsets[..e]) == Concat(s.subsets[..e])
    {
      SameNodesSameConcat(s.subsets[..e], n.subsets[..e]);
    }
  }

  lemma FinishedListsBounded(p: Problem, s: Progress, marked: seq<NodeSubset>, sorted: seq<NodeSubset>)
    requires ValidProblem(p) && Shaped(p, s) && Shaped(p, s.(subsets := sorted))
    requires InputsExact(p, s) && OutputsExact(p, s)
    requires OutputsMarked(s.tensorEpochs, p.g.outputs, s.subsets, marked) && ListsSorted(marked, sorted)
    ensures Bounded(p, s.(subsets := sorted))
  {
    var n := s.(subsets := sorted);
    forall e, t | 0 <= e < |sorted|
      ensures t in sorted[e].inputTensors <==> t in s.subsets[e].inputTensors
      ensures t in sorted[e].outputTensors <==>
              t in s.subsets[e].outputTensors || Within(s.tensorEpochs, p.g.outputs, t, e)
    {
      assert t in marked[e].outputTensors <==>
          t in s.subsets[e].outputTensors || Within(s.tensorEpochs, p.g.outputs, t, e);
    }
    forall e, t | 0 <= e < |sorted| && 0 <= t < |p.g.tensors|
      ensures ReadIn(p, n, e, t) == ReadIn(p, s, e, t) && ReadOutside(p, n, e, t) == ReadOutside(p, s, e, t)
    {
    }
  }

  class Partitioner {
    const g: Graph
    // By original node index, like the list of nodes to partition.
    const nodeType: seq<NodeType>
    var subsets: seq<NodeSubset>
    var tensorEpochs: seq<int>
    var nodeEpochs: seq<int>
    var controlDeps: seq<int>
    // The plan positions of the assigned nodes, in the order of assignment.
    ghost var order: seq<nat>

    ghost predicate Valid()
      reads this
    {
      && |g.nodeIndex| == |g.nodes|
      && (forall v :: 0 <= v < |g.nodes| ==> g.nodeIndex[v] < |nodeType|)
      && (forall x :: 0 <= x < |nodeType| ==> !nodeType[x].Unexplored?)
      && IndicesOk(g)
    }

    ghost function ProblemOf(): Problem
      requires Valid()
      reads this
      ensures ValidProblem(ProblemOf())
    {
      Problem(g, seq(|g.nodes|, v requires 0 <= v < |g.nodes| => nodeType[g.nodeIndex[v]]))
    }

    ghost function State(): Progress
      reads this
    {
      Progress(subsets, tensorEpochs, nodeEpochs, order)
    }

    constructor (g: Graph, numTotalNodes: nat, nodesToPartition: seq<nat>)
      requires IndicesOk(g) && |g.nodeIndex| == |g.nodes|
      requires forall v :: 0 <= v < |g.nodes| ==> g.nodeIndex[v] < numTotalNodes
      requires forall x :: x in nodesToPartition ==> x < numTotalNodes
      ensures Valid() && this.g == g && |nodeType| == numTotalNodes
      ensures forall x :: 0 <= x < numTotalNodes ==>
                nodeType[x] == if x in nodesToPartition then NodeType.Partition else NonPartition
    {
      this.g := g;
      this.nodeType := seq(numTotalNodes, x => if x in nodesToPartition then NodeType.Partition else NonPartition);
      subsets, tensorEpochs, nodeEpochs, controlDeps, order := [], [], [], [], [];
    }

    /** The control dependencies are in place and the invariant holds. */
    ghost predicate Going()
      reads this
    {
      && Valid() && Inv(ProblemOf(), State())
      && |controlDeps| == |g.nodes|
      && forall v :: 0 <= v < |g.nodes| ==> controlDeps[v] == ControlDep(g, v)
    }

    /** Whether nothing that node `v` needs is missing. */
    method IsReady(v: nat) returns (ready: bool)
      requires Going() && v < |g.nodes|
      ensures ready <==> Ready(ProblemOf(), State(), v)
    {
      if nodeEpochs[v] != NOT_READY {
        return false;
      }
      var inputs := g.nodes[v].inputs;
      for j := 0 to |inputs|
        invariant forall t :: 0 <= t < |tensorEpochs| && t in inputs[..j] ==> tensorEpochs[t] != NOT_READY
      {
        assert inputs[j] in inputs;
        assert inputs[..j + 1] == inputs[..j] + [inputs[j]];
        if inputs[j] != OPTIONAL && tensorEpochs[inputs[j]] == NOT_READY {
          assert Reads(g, v, inputs[j]);
          return false;
        }
      }
      assert inputs[..|inputs|] == inputs;
      ready := controlDeps[v] == -1 || nodeEpochs[controlDeps[v]] != NOT_READY;
    }

    /** Puts the outputs of node `v` in the current epoch. */
    method AssignOutputs(v: nat)
      requires v < |g.nodes| && AllIn(g.nodes[v].outputs, |tensorEpochs|)
      modifies this`tensorEpochs
      ensures |tensorEpochs| == |old(tensorEpochs)|
      ensures forall t :: 0 <= t < |tensorEpochs| ==>
                tensorEpochs[t] == if Produces(g, v, t) then |subsets| - 1 else old(tensorEpochs)[t]
    {
      var outputs := g.nodes[v].outputs;
      for j := 0 to |outputs|
        invariant |tensorEpochs| == |old(tensorEpochs)|
        invariant forall t :: 0 <= t < |tensorEpochs| ==>
                tensorEpochs[t] == if t in outputs[..j] then |subsets| - 1 else old(tensorEpochs)[t]
      {
        assert outputs[j] in outputs;
        assert outputs[..j + 1] == outputs[..j] + [outputs[j]];
        tensorEpochs := tensorEpochs[outputs[j] := |subsets| - 1];
      }
      assert outputs[..|outputs|] == outputs;
    }

    /** Records the inputs of node `v` that come from other epochs. */
    method RecordInputs(v: nat)
      requires v < |g.nodes| && AllInOrOptional(g.nodes[v].inputs, |tensorEpochs|)
      requires subsets != [] && forall t :: 0 <= t < |tensorEpochs| ==> tensorEpochs[t] < |subsets|
      modifies this`subsets
      ensures ListsOf(tensorEpochs, old(subsets), subsets, g.nodes[v].inputs)
    {
      var inputs := g.nodes[v].inputs;
      for j := 0 to |inputs|
        invariant ListsOf(tensorEpochs, old(subsets), subsets, inputs[..j])
      {
        assert inputs[j] in inputs;
        assert inputs[..j + 1] == inputs[..j] + [inputs[j]];
        RecordInput(inputs[j], old(subsets), inputs[..j]);
      }
      assert inputs[..|inputs|] == inputs;
    }

    method RecordInput(t: int, ghost was: seq<NodeSubset>, ghost inputs: seq<int>)
      requires t == OPTIONAL || 0 <= t < |tensorEpochs|
      requires was != [] && forall t :: 0 <= t < |tensorEpochs| ==> tensorEpochs[t] < |was|
      requires ListsOf(tensorEpochs, was, subsets, inputs)
      modifies this`subsets
      ensures ListsOf(tensorEpochs, was, subsets, inputs + [t])
    {
      if t == OPTIONAL {
        return;
      }
      var last, epoch := |subsets| - 1, tensorEpochs[t];
      if epoch != last {
        var current := subsets[last];
        subsets := subsets[last := current.(inputTensors := current.inputTensors + [t])];
        if epoch >= 0 {
          var source := subsets[epoch];
          subsets := subsets[epoch := source.(outputTensors := source.outputTensors + [t])];
        }
      }
      forall e | 0 <= e <= last
        ensures Grows(tensorEpochs, inputs + [t], e, e == last, was[e], subsets[e])
      {
        assert Grows(tensorEpochs, inputs, e, e == last, was[e], old(subsets)[e]);
      }
    }

    /** Assigns node `v` to the current epoch if it is ready and of the right type. */
    method UpdateNode(v: nat) returns (updated: bool)
      requires Going() && v < |g.nodes| && subsets != []
      modifies this`subsets, this`tensorEpochs, this`nodeEpochs, this`order
      ensures Going() && |subsets| == |old(subsets)|
      ensures updated <==> Assignable(ProblemOf(), old(State()), v)
      ensures if updated then Assigns(ProblemOf(), old(State()), v, State()) else State() == old(State())
    {
      var last := |subsets| - 1;
      var ready := IsReady(v);
      var kind := nodeType[g.nodeIndex[v]];
      if !ready || !(subsets[last].kind.Unexplored? || subsets[last].kind == kind) {
        return false;
      }
      Assign(v);
      updated := true;
    }

    method Assign(v: nat)
      requires Going() && v < |g.nodes| && subsets != [] && Assignable(ProblemOf(), State(), v)
      modifies this`subsets, this`tensorEpochs, this`nodeEpochs, this`order
      ensures Going() && Assigns(ProblemOf(), old(State()), v, State())
    {
      AssignInto(v);
      AssignKeepsInv(ProblemOf(), old(State()), v, State());
    }

    method AssignInto(v: nat)
      requires Valid() && Shaped(ProblemOf(), State()) && v < |g.nodes| && subsets != []
      modifies this`subsets, this`tensorEpochs, this`nodeEpochs, this`order
      ensures Assigns(ProblemOf(), old(State()), v, State())
    {
      var last := |subsets| - 1;
      var current := subsets[last];
      var kind := nodeType[g.nodeIndex[v]];
      subsets := subsets[last := current.(kind := kind, nodes := current.nodes + [g.nodeIndex[v]])];
      nodeEpochs := nodeEpochs[v := last];
      order := order + [v];
      AssignOutputs(v);
      RecordInputs(v);
    }

    /** Fills one new subset with all the nodes that can join it. */
    method BuildNodeSubset()
      requires Going()
      requires subsets != [] ==>
                 && subsets[|subsets| - 1].nodes != []
                 && (UniqueProducers(g) ==> Exhausted(ProblemOf(), State(), |subsets| - 1))
      modifies this`subsets, this`tensorEpochs, this`nodeEpochs, this`order
      ensures Going() && subsets != []
      ensures UniqueProducers(g) ==> Exhausted(ProblemOf(), State(), |subsets| - 1)
      ensures subsets[|subsets| - 1].nodes != [] ==>
                Unassigned(ProblemOf(), State()) < old(Unassigned(ProblemOf(), State()))
    {
      hide Shaped, Listed, CutByEpoch, Typed, TensorsFollow, DependenciesFirst, InputsExact, OutputsExact;
      hide Exhausted, Assignable;
      NewEpoch(ProblemOf(), State());
      subsets := subsets + [NodeSubset(Unexplored, [], [], [])];
      ghost var start := Unassigned(ProblemOf(), State());
      while true
        invariant Going() && subsets != []
        invariant Unassigned(ProblemOf(), State()) <= start
        invariant subsets[|subsets| - 1].nodes != [] ==> Unassigned(ProblemOf(), State()) < start
        decreases Unassigned(ProblemOf(), State())
      {
        var didSomething := UpdateAll();
        if !didSomething {
          if UniqueProducers(g) {
            EndOfEpoch(ProblemOf(), State());
          }
          return;
        }
      }
    }

    /** One pass over the plan. */
    method UpdateAll() returns (didSomething: bool)
      requires Going() && subsets != []
      modifies this`subsets, this`tensorEpochs, this`nodeEpochs, this`order
      ensures Going() && |subsets| == |old(subsets)|
      ensures didSomething ==> Unassigned(ProblemOf(), State()) < old(Unassigned(ProblemOf(), State()))
      ensures !didSomething ==> State() == old(State())
      ensures !didSomething ==> forall v :: 0 <= v < |g.nodes| ==> !Assignable(ProblemOf(), State(), v)
    {
      hide Shaped, Listed, CutByEpoch, Typed, TensorsFollow, DependenciesFirst, InputsExact, OutputsExact, Exhausted;
      hide Assignable, Assigns;
      didSomething := false;
      for v := 0 to |g.nodes|
        invariant Going() && |subsets| == |old(subsets)|
        invariant didSomething ==> Unassigned(ProblemOf(), State()) < old(Unassigned(ProblemOf(), State()))
        invariant !didSomething ==> State() == old(State())
        invariant !didSomething ==> forall w :: 0 <= w < v ==> !Assignable(ProblemOf(), State(), w)
      {
        ghost var before := State();
        var updated := UpdateNode(v);
        if updated {
          AssigningShrinks(ProblemOf(), before, v, State());
          didSomething := true;
        }
      }
    }

    static lemma AssigningShrinks(p: Problem, was: Progress, v: nat, now: Progress)
      requires ValidProblem(p) && Shaped(p, was) && v < |p.g.nodes| && was.subsets != []
      requires Assignable(p, was, v) && Assigns(p, was, v, now)
      ensures Unassigned(p, now) < Unassigned(p, was)
    {
      assert v in Unassigned(p, was) && v !in Unassigned(p, now);
    }

    /** Clears the state and computes the control dependencies. */
    method Initialize()
      requires Valid()
      modifies this
      ensures Going() && subsets == [] && order == []
    {
      subsets, order := [], [];
      nodeEpochs := seq(|g.nodes|, _ => NOT_READY);
      ChainEffects();
      MarkComputed();
      assert OriginalIndices(g, order) == [];
    }

    method ChainEffects()
      modifies this`controlDeps
      ensures |controlDeps| == |g.nodes|
      ensures forall v :: 0 <= v < |g.nodes| ==> controlDeps[v] == ControlDep(g, v)
    {
      controlDeps := seq(|g.nodes|, _ => 0);
      var lastEffect := -1;
      for v := 0 to |g.nodes|
        invariant |controlDeps| == |g.nodes| && lastEffect == PreviousEffect(g, v)
        invariant forall w :: 0 <= w < v ==> controlDeps[w] == ControlDep(g, w)
      {
        controlDeps := controlDeps[v := -1];
        if g.nodes[v].sideEffect {
          if lastEffect != -1 {
            controlDeps := controlDeps[v := lastEffect];
          }
          lastEffect := v;
        }
      }
    }

    /** Tensors are ready from the start unless a node computes them. */
    method MarkComputed()
      requires IndicesOk(g)
      modifies this`tensorEpochs
      ensures |tensorEpochs| == |g.tensors|
      ensures forall t :: 0 <= t < |g.tensors| ==> tensorEpochs[t] in {NOT_READY, ALWAYS_READY}
      ensures forall t :: 0 <= t < |g.tensors| ==>
                (tensorEpochs[t] == NOT_READY <==> exists v :: 0 <= v < |g.nodes| && Produces(g, v, t))
    {
      tensorEpochs := seq(|g.tensors|, _ => ALWAYS_READY);
      for v := 0 to |g.nodes|
        invariant |tensorEpochs| == |g.tensors|
        invariant forall t :: 0 <= t < |g.tensors| ==> tensorEpochs[t] in {NOT_READY, ALWAYS_READY}
        invariant forall t :: 0 <= t < |g.tensors| ==>
                (tensorEpochs[t] == NOT_READY <==> exists w :: 0 <= w < v && Produces(g, w, t))
      {
        ghost var before := tensorEpochs;
        var outputs := g.nodes[v].outputs;
        for j := 0 to |outputs|
          invariant |tensorEpochs| == |g.tensors|
          invariant forall t :: 0 <= t < |g.tensors| ==>
                  tensorEpochs[t] == if t in outputs[..j] then NOT_READY else before[t]
        {
          assert outputs[j] in outputs;
          assert outputs[..j + 1] == outputs[..j] + [outputs[j]];
          tensorEpochs := tensorEpochs[outputs[j] := NOT_READY];
        }
        assert outputs[..|outputs|] == outputs;
        forall t | 0 <= t < |g.tensors|
          ensures tensorEpochs[t] == NOT_READY <==> exists w :: 0 <= w < v + 1 && Produces(g, w, t)
        {
          assert tensorEpochs[t] == NOT_READY <==> Produces(g, v, t) || before[t] == NOT_READY;
        }
      }
    }

    /** The epoch loop; it ends on every graph, cyclic ones included. */
    method BuildNodeSubsets()
      requires Going() && subsets == []
      modifies this`subsets, this`tensorEpochs, this`nodeEpochs, this`order
      ensures Going() && Finished(ProblemOf(), State())
    {
      hide Shaped, Listed, CutByEpoch, Typed, TensorsFollow, DependenciesFirst, InputsExact, OutputsExact, Exhausted;
      while true
        invariant Going()
        invariant subsets != [] ==>
                    && subsets[|subsets| - 1].nodes != []
                    && (UniqueProducers(g) ==> Exhausted(ProblemOf(), State(), |subsets| - 1))
        decreases Unassigned(ProblemOf(), State())
      {
        BuildNodeSubset();
        if subsets[|subsets| - 1].nodes == [] {
          PopEpoch(ProblemOf(), State());
          subsets := subsets[..|subsets| - 1];
          return;
        }
      }
    }

    /** Adds graph outputs to their subsets; fails where the source would index subset -1. */
    method MarkOutputs() returns (ok: bool)
      requires AllIn(g.outputs, |tensorEpochs|)
      requires forall t :: 0 <= t < |tensorEpochs| ==> ALWAYS_READY <= tensorEpochs[t] < |subsets|
      modifies this`subsets
      ensures ok <==> forall t :: t in g.outputs && 0 <= t < |tensorEpochs| ==> tensorEpochs[t] != NOT_READY
      ensures ok ==> OutputsMarked(tensorEpochs, g.outputs, old(subsets), subsets)
    {
      var outputs := g.outputs;
      for j := 0 to |outputs|
        invariant OutputsMarked(tensorEpochs, outputs[..j], old(subsets), subsets)
        invariant forall k :: 0 <= k < j ==> outputs[k] in outputs && tensorEpochs[outputs[k]] != NOT_READY
      {
        var t := outputs[j];
        assert t in outputs;
        assert outputs[..j + 1] == outputs[..j] + [t];
        var epoch := tensorEpochs[t];
        if epoch == ALWAYS_READY {
          continue;
        }
        if epoch == NOT_READY {
          return false;
        }
        var subset := subsets[epoch];
        subsets := subsets[epoch := subset.(outputTensors := subset.outputTensors + [t])];
      }
      assert outputs[..|outputs|] == outputs;
      ok := true;
    }

    method SortLists()
      modifies this`subsets
      ensures ListsSorted(old(subsets), subsets)
    {
      hide SortedUnique;
      for e := 0 to |subsets|
        invariant |subsets| == |old(subsets)|
        invariant forall f :: 0 <= f < e ==>
                    && subsets[f].kind == old(subsets)[f].kind && subsets[f].nodes == old(subsets)[f].nodes
                    && subsets[f].inputTensors == SortedUnique(old(subsets)[f].inputTensors)
                    && subsets[f].outputTensors == SortedUnique(old(subsets)[f].outputTensors)
        invariant forall f :: e <= f < |subsets| ==> subsets[f] == old(subsets)[f]
      {
        var subset := subsets[e];
        subsets := subsets[e := subset.(inputTensors := SortedUnique(subset.inputTensors),
                                        outputTensors := SortedUnique(subset.outputTensors))];
      }
    }

    /**
     Regroups the execution plan into subsets of one type each. On every graph the epoch loop ends with
     `built`; then graph outputs are marked, unless one was never produced, and the lists sorted.
     */
    method Partition() returns (ok: bool, ghost built: Progress)
      requires Valid()
      modifies this
      ensures Valid() && Finished(ProblemOf(), built)
      ensures nodeEpochs == built.nodeEpochs && tensorEpochs == built.tensorEpochs && order == built.order
      ensures ok <==> forall t :: t in g.outputs ==> 0 <= t < |tensorEpochs| && tensorEpochs[t] != NOT_READY
      ensures ok ==> Completes(built.subsets, subsets)
      ensures UniqueProducers(g) && Topological(g) ==> ok && Partitioned(ProblemOf(), State())
    {
      hide Listed, CutByEpoch, Typed, TensorsFollow, DependenciesFirst, InputsExact, OutputsExact, Exhausted, Blocked,
           Bounded, OutputsMarked, ListsSorted;
      Initialize();
      BuildNodeSubsets();
      built := State();
      if UniqueProducers(g) && Topological(g) {
        OutputsAreReady(ProblemOf(), built);
      }
      ok := MarkOutputs();
      if !ok {
        return;
      }
      ghost var marked := subsets;
      SortLists();
      if UniqueProducers(g) && Topological(g) {
        ListsAreComplete(ProblemOf(), built, marked, subsets);
      }
    }

    /** Graph outputs are added to the subsets of their epochs, and all lists sorted without repetition. */
    ghost predicate Completes(was: seq<NodeSubset>, now: seq<NodeSubset>)
      reads this
    {
      exists marked :: OutputsMarked(tensorEpochs, g.outputs, was, marked) && ListsSorted(marked, now)
    }
  }
}
