/**
 Running each subset as one node.

 A delegate replaces a subset by a node that sees only the subset's inputs and gives only its outputs.
 Within it the nodes run in their order; what other tensors hold in there is arbitrary. The graph
 outputs and the state of the world are those of the plan.
 */
module PartitionFused {
  import opened TfliteGraph
  import opened PartitionSpec
  import opened PartitionMeaning

  /** Where subset `e` starts in the list of assigned nodes. */
  function Cut(s: Progress, e: nat): nat
    requires e <= |s.subsets|
  {
    |Concat(s.subsets[..e])|
  }

  lemma CutsGrow(p: Problem, s: Progress, e: nat)
    requires Partitioned(p, s) && e < |s.subsets|
    ensures Cut(s, e) <= Cut(s, e + 1) <= |s.order|
    ensures Cut(s, e + 1) == Cut(s, e) + |s.subsets[e].nodes|
    ensures Concat(s.subsets[..e + 1]) == Concat(s.subsets[..e]) + s.subsets[e].nodes
    ensures Concat(s.subsets[..e + 1]) <= Concat(s.subsets)
  {
    assert s.subsets[..e + 1][..e] == s.subsets[..e];
    ConcatGrows(s.subsets, e + 1);
  }

  /** The plan positions of the nodes of subset `e`, in their order. */
  function Slice(s: Progress, e: nat): seq<nat>
    requires e < |s.subsets| && Cut(s, e) <= Cut(s, e + 1) <= |s.order|
  {
    s.order[Cut(s, e)..Cut(s, e + 1)]
  }

  lemma SliceIsSubset(p: Problem, s: Progress, e: nat)
    requires Partitioned(p, s) && Injective(p.g.nodeIndex) && e < |s.subsets|
    ensures Cut(s, e) <= Cut(s, e + 1) <= |s.order|
    ensures forall i :: 0 <= i < |s.subsets[e].nodes| ==> s.subsets[e].nodes[i] in p.g.nodeIndex
    ensures Positions(p.g, s.subsets[e].nodes) == Slice(s, e)
  {
    hide CutByEpoch, Typed, TensorsFollow, Bounded, Exhausted, DependenciesFirst;
    CutsGrow(p, s, e);
    var nodes, slice, all := s.subsets[e].nodes, Slice(s, e), Concat(s.subsets);
    forall i | 0 <= i < |nodes|
      ensures nodes[i] == p.g.nodeIndex[slice[i]]
    {
      assert nodes[i] == Concat(s.subsets[..e + 1])[Cut(s, e) + i] == all[Cut(s, e) + i];
    }
  }

  lemma SliceIsEpoch(p: Problem, s: Progress, e: nat, j: nat)
    requires Partitioned(p, s) && e < |s.subsets|
    requires Cut(s, e) <= Cut(s, e + 1) <= |s.order| && j < |Slice(s, e)|
    ensures Slice(s, e)[j] < |p.g.nodes| && s.nodeEpochs[Slice(s, e)[j]] == e
  {
    hide Listed, Typed, TensorsFollow, Bounded, Exhausted, DependenciesFirst;
    var i := Cut(s, e) + j;
    assert s.nodeEpochs[s.order[i]] < e <==> i < |Concat(s.subsets[..e])|;
    assert s.nodeEpochs[s.order[i]] < e + 1 <==> i < |Concat(s.subsets[..e + 1])|;
  }

  /******* One fused node *******/

  /** What is visible inside: inputs of the subset, and the absent tensor of optional inputs. */
  predicate Enters(subset: NodeSubset, t: int) { t == OPTIONAL || t in subset.inputTensors }

  function Inside<V, W>(subset: NodeSubset, m: Memory<V, W>, junk: int -> V): Memory<V, W> {
    Memory(t => if Enters(subset, t) then m.tensors(t) else junk(t), m.world)
  }

  function RunFused<V, W>(g: Graph, k: Kernels<V, W>, m: Memory<V, W>, subset: NodeSubset, nodes: seq<nat>,
                          junk: int -> V): Memory<V, W>
    requires forall i :: 0 <= i < |nodes| ==> nodes[i] < |g.nodes|
  {
    var local := RunAll(g, k, Inside(subset, m, junk), nodes);
    Memory(t => if t in subset.outputTensors then local.tensors(t) else m.tensors(t), local.world)
  }

  /** The subsets below `n`, one fused node after the other. */
  function RunSubsets<V, W>(g: Graph, k: Kernels<V, W>, m: Memory<V, W>, subsets: seq<NodeSubset>,
                            junk: nat -> (int -> V), n: nat): Memory<V, W>
    requires n <= |subsets|
    requires forall e, i :: 0 <= e < |subsets| && 0 <= i < |subsets[e].nodes| ==> subsets[e].nodes[i] in g.nodeIndex
    requires |g.nodeIndex| == |g.nodes|
  {
    if n == 0 then m
    else RunFused(g, k, RunSubsets(g, k, m, subsets, junk, n - 1), subsets[n - 1],
                  Positions(g, subsets[n - 1].nodes), junk(n - 1))
  }

  /******* Inside and outside agree *******/

  lemma {:induction false} RunAllAppends<V(!new), W>(g: Graph, k: Kernels<V, W>, m: Memory<V, W>,
                                                     a: seq<nat>, b: seq<nat>)
    requires forall i :: 0 <= i < |a| ==> a[i] < |g.nodes|
    requires forall i :: 0 <= i < |b| ==> b[i] < |g.nodes|
    ensures RunAll(g, k, m, a + b) == RunAll(g, k, RunAll(g, k, m, a), b)
    decreases |b|
  {
    if b == [] {
      assert a + b == a;
    } else {
      RunAllAppends(g, k, m, a, b[..|b| - 1]);
      assert (a + b)[..|a + b| - 1] == a + b[..|b| - 1];
    }
  }

  ghost predicate ProducedBy(g: Graph, nodes: seq<nat>, t: int) {
    exists i :: 0 <= i < |nodes| && nodes[i] < |g.nodes| && Produces(g, nodes[i], t)
  }

  /** `t` enters the subset or one of `nodes` produces it. */
  ghost predicate Matters(g: Graph, subset: NodeSubset, nodes: seq<nat>, t: int) {
    Enters(subset, t) || ProducedBy(g, nodes, t)
  }

  /** Both memories hold the same where it matters after `nodes` have run inside the subset. */
  ghost predicate Agree<V(!new), W(!new)>(g: Graph, subset: NodeSubset, nodes: seq<nat>,
                                          a: Memory<V, W>, b: Memory<V, W>)
  {
    a.world == b.world && forall t :: Matters(g, subset, nodes, t) ==> a.tensors(t) == b.tensors(t)
  }

  /** A node that reads what agrees leaves what it writes in agreement. */
  lemma NodeAgrees<V(!new), W(!new)>(g: Graph, k: Kernels<V, W>, subset: NodeSubset, done: seq<nat>, v: nat,
                                     a: Memory<V, W>, b: Memory<V, W>)
    requires v < |g.nodes| && Agree(g, subset, done, a, b)
    requires forall t :: t in g.nodes[v].inputs ==> Matters(g, subset, done, t)
    ensures Agree(g, subset, done + [v], RunNode(g, k, a, v), RunNode(g, k, b, v))
  {
    var inputs := g.nodes[v].inputs;
    forall i | 0 <= i < |inputs|
      ensures a.tensors(inputs[i]) == b.tensors(inputs[i])
    {
      assert Matters(g, subset, done, inputs[i]);
    }
    assert Gather(a.tensors, inputs) == Gather(b.tensors, inputs);
    var longer := done + [v];
    forall t | Matters(g, subset, longer, t)
      ensures RunNode(g, k, a, v).tensors(t) == RunNode(g, k, b, v).tensors(t)
    {
      if !Produces(g, v, t) && ProducedBy(g, longer, t) {
        var i :| 0 <= i < |longer| && longer[i] < |g.nodes| && Produces(g, longer[i], t);
        assert done[i] == longer[i];
      }
      assert Produces(g, v, t) || Matters(g, subset, done, t);
    }
  }

  /** Whatever a node of the subset reads enters the subset or was produced in it before. */
  lemma ReadsAreThere(p: Problem, s: Progress, e: nat, j: nat, t: int)
    requires Partitioned(p, s) && e < |s.subsets|
    requires Cut(s, e) <= Cut(s, e + 1) <= |s.order| && j < |Slice(s, e)|
    requires Slice(s, e)[j] < |p.g.nodes| && t in p.g.nodes[Slice(s, e)[j]].inputs
    ensures Matters(p.g, s.subsets[e], Slice(s, e)[..j], t)
  {
    hide Typed, Exhausted;
    var v := Slice(s, e)[j];
    SliceIsEpoch(p, s, e, j);
    if t != OPTIONAL {
      assert AllInOrOptional(p.g.nodes[v].inputs, |p.g.tensors|) && Reads(p.g, v, t);
      if s.tensorEpochs[t] == e {
        var u :| 0 <= u < |p.g.nodes| && Produces(p.g, u, t);
        EarlierInSlice(p, s, e, j, u);
        var i :| 0 <= i < j && Slice(s, e)[i] == u;
        assert Slice(s, e)[..j][i] == u;
      } else {
        assert ReadIn(p, s, e, t);
      }
    }
  }

  /** A producer of the same epoch comes before the reader within the subset. */
  lemma EarlierInSlice(p: Problem, s: Progress, e: nat, j: nat, u: nat)
    requires Partitioned(p, s) && e < |s.subsets| && u < |p.g.nodes| && s.nodeEpochs[u] == e
    requires Cut(s, e) <= Cut(s, e + 1) <= |s.order| && j < |Slice(s, e)|
    requires Slice(s, e)[j] < |p.g.nodes| && DependsOn(p.g, Slice(s, e)[j], u)
    ensures exists i :: 0 <= i < j && Slice(s, e)[i] == u
  {
    hide Typed, Exhausted, TensorsFollow, Bounded, Listed;
    var at := Cut(s, e) + j;
    assert s.order[at] == Slice(s, e)[j];
    assert u in s.order[..at];
    var i :| 0 <= i < at && s.order[i] == u;
    assert s.nodeEpochs[s.order[i]] < e <==> i < |Concat(s.subsets[..e])|;
    assert Slice(s, e)[i - Cut(s, e)] == u;
  }

  lemma {:induction false} InsideAgrees<V(!new), W(!new)>(p: Problem, s: Progress, k: Kernels<V, W>, e: nat, j: nat,
                                                          a: Memory<V, W>, b: Memory<V, W>)
    requires Partitioned(p, s) && e < |s.subsets|
    requires Cut(s, e) <= Cut(s, e + 1) <= |s.order| && j <= |Slice(s, e)|
    requires forall i :: 0 <= i < |Slice(s, e)| ==> Slice(s, e)[i] < |p.g.nodes|
    requires Agree(p.g, s.subsets[e], [], a, b)
    ensures var done := Slice(s, e)[..j];
            Agree(p.g, s.subsets[e], done, RunAll(p.g, k, a, done), RunAll(p.g, k, b, done))
    decreases j
  {
    hide Partitioned, Agree;
    var slice := Slice(s, e);
    if j == 0 {
      assert slice[..0] == [];
    } else {
      InsideAgrees(p, s, k, e, j - 1, a, b);
      var done, v := slice[..j - 1], slice[j - 1];
      var inputs := p.g.nodes[v].inputs;
      forall t | t in inputs
        ensures Matters(p.g, s.subsets[e], done, t)
      {
        ReadsAreThere(p, s, e, j - 1, t);
      }
      assert slice[..j] == done + [v] && slice[..j][..j - 1] == done;
      NodeAgrees(p.g, k, s.subsets[e], done, v, RunAll(p.g, k, a, done), RunAll(p.g, k, b, done));
    }
  }

  lemma {:induction false} OthersUntouched<V(!new), W>(g: Graph, k: Kernels<V, W>, m: Memory<V, W>,
                                                       nodes: seq<nat>, t: int)
    requires (forall i :: 0 <= i < |nodes| ==> nodes[i] < |g.nodes|) && !ProducedBy(g, nodes, t)
    ensures RunAll(g, k, m, nodes).tensors(t) == m.tensors(t)
  {
    if nodes != [] {
      var init := nodes[..|nodes| - 1];
      assert forall i :: 0 <= i < |init| ==> init[i] == nodes[i];
      assert !ProducedBy(g, init, t);
      OthersUntouched(g, k, m, init, t);
    }
  }

  /******* All subsets *******/

  /** `t` can be seen from outside the subsets below `e`: none of them produced it, or one gave it out. */
  ghost predicate Visible(p: Problem, s: Progress, e: nat, t: int)
    requires Shaped(p, s)
  {
    0 <= t < |p.g.tensors| && 0 <= s.tensorEpochs[t] < e ==> t in s.subsets[s.tensorEpochs[t]].outputTensors
  }

  ghost predicate SameOutside<V(!new), W(!new)>(p: Problem, s: Progress, e: nat,
                                                fused: Memory<V, W>, plain: Memory<V, W>)
    requires Shaped(p, s)
  {
    fused.world == plain.world && forall t :: Visible(p, s, e, t) ==> fused.tensors(t) == plain.tensors(t)
  }

  /** What enters a subset is visible before it. */
  lemma EnteringIsVisible(p: Problem, s: Progress, e: nat, t: int)
    requires Partitioned(p, s) && e < |s.subsets| && Enters(s.subsets[e], t)
    ensures Visible(p, s, e, t)
  {
    hide Typed, Exhausted, Listed, CutByEpoch, DependenciesFirst, TensorsFollow;
    if 0 <= t < |p.g.tensors| && 0 <= s.tensorEpochs[t] < e {
      var d := s.tensorEpochs[t];
      assert ReadIn(p, s, e, t);
      assert ReadOutside(p, s, d, t);
    }
  }

  /** Only tensors of epoch `e` are produced in subset `e`, and all of them are. */
  lemma ProducedInSlice(p: Problem, s: Progress, e: nat, t: int)
    requires Partitioned(p, s) && e < |s.subsets|
    requires Cut(s, e) <= Cut(s, e + 1) <= |s.order|
    ensures ProducedBy(p.g, Slice(s, e), t) <==> 0 <= t < |p.g.tensors| && s.tensorEpochs[t] == e
  {
    hide Typed, Exhausted, Bounded, DependenciesFirst, Listed, CutByEpoch;
    if ProducedBy(p.g, Slice(s, e), t) {
      var i :| 0 <= i < |Slice(s, e)| && Slice(s, e)[i] < |p.g.nodes| && Produces(p.g, Slice(s, e)[i], t);
      SliceIsEpoch(p, s, e, i);
      assert AllIn(p.g.nodes[Slice(s, e)[i]].outputs, |p.g.tensors|);
    }
    if 0 <= t < |p.g.tensors| && s.tensorEpochs[t] == e {
      var u :| 0 <= u < |p.g.nodes| && Produces(p.g, u, t);
      var i := EpochIsSlice(p, s, e, u);
    }
  }

  lemma EpochIsSlice(p: Problem, s: Progress, e: nat, u: nat) returns (i: nat)
    requires Partitioned(p, s) && e < |s.subsets| && u < |p.g.nodes| && s.nodeEpochs[u] == e
    requires Cut(s, e) <= Cut(s, e + 1) <= |s.order|
    ensures i < |Slice(s, e)| && Slice(s, e)[i] == u
  {
    hide Typed, Exhausted, Bounded, DependenciesFirst, TensorsFollow;
    assert Assigned(s, u) && u in s.order;
    var at :| 0 <= at < |s.order| && s.order[at] == u;
    assert s.nodeEpochs[s.order[at]] < e <==> at < |Concat(s.subsets[..e])|;
    assert s.nodeEpochs[s.order[at]] < e + 1 <==> at < |Concat(s.subsets[..e + 1])|;
    i := at - Cut(s, e);
  }

  lemma FusedStep<V(!new), W(!new)>(p: Problem, s: Progress, k: Kernels<V, W>, e: nat, fused: Memory<V, W>,
                                    plain: Memory<V, W>, junk: int -> V)
    requires Partitioned(p, s) && e < |s.subsets| && SameOutside(p, s, e, fused, plain)
    requires Cut(s, e) <= Cut(s, e + 1) <= |s.order|
    requires forall i :: 0 <= i < |Slice(s, e)| ==> Slice(s, e)[i] < |p.g.nodes|
    ensures SameOutside(p, s, e + 1, RunFused(p.g, k, fused, s.subsets[e], Slice(s, e), junk),
                        RunAll(p.g, k, plain, Slice(s, e)))
  {
    hide Listed, CutByEpoch, Typed, TensorsFollow, DependenciesFirst, Exhausted, RunAll;
    var subset, slice := s.subsets[e], Slice(s, e);
    var inside := Inside(subset, fused, junk);
    forall t | Enters(subset, t)
      ensures inside.tensors(t) == plain.tensors(t)
    {
      EnteringIsVisible(p, s, e, t);
    }
    InsideAgrees(p, s, k, e, |slice|, inside, plain);
    assert slice[..|slice|] == slice;
    var now, after := RunFused(p.g, k, fused, subset, slice, junk), RunAll(p.g, k, plain, slice);
    forall t | Visible(p, s, e + 1, t)
      ensures now.tensors(t) == after.tensors(t)
    {
      ProducedInSlice(p, s, e, t);
      assert ProducedBy(p.g, slice, t) ==> Matters(p.g, subset, slice, t);
      if !ProducedBy(p.g, slice, t) {
        OthersUntouched(p.g, k, plain, slice, t);
        assert t !in subset.outputTensors;
        assert Visible(p, s, e, t);
      }
    }
  }

  lemma {:induction false} FusedAgrees<V(!new), W(!new)>(p: Problem, s: Progress, k: Kernels<V, W>, m: Memory<V, W>,
                                                         junk: nat -> (int -> V), n: nat)
    requires Partitioned(p, s) && Injective(p.g.nodeIndex) && n <= |s.subsets| && Cut(s, n) <= |s.order|
    requires forall e, i :: 0 <= e < |s.subsets| && 0 <= i < |s.subsets[e].nodes| ==>
               s.subsets[e].nodes[i] in p.g.nodeIndex
    ensures SameOutside(p, s, n, RunSubsets(p.g, k, m, s.subsets, junk, n), RunAll(p.g, k, m, s.order[..Cut(s, n)]))
    decreases n
  {
    hide Listed, CutByEpoch, Typed, TensorsFollow, DependenciesFirst, Exhausted, Bounded, RunAll, RunFused, SameOutside;
    if n == 0 {
      assert s.subsets[..0] == [] && s.order[..0] == [];
      NothingRun(p, s, k, m);
    } else {
      var e := n - 1;
      SliceIsSubset(p, s, e);
      FusedAgrees(p, s, k, m, junk, e);
      var before, slice := s.order[..Cut(s, e)], Slice(s, e);
      assert s.order[..Cut(s, n)] == before + slice;
      RunAllAppends(p.g, k, m, before, slice);
      FusedStep(p, s, k, e, RunSubsets(p.g, k, m, s.subsets, junk, e), RunAll(p.g, k, m, before), junk(e));
    }
  }

  lemma NothingRun<V(!new), W(!new)>(p: Problem, s: Progress, k: Kernels<V, W>, m: Memory<V, W>)
    requires Shaped(p, s)
    ensures RunAll(p.g, k, m, []) == m && SameOutside(p, s, 0, m, m)
  {
  }

  /**
   Running every subset as one node, with arbitrary contents of what does not enter it, ends with the
   graph outputs and the world of the plan.
   */
  lemma FusedSubsetsPreserveMeaning<V(!new), W(!new)>(p: Problem, s: Progress, k: Kernels<V, W>, m: Memory<V, W>,
                                                      junk: nat -> (int -> V), t: int)
    requires Partitioned(p, s) && UniqueProducers(p.g) && Topological(p.g) && Injective(p.g.nodeIndex)
    requires t in p.g.outputs
    ensures forall e, i :: 0 <= e < |s.subsets| && 0 <= i < |s.subsets[e].nodes| ==>
              s.subsets[e].nodes[i] in p.g.nodeIndex
    ensures var (fused, plan) := (RunSubsets(p.g, k, m, s.subsets, junk, |s.subsets|), RunAll(p.g, k, m, Plan(p.g)));
            fused.tensors(t) == plan.tensors(t) && fused.world == plan.world
  {
    hide CutByEpoch, Typed, Exhausted, TensorsFollow, DependenciesFirst, Bounded, RunAll, RunSubsets, Visible,
         UniqueProducers, Topological;
    forall e, i | 0 <= e < |s.subsets| && 0 <= i < |s.subsets[e].nodes|
      ensures s.subsets[e].nodes[i] in p.g.nodeIndex
    {
      SliceIsSubset(p, s, e);
    }
    var n := |s.subsets|;
    assert s.subsets[..n] == s.subsets && s.order[..|s.order|] == s.order;
    FusedAgrees(p, s, k, m, junk, n);
    OutputIsVisible(p, s, t);
    OrderComputesPlan(p, s, k, m, t);
  }

  lemma OutputIsVisible(p: Problem, s: Progress, t: int)
    requires Partitioned(p, s) && t in p.g.outputs
    ensures Visible(p, s, |s.subsets|, t)
  {
    assert AllIn(p.g.outputs, |p.g.tensors|);
  }
}
