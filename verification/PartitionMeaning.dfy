/**
 Running the nodes in the order of the partition.

 Nodes are arbitrary functions of the tensors they read; nodes with side effects also read and
 change a state of the world. The partition's order gives the same tensors and world as the plan.
 */
module PartitionMeaning {
  import opened TfliteGraph
  import opened PartitionSpec

  /** What each node computes: the new tensor values and, for side effects, the next world. */
  datatype Kernels<!V, !W> = Kernels(
    pure: (nat, seq<V>) -> (int -> V),
    effect: (nat, seq<V>, W) -> (int -> V),
    world: (nat, seq<V>, W) -> W)

  datatype Memory<!V, !W> = Memory(tensors: int -> V, world: W)

  function Gather<V>(f: int -> V, inputs: seq<int>): seq<V> {
    seq(|inputs|, k requires 0 <= k < |inputs| => f(inputs[k]))
  }

  function RunNode<V, W>(g: Graph, k: Kernels<V, W>, m: Memory<V, W>, v: nat): Memory<V, W>
    requires v < |g.nodes|
  {
    var node, ins := g.nodes[v], Gather(m.tensors, g.nodes[v].inputs);
    var out := if node.sideEffect then k.effect(v, ins, m.world) else k.pure(v, ins);
    Memory(t => if t in node.outputs then out(t) else m.tensors(t),
           if node.sideEffect then k.world(v, ins, m.world) else m.world)
  }

  function RunAll<V, W>(g: Graph, k: Kernels<V, W>, m: Memory<V, W>, order: seq<nat>): Memory<V, W>
    requires forall i :: 0 <= i < |order| ==> order[i] < |g.nodes|
  {
    if order == [] then m
    else RunNode(g, k, RunAll(g, k, m, order[..|order| - 1]), order[|order| - 1])
  }

  /******* What a node computes, independently of any order *******/

  /** The node before `n` that produces `t`, or -1. */
  function Producer(g: Graph, t: int, n: nat): (u: int)
    requires n <= |g.nodes|
    ensures -1 <= u < n
    ensures u >= 0 ==> Produces(g, u, t)
    ensures u == -1 ==> forall w :: 0 <= w < n ==> !Produces(g, w, t)
  {
    if n == 0 then -1 else if Produces(g, n - 1, t) then n - 1 else Producer(g, t, n - 1)
  }

  /** The results of node `v` when each input comes from its producer. */
  function Meaning<V, W>(g: Graph, k: Kernels<V, W>, m: Memory<V, W>, v: nat): Memory<V, W>
    requires v < |g.nodes|
    decreases v
  {
    var inputs := g.nodes[v].inputs;
    var ins := seq(|inputs|, i requires 0 <= i < |inputs| =>
                   var u := Producer(g, inputs[i], v);
                   if u >= 0 then Meaning(g, k, m, u).tensors(inputs[i]) else m.tensors(inputs[i]));
    var c := ControlDep(g, v);
    var world := if c >= 0 then Meaning(g, k, m, c).world else m.world;
    if g.nodes[v].sideEffect then Memory(k.effect(v, ins, world), k.world(v, ins, world))
    else Memory(k.pure(v, ins), world)
  }

  /** The value of `t` once `done` has run. */
  ghost predicate HoldsValue<V(!new), W>(g: Graph, k: Kernels<V, W>, m: Memory<V, W>, done: seq<nat>,
                                         now: Memory<V, W>, t: int)
  {
    && (forall v :: 0 <= v < |g.nodes| && v in done && Produces(g, v, t) ==>
          now.tensors(t) == Meaning(g, k, m, v).tensors(t))
    && ((forall v :: 0 <= v < |g.nodes| && v in done ==> !Produces(g, v, t)) ==> now.tensors(t) == m.tensors(t))
  }

  /** The last node with a side effect that has run, or -1. */
  function LastEffect(g: Graph, done: seq<nat>): (l: int)
    requires forall i :: 0 <= i < |done| ==> done[i] < |g.nodes|
    ensures -1 <= l < |g.nodes|
  {
    if done == [] then -1
    else if g.nodes[done[|done| - 1]].sideEffect then done[|done| - 1]
    else LastEffect(g, done[..|done| - 1])
  }

  /** Every node comes once, after everything it depends on. */
  ghost predicate Schedule(g: Graph, order: seq<nat>) {
    && (forall i :: 0 <= i < |order| ==> order[i] < |g.nodes|)
    && (forall i, j :: 0 <= i < j < |order| ==> order[i] != order[j])
    && (forall i, u :: 0 <= i < |order| && 0 <= u < |g.nodes| && DependsOn(g, order[i], u) ==> u in order[..i])
  }

  lemma SchedulePrefix(g: Graph, order: seq<nat>)
    requires Schedule(g, order) && order != []
    ensures Schedule(g, order[..|order| - 1])
  {
    var init := order[..|order| - 1];
    forall i, u | 0 <= i < |init| && 0 <= u < |g.nodes| && DependsOn(g, init[i], u)
      ensures u in init[..i]
    {
      assert init[..i] == order[..i] && init[i] == order[i];
    }
  }

  /** In a schedule, side effects happen in plan order. */
  lemma {:induction false} EffectsInOrder(g: Graph, order: seq<nat>)
    requires Schedule(g, order)
    ensures var l := LastEffect(g, order);
            && (l >= 0 ==> g.nodes[l].sideEffect)
            && forall v :: 0 <= v < |g.nodes| && g.nodes[v].sideEffect ==> (v in order <==> v <= l)
    decreases |order|
  {
    if order != [] {
      var init, v := order[..|order| - 1], order[|order| - 1];
      assert order == init + [v];
      SchedulePrefix(g, order);
      EffectsInOrder(g, init);
      if g.nodes[v].sideEffect {
        var l, c := LastEffect(g, init), ControlDep(g, v);
        assert v !in init;
        if c >= 0 {
          assert DependsOn(g, order[|init|], c);
          assert c in init;
        }
        assert c == l;
      }
    }
  }

  /** One more node of a schedule sees the inputs and the world that its meaning is made of. */
  lemma NodeSeesMeaning<V(!new), W>(g: Graph, k: Kernels<V, W>, m: Memory<V, W>, done: seq<nat>,
                                    now: Memory<V, W>, v: nat)
    requires IndicesOk(g) && UniqueProducers(g) && Topological(g) && Schedule(g, done + [v]) && v < |g.nodes|
    requires forall t :: HoldsValue(g, k, m, done, now, t)
    requires g.nodes[v].sideEffect ==>
               now.world == if ControlDep(g, v) >= 0 then Meaning(g, k, m, ControlDep(g, v)).world else m.world
    ensures var after := RunNode(g, k, now, v);
            && (forall t :: Produces(g, v, t) ==> after.tensors(t) == Meaning(g, k, m, v).tensors(t))
            && (g.nodes[v].sideEffect ==> after.world == Meaning(g, k, m, v).world)
  {
    var inputs := g.nodes[v].inputs;
    var ins := seq(|inputs|, i requires 0 <= i < |inputs| =>
                   var u := Producer(g, inputs[i], v);
                   if u >= 0 then Meaning(g, k, m, u).tensors(inputs[i]) else m.tensors(inputs[i]));
    forall i | 0 <= i < |inputs|
      ensures now.tensors(inputs[i]) == ins[i]
    {
      InputHoldsMeaning(g, k, m, done, now, v, inputs[i]);
    }
    assert Gather(now.tensors, inputs) == ins;
  }

  lemma InputHoldsMeaning<V(!new), W>(g: Graph, k: Kernels<V, W>, m: Memory<V, W>, done: seq<nat>, now: Memory<V, W>,
                                      v: nat, t: int)
    requires UniqueProducers(g) && Topological(g) && Schedule(g, done + [v]) && v < |g.nodes|
    requires IndicesOk(g)
    requires HoldsValue(g, k, m, done, now, t) && t in g.nodes[v].inputs
    ensures var u := Producer(g, t, v);
            now.tensors(t) == if u >= 0 then Meaning(g, k, m, u).tensors(t) else m.tensors(t)
  {
    var u, order := Producer(g, t, v), done + [v];
    if u >= 0 {
      assert Reads(g, v, t);
      assert DependsOn(g, order[|done|], u);
      assert order[..|done|] == done;
    } else {
      forall w | 0 <= w < |g.nodes| && Produces(g, w, t)
        ensures false
      {
        assert Reads(g, v, t);
      }
    }
  }

  lemma {:induction false} ScheduleComputesMeaning<V(!new), W>(g: Graph, k: Kernels<V, W>, m: Memory<V, W>,
                                                               order: seq<nat>)
    requires IndicesOk(g) && UniqueProducers(g) && Topological(g) && Schedule(g, order)
    ensures var now := RunAll(g, k, m, order);
            && (forall t :: HoldsValue(g, k, m, order, now, t))
            && now.world == if LastEffect(g, order) >= 0 then Meaning(g, k, m, LastEffect(g, order)).world else m.world
    decreases |order|
  {
    if order != [] {
      var init, v := order[..|order| - 1], order[|order| - 1];
      assert order == init + [v];
      SchedulePrefix(g, order);
      ScheduleComputesMeaning(g, k, m, init);
      EffectsInOrder(g, init);
      EffectsInOrder(g, order);
      var before := RunAll(g, k, m, init);
      if g.nodes[v].sideEffect {
        LastEffectIsControlDep(g, init, v);
      }
      NodeSeesMeaning(g, k, m, init, before, v);
      hide Schedule, UniqueProducers, Topological, IndicesOk, HoldsValue;
      forall t
        ensures HoldsValue(g, k, m, order, RunNode(g, k, before, v), t)
      {
        HoldsAfterNode(g, k, m, init, before, v, t);
      }
    }
  }

  lemma HoldsAfterNode<V(!new), W>(g: Graph, k: Kernels<V, W>, m: Memory<V, W>, done: seq<nat>, now: Memory<V, W>,
                                   v: nat, t: int)
    requires UniqueProducers(g) && v < |g.nodes| && HoldsValue(g, k, m, done, now, t)
    requires Produces(g, v, t) ==> RunNode(g, k, now, v).tensors(t) == Meaning(g, k, m, v).tensors(t)
    ensures HoldsValue(g, k, m, done + [v], RunNode(g, k, now, v), t)
  {
    assert forall w :: w in done + [v] <==> w in done || w == v;
  }

  lemma LastEffectIsControlDep(g: Graph, done: seq<nat>, v: nat)
    requires Schedule(g, done + [v]) && Schedule(g, done) && v < |g.nodes| && g.nodes[v].sideEffect
    ensures ControlDep(g, v) == LastEffect(g, done)
  {
    var order, c, l := done + [v], ControlDep(g, v), LastEffect(g, done);
    EffectsInOrder(g, done);
    EffectsInOrder(g, order);
    assert order[..|done|] == done && order[|done|] == v;
    assert v !in done;
    if c >= 0 {
      assert DependsOn(g, order[|done|], c);
      assert c in done;
    }
  }

  /** Any two complete schedules end in the same memory. */
  lemma SchedulesAgree<V(!new), W>(g: Graph, k: Kernels<V, W>, m: Memory<V, W>, a: seq<nat>, b: seq<nat>, t: int)
    requires IndicesOk(g) && UniqueProducers(g) && Topological(g) && Schedule(g, a) && Schedule(g, b)
    requires forall v :: 0 <= v < |g.nodes| ==> v in a && v in b
    ensures RunAll(g, k, m, a).tensors(t) == RunAll(g, k, m, b).tensors(t)
    ensures RunAll(g, k, m, a).world == RunAll(g, k, m, b).world
  {
    ScheduleComputesMeaning(g, k, m, a);
    ScheduleComputesMeaning(g, k, m, b);
    EffectsInOrder(g, a);
    EffectsInOrder(g, b);
    assert HoldsValue(g, k, m, a, RunAll(g, k, m, a), t) && HoldsValue(g, k, m, b, RunAll(g, k, m, b), t);
    if v :| 0 <= v < |g.nodes| && Produces(g, v, t) {
      assert v in a && v in b;
    }
  }

  function Plan(g: Graph): seq<nat> { seq(|g.nodes|, i => i) }

  lemma PlanIsSchedule(g: Graph)
    requires Topological(g)
    ensures Schedule(g, Plan(g)) && forall v :: 0 <= v < |g.nodes| ==> v in Plan(g)
  {
    var plan := Plan(g);
    forall i, u | 0 <= i < |plan| && 0 <= u < |g.nodes| && DependsOn(g, plan[i], u)
      ensures u in plan[..i]
    {
      DependenciesAreEarlier(g, i, u);
      assert plan[..i][u] == u;
    }
    forall v | 0 <= v < |g.nodes|
      ensures v in plan
    {
      assert plan[v] == v;
    }
  }

  /******* From original node indices back to the plan *******/

  ghost predicate Injective(s: seq<nat>) {
    forall i, j :: 0 <= i < j < |s| ==> s[i] != s[j]
  }

  /** The plan position of the node with an original index. */
  function Position(g: Graph, x: nat, n: nat): (v: nat)
    requires n <= |g.nodeIndex| && x in g.nodeIndex[..n]
    ensures v < n && g.nodeIndex[v] == x
  {
    if g.nodeIndex[n - 1] == x then n - 1
    else
      assert g.nodeIndex[..n] == g.nodeIndex[..n - 1] + [g.nodeIndex[n - 1]];
      Position(g, x, n - 1)
  }

  function Positions(g: Graph, nodes: seq<nat>): seq<nat>
    requires forall i :: 0 <= i < |nodes| ==> nodes[i] in g.nodeIndex
  {
    seq(|nodes|, i requires 0 <= i < |nodes| =>
        assert g.nodeIndex[..|g.nodeIndex|] == g.nodeIndex; Position(g, nodes[i], |g.nodeIndex|))
  }

  /** The order of assignment is as good as the plan. */
  lemma OrderComputesPlan<V(!new), W>(p: Problem, s: Progress, k: Kernels<V, W>, m: Memory<V, W>, t: int)
    requires Partitioned(p, s) && UniqueProducers(p.g) && Topological(p.g)
    ensures RunAll(p.g, k, m, s.order).tensors(t) == RunAll(p.g, k, m, Plan(p.g)).tensors(t)
    ensures RunAll(p.g, k, m, s.order).world == RunAll(p.g, k, m, Plan(p.g)).world
  {
    hide CutByEpoch, Typed, TensorsFollow, Bounded, Exhausted, RunAll;
    assert forall v :: 0 <= v < |p.g.nodes| ==> Assigned(s, v) && v in s.order;
    PlanIsSchedule(p.g);
    SchedulesAgree(p.g, k, m, s.order, Plan(p.g), t);
  }

  /** Running the subsets one after the other ends like running the plan, for every meaning of the nodes. */
  lemma PartitionPreservesMeaning<V(!new), W>(p: Problem, s: Progress, k: Kernels<V, W>, m: Memory<V, W>, t: int)
    requires Partitioned(p, s) && UniqueProducers(p.g) && Topological(p.g) && Injective(p.g.nodeIndex)
    ensures forall i :: 0 <= i < |Concat(s.subsets)| ==> Concat(s.subsets)[i] in p.g.nodeIndex
    ensures var (subsets, plan) := (RunAll(p.g, k, m, Positions(p.g, Concat(s.subsets))), RunAll(p.g, k, m, Plan(p.g)));
            subsets.tensors(t) == plan.tensors(t) && subsets.world == plan.world
  {
    hide CutByEpoch, Typed, TensorsFollow, Bounded, Exhausted;
    forall i | 0 <= i < |s.order|
      ensures Concat(s.subsets)[i] in p.g.nodeIndex
    {
      assert Concat(s.subsets)[i] == p.g.nodeIndex[s.order[i]];
    }
    assert Positions(p.g, Concat(s.subsets)) == s.order;
    OrderComputesPlan(p, s, k, m, t);
  }
}
