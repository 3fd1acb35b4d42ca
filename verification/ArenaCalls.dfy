/**
 Sequences of calls of the arena planner (tensorflow/lite/arena_planner.cc): any of them, in any order,
 made on one planner.
 */
module ArenaCalls {
  import opened TfliteGraph
  import opened Lifetimes
  import opened SimpleMemoryArena
  import opened ArenaPlanner

  datatype PlannerCall =
    | Plan(g: Graph)
    | Execute(g: Graph, first: nat, last: nat)
    | Reset(g: Graph)
    | ResetAfter(node: int)

  /** Graphs are well indexed and keep the allocation types of their tensors. */
  ghost predicate Proper(kindOf: int -> AllocationType, call: PlannerCall) {
    match call
    case Plan(g) => IndicesOk(g) && |g.nodes| < NOT_ASSIGNED
    case Execute(g, first, last) =>
      && |g.nodes| < NOT_ASSIGNED
      && (forall t :: 0 <= t < |g.tensors| ==> g.tensors[t].kind == kindOf(t))
      && (forall i :: first <= i <= last && i < |g.nodes| ==> AllIn(g.nodes[i].temporaries, |g.tensors|))
    case Reset(_) => true
    case ResetAfter(_) => true
  }

  /** What a successful call promises about the view before and after it. */
  ghost predicate Did(preserveAll: bool, kindOf: int -> AllocationType, call: PlannerCall, v: View, v': View) {
    match call
    case Plan(g) =>
      && v'.allocs == seq(|g.tensors|, _ => UNUSED)
      && |g.nodes| < NOT_ASSIGNED && PlannedUpTo(g, preserveAll, |g.nodes|, v'.allocNode, v'.deallocNode)
    case Reset(g) =>
      v'.allocs == seq(|g.tensors|, _ => UNUSED) && v'.allocNode == v.allocNode && v'.deallocNode == v.deallocNode
    case Execute(g, first, last) =>
      |v.allocs| <= |g.tensors| && Executed(g, preserveAll, kindOf, v, v', first, last)
    case ResetAfter(node) =>
      && |v'.allocs| == |v.allocs|
      && (forall t :: 0 <= t < |v.allocs| ==> v'.allocs[t] == AfterReset(kindOf(t), v.allocs[t], node))
      && v' == v.(allocs := v'.allocs)
  }

  /** The table of allocations and what the two arenas have registered. */
  datatype Snapshot = Snapshot(view: View, arena: seq<Alloc>, persistent: seq<Alloc>)

  ghost function SnapshotOf(planner: Planner): Snapshot
    reads planner, planner.arena, planner.persistentArena
  {
    Snapshot(planner.AsView(), planner.arena.orderedAllocs, planner.persistentArena.orderedAllocs)
  }

  /**
   Each arena has registered exactly the nonempty entries of its kind, one per tensor, and tensors
   that are needed together, or for ever, are apart.
   */
  ghost predicate Intact(kindOf: int -> AllocationType, x: Snapshot) {
    && Registered(x.view.allocs, kindOf, ArenaRw, x.arena, {})
    && Registered(x.view.allocs, kindOf, ArenaRwPersistent, x.persistent, {})
    && Sound(x.view, kindOf)
  }

  ghost predicate Bounded(allocNode: seq<int>) {
    forall t :: 0 <= t < |allocNode| ==> allocNode[t] <= NOT_ASSIGNED
  }

  lemma DidKeepsBounded(preserveAll: bool, kindOf: int -> AllocationType, call: PlannerCall, v: View, v': View)
    requires Proper(kindOf, call) && Did(preserveAll, kindOf, call, v, v') && Bounded(v.allocNode)
    ensures Bounded(v'.allocNode)
  {
    if call.Execute? {
      var g := call.g;
      assert forall t :: 0 <= t < |g.tensors| ==> OwnerIn(g, t, call.first, call.last) < |g.nodes|;
    }
  }

  /** One call; with the default alignment it fails only if tensors were removed. */
  method Perform(planner: Planner, call: PlannerCall) returns (ok: bool)
    requires planner.Valid() && Bounded(planner.allocNode) && Proper(planner.kindOf, call)
    modifies planner, planner.arena, planner.persistentArena
    ensures ok ==> planner.Valid() && Bounded(planner.allocNode)
    ensures ok ==> Did(planner.preserveAll, planner.kindOf, call, old(planner.AsView()), planner.AsView())
    ensures planner.tensorAlignment <= DEFAULT_ARENA_ALIGNMENT ==>
              (ok <==> (call.Execute? ==> |old(planner.allocs)| <= |call.g.tensors|))
  {
    ghost var v := planner.AsView();
    match call {
      case Plan(g) => ok := planner.PlanAllocations(g);
      case Execute(g, first, last) => ok := planner.ExecuteAllocations(g, first, last);
      case Reset(g) => ok := planner.ResetAllocations(g);
      case ResetAfter(node) => ok := planner.ResetAllocationsAfter(node);
    }
    if ok {
      DidKeepsBounded(planner.preserveAll, planner.kindOf, call, v, planner.AsView());
    }
  }

  /** The snapshots around a sequence of successful calls on a new planner. */
  ghost predicate IsHistory(preserveAll: bool, kindOf: int -> AllocationType, calls: seq<PlannerCall>,
                            history: seq<Snapshot>)
  {
    && |history| == |calls| + 1 && history[0].view.allocs == []
    && forall k :: 0 <= k < |calls| ==>
         Did(preserveAll, kindOf, calls[k], history[k].view, history[k + 1].view)
  }

  /**
   Performs any calls on a new planner, until one fails. Around every call both arenas have
   registered exactly what the table says, and nothing that is needed together overlaps.
   */
  method PerformAll(preserveAll: bool, tensorAlignment: nat, kindOf: int -> AllocationType, calls: seq<PlannerCall>)
    returns (planner: Planner, performed: nat, ghost history: seq<Snapshot>)
    requires tensorAlignment > 0 && forall k :: 0 <= k < |calls| ==> Proper(kindOf, calls[k])
    ensures performed <= |calls| && IsHistory(preserveAll, kindOf, calls[..performed], history)
    ensures forall k :: 0 <= k <= performed ==> Intact(kindOf, history[k])
    ensures performed == |calls| ==> planner.Valid() && history[performed] == SnapshotOf(planner)
    ensures performed < |calls| && tensorAlignment <= DEFAULT_ARENA_ALIGNMENT ==>
              calls[performed].Execute? && |calls[performed].g.tensors| < |history[performed].view.allocs|
  {
    hide Registered, Sound, Did, Proper;
    planner := new Planner(preserveAll, tensorAlignment, kindOf);
    performed := 0;
    planner.ValidIsSound();
    history := [SnapshotOf(planner)];
    while performed < |calls|
      invariant performed <= |calls| && |history| == performed + 1
      invariant fresh(planner) && fresh(planner.arena) && fresh(planner.persistentArena)
      invariant planner.preserveAll == preserveAll && planner.kindOf == kindOf
      invariant planner.tensorAlignment == tensorAlignment
      invariant planner.Valid() && Bounded(planner.allocNode) && history[performed] == SnapshotOf(planner)
      invariant history[0].view.allocs == []
      invariant forall k :: 0 <= k < performed ==>
                  Did(preserveAll, kindOf, calls[k], history[k].view, history[k + 1].view)
      invariant forall k :: 0 <= k <= performed ==> Intact(kindOf, history[k])
    {
      var ok := Perform(planner, calls[performed]);
      if !ok {
        return;
      }
      planner.ValidIsSound();
      history := history + [SnapshotOf(planner)];
      performed := performed + 1;
    }
  }

  predicate Clears(call: PlannerCall) { call.Plan? || call.Reset? }

  /** A persistent tensor that has memory keeps it, however often others are placed again, until all is reset. */
  lemma {:induction false} PersistentStays(preserveAll: bool, kindOf: int -> AllocationType,
                                           calls: seq<PlannerCall>, history: seq<Snapshot>, i: nat, j: nat, t: int)
    requires IsHistory(preserveAll, kindOf, calls, history) && i <= j < |history|
    requires forall k :: i <= k < j ==> !Clears(calls[k])
    requires Placed(history[i].view, kindOf, ArenaRwPersistent, t)
    ensures Placed(history[j].view, kindOf, ArenaRwPersistent, t)
    ensures history[j].view.allocs[t] == history[i].view.allocs[t]
  {
    hide Sound;
    if i < j {
      PersistentStays(preserveAll, kindOf, calls, history, i, j - 1, t);
      assert !Clears(calls[j - 1]);
      assert Did(preserveAll, kindOf, calls[j - 1], history[j - 1].view, history[j - 1 + 1].view);
    }
  }

  /** What is due and placed for ever has the right size exactly if it had no range before or is as large as it was. */
  lemma PersistentFitsExactlyWhen(preserveAll: bool, kindOf: int -> AllocationType, calls: seq<PlannerCall>,
                                  history: seq<Snapshot>, k: nat, t: nat)
    requires IsHistory(preserveAll, kindOf, calls, history) && k < |calls| && calls[k].Execute?
    requires t < |calls[k].g.tensors| && kindOf(t).ArenaRwPersistent?
    requires var v' := history[k + 1].view; t < |v'.allocNode| && calls[k].first <= v'.allocNode[t] <= calls[k].last
    ensures var (v, bytes) := (history[k].view, calls[k].g.tensors[t].bytes);
            && t < |history[k + 1].view.allocs|
            && (history[k + 1].view.allocs[t].size == bytes <==>
                !Placed(v, kindOf, ArenaRwPersistent, t) || v.allocs[t].size == bytes)
  {
    hide Sound;
    assert Did(preserveAll, kindOf, calls[k], history[k].view, history[k + 1].view);
  }

  /** A graph of one node whose output is placed for ever. */
  function OneOutput(bytes: nat): Graph {
    Graph([Tensor(ArenaRwPersistent, bytes)], [Node([], [0], [], false)], [0], [], [], [])
  }

  function ForEver(t: int): AllocationType { ArenaRwPersistent }

  /** The output is due at node 0, placed with 8 bytes, and stays so when it should have 16. */
  lemma EnlargedHistory(calls: seq<PlannerCall>, history: seq<Snapshot>, n: nat)
    requires IsHistory(false, ForEver, calls, history) && n < |history| && 1 <= n <= 3
    requires calls <= [Plan(OneOutput(8)), Execute(OneOutput(8), 0, 0), Execute(OneOutput(16), 0, 0)]
    ensures |history[n].view.allocs| == 1 && history[n].view.allocNode == [0]
    ensures history[n].view.allocs[0].size == if n == 1 then 0 else 8
  {
    hide Sound;
    var v, v' := history[n - 1].view, history[n].view;
    assert Did(false, ForEver, calls[n - 1], history[n - 1].view, history[n - 1 + 1].view);
    if n == 1 {
      assert Produces(OneOutput(8), 0, 0);
      assert v'.allocNode[0] == AllocNode(OneOutput(8), 0, 1);
    } else {
      EnlargedHistory(calls, history, n - 1);
      var g := calls[n - 1].g;
      assert OwnerIn(g, 0, 0, 0) == -1;
      assert v'.allocNode[0] == v.allocNode[0];
    }
  }

  /** Planning, placing and, after the output has grown, placing again: it keeps a range that is too small. */
  method EnlargedKeepsRange() returns (planner: Planner, ghost history: seq<Snapshot>)
    ensures IsHistory(false, ForEver,
                      [Plan(OneOutput(8)), Execute(OneOutput(8), 0, 0), Execute(OneOutput(16), 0, 0)], history)
    ensures planner.Valid() && history[3] == SnapshotOf(planner)
    ensures |planner.allocs| == 1 && planner.allocs[0].size == 8
  {
    hide Did, Intact;
    var calls := [Plan(OneOutput(8)), Execute(OneOutput(8), 0, 0), Execute(OneOutput(16), 0, 0)];
    assert IndicesOk(OneOutput(8));
    var performed;
    planner, performed, history := PerformAll(false, DEFAULT_ARENA_ALIGNMENT, ForEver, calls);
    assert calls[..3] == calls;
    if performed >= 1 {
      EnlargedHistory(calls[..performed], history, performed);
    }
  }
}
