/**
 A subgraph that runs its nodes in the arenas of a planner (tensorflow/lite/core/subgraph.cc).

 The object keeps, as ghost state, what every tensor would hold had it memory of its own. Each method
 is a step, or a few steps, of the two machines of ArenaExecution, made by the planner itself.
 */
module ArenaInvoke {
  import opened TfliteGraph
  import opened Lifetimes
  import opened SimpleMemoryArena
  import opened ArenaPlanner
  import opened ArenaCalls
  import opened ArenaExecution

  /** What the ops of a subgraph do that the planner does not control. */
  datatype Ops = Ops(
    // The tensors there are, with their sizes, once the ops from a node on have been prepared, and the last such node.
    prepare: nat -> (seq<Tensor>, nat),
    // The bytes a node leaves in its temporaries.
    scratch: nat -> seq<Value>,
    // Whether a node resizes a dynamic tensor.
    resizes: nat -> bool)

  /** Tensors that do not exist yet are temporaries, so nothing else refers to them. */
  lemma UsedExists(s: Setup, n: nat, t: int)
    requires WellFormed(s) && forall u :: n <= u < |s.g.tensors| ==> Owner(s.g, u) >= 0
    requires 0 <= t < |s.g.tensors|
    requires Pinned(s.g, t) || exists i :: 0 <= i < |s.g.nodes| && (Reads(s.g, i, t) || Produces(s.g, i, t))
    ensures t < n
  {
    if Owner(s.g, t) >= 0 {
      TemporaryIsPrivate(s, t);
    }
  }

  lemma IndicesStayOk(s: Setup, tensors: seq<Tensor>)
    requires WellFormed(s) && forall u :: |tensors| <= u < |s.g.tensors| ==> Owner(s.g, u) >= 0
    ensures IndicesOk(s.g.(tensors := tensors))
  {
    var g, n := s.g, |tensors|;
    forall i, t | 0 <= i < |g.nodes| && t in g.nodes[i].inputs && t != OPTIONAL
      ensures 0 <= t < n
    {
      assert AllInOrOptional(g.nodes[i].inputs, |g.tensors|) && Reads(g, i, t);
      UsedExists(s, n, t);
    }
    forall i, t | 0 <= i < |g.nodes| && t in g.nodes[i].outputs
      ensures 0 <= t < n
    {
      assert AllIn(g.nodes[i].outputs, |g.tensors|) && Produces(g, i, t);
      UsedExists(s, n, t);
    }
    forall t | (t in g.inputs && t != OPTIONAL) || t in g.outputs || t in g.variables
      ensures 0 <= t < n
    {
      UsedExists(s, n, t);
    }
  }

  /** What the nodes below `n` compute if every tensor has memory of its own. */
  function RunSeparately(s: Setup, start: int -> Value, scratch: nat -> seq<Value>, n: nat): int -> Value
    requires n <= |s.g.nodes|
  {
    if n == 0 then start
    else
      var f := RunSeparately(s, start, scratch, n - 1);
      var ts, xs := Written(s.g, n - 1), scratch(n - 1) + s.kernels(n - 1, Inputs(f, s.g.nodes[n - 1].inputs));
      if |ts| == |xs| then SetAll(f, ts, xs) else f
  }

  class Subgraph {
    const setup: Setup
    const planner: Planner
    var planned: bool
    var next: nat
    var toPrepare: nat
    var toPlan: nat
    var tensors: seq<Tensor>
    // Memory of the tensors that are not in an arena.
    var own: int -> Value
    ghost var separate: int -> Value

    ghost function StateOf(): State
      reads this, planner, planner.arena, planner.persistentArena
    {
      State(next, planner.AsView(), own, separate)
    }

    /** The planner belongs to this subgraph and its tables, if there are any, fit. */
    ghost predicate Ready()
      reads this, planner, planner.arena, planner.persistentArena
    {
      && |setup.g.nodes| < NOT_ASSIGNED && WellFormed(setup)
      && planner.kindOf == setup.kindOf && planner.preserveAll == setup.preserveAll
      && planner.Valid() && Bounded(planner.allocNode)
      && (planned ==> TablesFit(setup, planner.AsView()))
    }

    /** Tensors are allocated: both machines agree and the nodes before `toPlan` fit. */
    ghost predicate Valid()
      reads this, planner, planner.arena, planner.persistentArena
    {
      && Ready() && planned
      && Inv(setup, StateOf())
      && 1 <= toPlan == toPrepare && next <= toPlan
      && |tensors| == |planner.allocs| == |planner.allocNode|
      && Sized(setup, planner.AsView(), tensors, toPlan)
    }

    constructor (setup: Setup, tensorAlignment: nat, own: int -> Value)
      requires WellFormed(setup) && tensorAlignment > 0
      ensures Ready() && !planned && this.setup == setup && fresh(planner) && planner.tensorAlignment == tensorAlignment
      ensures fresh(planner.arena) && fresh(planner.persistentArena)
    {
      this.setup := setup;
      planner := new Planner(setup.preserveAll, tensorAlignment, setup.kindOf);
      planned, next, toPrepare, toPlan, tensors, this.own := false, 0, 0, 0, [], own;
    }

    /** The graph with the tensors that exist at some time. */
    function With(tensors: seq<Tensor>): Graph { setup.g.(tensors := tensors) }

    /** Tensors have the allocation types of the setup; those that do not exist yet are temporaries. */
    predicate Known(tensors: seq<Tensor>)
    {
      && |tensors| <= |setup.g.tensors|
      && (forall t :: 0 <= t < |tensors| ==> tensors[t].kind == setup.kindOf(t))
      && (forall t :: |tensors| <= t < |setup.g.tensors| ==> Owner(setup.g, t) >= 0)
    }

    /** Preparing ops up to `last` has made their temporaries. */
    predicate Prepared(tensors: seq<Tensor>, first: nat, last: nat)
    {
      && Known(tensors) && first <= last && last < NOT_ASSIGNED
      && forall i :: first <= i <= last && i < |setup.g.nodes| ==> AllIn(setup.g.nodes[i].temporaries, |tensors|)
    }

    /** The first part of AllocateTensors: a plan is made once, later its allocations are forgotten. */
    method Plan(known: seq<Tensor>)
      requires Ready() && Known(known) && (planned ==> |planner.allocNode| <= |known|)
      modifies this`planned, planner, planner.arena, planner.persistentArena
      ensures Ready() && planned && planner.allocs == seq(|known|, _ => UNUSED)
      ensures |planner.allocNode| <= |known|
    {
      IndicesStayOk(setup, known);
      if !planned {
        var ok := planner.PlanAllocations(With(known));
        PlanFits(setup, With(known), planner.AsView());
        planned := true;
      } else {
        var ok := planner.ResetAllocations(With(known));
      }
    }

    /** AllocateTensors: plan, let the ops up to `last` be prepared, and place their tensors. */
    method AllocateTensors(known: seq<Tensor>, prepared: seq<Tensor>, last: nat) returns (ok: bool)
      requires Ready() && Known(known) && (planned ==> |planner.allocNode| <= |known|)
      requires |known| <= |prepared| && Prepared(prepared, 0, last)
      modifies this, planner, planner.arena, planner.persistentArena
      ensures planner.tensorAlignment <= DEFAULT_ARENA_ALIGNMENT ==> ok
      ensures ok ==> Valid() && next == 0 && tensors == prepared && own == old(own)
    {
      Plan(known);
      ok := PlaceFirst(prepared, last);
    }

    /** Places the tensors of the first nodes, up to `last`. */
    method PlaceFirst(prepared: seq<Tensor>, last: nat) returns (ok: bool)
      requires Ready() && planned && planner.allocs == seq(|planner.allocs|, _ => UNUSED)
      requires |planner.allocs| <= |prepared| && |planner.allocNode| <= |prepared| && Prepared(prepared, 0, last)
      modifies this, planner, planner.arena, planner.persistentArena
      ensures planner.tensorAlignment <= DEFAULT_ARENA_ALIGNMENT ==> ok
      ensures ok ==> Valid() && next == 0 && tensors == prepared && own == old(own)
    {
      hide WellFormed, TablesFit, Sound, Inv, Executed, Registered, IntervalsAgree, AlignTo, Sized, SeenIn;
      ghost var before := planner.AsView();
      ok := planner.ExecuteAllocations(With(prepared), 0, last);
      if !ok {
        return;
      }
      planned, next, tensors, toPrepare, toPlan := true, 0, prepared, last + 1, last + 1;
      separate := SeenIn(setup, planner.AsView(), own);
      DidKeepsBounded(setup.preserveAll, setup.kindOf, Execute(With(prepared), 0, last), before, planner.AsView());
      AllocatedIsGood(setup, before, StateOf(), prepared, last);
    }

    method PrepareNext(ops: Ops, ghost before: seq<State>) returns (ok: bool, ghost run: seq<State>)
      requires Valid() && next < |setup.g.nodes|
      requires IsRun(setup, before) && before[|before| - 1] == StateOf()
      modifies this`tensors, this`toPrepare, this`toPlan, planner, planner.arena, planner.persistentArena
      ensures IsRun(setup, run) && before <= run
      ensures ok ==> Valid() && next < toPlan && run[|run| - 1] == StateOf()
      ensures !ok && planner.tensorAlignment <= DEFAULT_ARENA_ALIGNMENT ==> Valid() && Misbehaves(ops)
    {
      hide Inv, IsRun, Executes, Sized;
      run, ok := before, true;
      if next == toPrepare {
        var (prepared, last) := ops.prepare(next);
        ok := Acceptable(prepared, last);
        if !ok {
          return;
        }
        ghost var a := StateOf();
        ghost var first := toPlan;
        ok := PrepareOps(prepared, last);
        if ok {
          run := run + [StateOf()];
          RunGrowsByExecute(setup, before, StateOf(), prepared, first, last);
        }
      }
    }

    /** One round of the loop of Invoke. */
    method InvokeNext(ops: Ops, ghost before: seq<State>) returns (ok: bool, ghost run: seq<State>)
      requires Valid() && next < |setup.g.nodes|
      requires IsRun(setup, before) && before[|before| - 1] == StateOf()
      modifies this, planner, planner.arena, planner.persistentArena
      ensures IsRun(setup, run) && before <= run
      ensures ok ==> Valid() && next == old(next) + 1 && run[|run| - 1] == StateOf()
      ensures !ok && planner.tensorAlignment <= DEFAULT_ARENA_ALIGNMENT ==> Valid() && Misbehaves(ops)
      ensures ok ==> var ts := Written(setup.g, old(next));
                     var xs := ops.scratch(old(next)) +
                               setup.kernels(old(next), Inputs(old(separate), setup.g.nodes[old(next)].inputs));
                     |ts| == |xs| && separate == SetAll(old(separate), ts, xs)
    {
      hide Inv, IsRun, Sized, Ready, RunsNode, Resets, SetAll, Values, AllFit, HaveSizes;
      ok, run := PrepareNext(ops, before);
      if !ok {
        return;
      }
      var scratch := ops.scratch(next);
      ok := Sizes(scratch);
      if !ok {
        return;
      }
      ghost var prepared := run;
      RunNode(scratch);
      run := run + [StateOf()];
      RunGrowsByNode(setup, prepared, StateOf(), scratch);
      if ops.resizes(next - 1) {
        ghost var ran := run;
        Resized();
        if StateOf() != ran[|ran| - 1] {
          run := run + [StateOf()];
          RunGrowsByReset(setup, ran, StateOf(), next - 1);
        }
      }
    }

    /**
     Invoke: whatever is planned and placed again on the way, the caller finds in the graph outputs
     what the nodes compute if every tensor has memory of its own. With the default alignment it fails
     only if an op misbehaves.
     */
    method Invoke(ops: Ops) returns (ok: bool, ghost run: seq<State>)
      requires Valid() && next == 0
      modifies this, planner, planner.arena, planner.persistentArena
      ensures IsRun(setup, run) && run[0] == old(StateOf())
      ensures ok ==> Valid() && next == |setup.g.nodes| && run[|run| - 1] == StateOf()
      ensures !ok && planner.tensorAlignment <= DEFAULT_ARENA_ALIGNMENT ==> Valid() && Misbehaves(ops)
      ensures ok ==> separate == RunSeparately(setup, old(separate), ops.scratch, |setup.g.nodes|)
      ensures ok ==> forall t :: t in setup.g.outputs ==>
                       Contents()(t) == RunSeparately(setup, old(separate), ops.scratch, |setup.g.nodes|)(t)
    {
      hide Inv, IsRun, Sized, Ready, SetAll, Misbehaves, Contents, Inputs, Written, Acceptable, Prepared;
      run := [StateOf()];
      assert IsRun(setup, run) by { StartIsRun(setup, StateOf()); }
      while next < |setup.g.nodes|
        invariant Valid() && next <= |setup.g.nodes|
        invariant IsRun(setup, run) && |run| > 0 && run[0] == old(StateOf()) && run[|run| - 1] == StateOf()
        invariant separate == RunSeparately(setup, old(separate), ops.scratch, next)
      {
        ghost var before := run;
        ok, run := InvokeNext(ops, before);
        if !ok {
          return;
        }
      }
      ok := true;
      OutputsFound();
    }

    lemma OutputsFound()
      requires Valid() && next == |setup.g.nodes|
      ensures forall t :: t in setup.g.outputs ==> Contents()(t) == separate(t)
    {
      hide WellFormed, TablesFit, Sound, Sized;
      forall t | t in setup.g.outputs
        ensures Contents()(t) == separate(t)
      {
        OutputIsLive(setup, t);
        assert Contents()(t) == Seen(setup, StateOf())(t);
      }
    }

    /** Writes bytes where a tensor lives. */
    method Store(t: int, x: Value)
      requires Ready() && FitsAt(setup, planner.AsView(), t, x)
      modifies this`own, planner.arena`data, planner.persistentArena`data
      ensures Ready()
      ensures (planner.AsView(), own) == Put(setup, old(planner.AsView()), old(own), t, x)
    {
      hide WellFormed, TablesFit;
      match setup.kindOf(t) {
        case ArenaRw =>
          var a := planner.allocs[t];
          planner.arena.data := planner.arena.data[..a.offset] + x + planner.arena.data[a.End()..];
        case ArenaRwPersistent =>
          var a := planner.allocs[t];
          planner.persistentArena.data :=
            planner.persistentArena.data[..a.offset] + x + planner.persistentArena.data[a.End()..];
        case Elsewhere =>
          own := Set(own, t, x);
      }
      StoreKeepsFit(setup, old(planner.AsView()), planner.AsView());
    }

    /** The caller stores inputs, or resets variables, and the next Invoke will start at the first node. */
    method SetTensors(ts: seq<int>, xs: seq<Value>)
      requires Valid() && HaveSizes(tensors, ts, xs) && forall k :: 0 <= k < |ts| ==> FromStart(setup.g, ts[k])
      modifies this`next, this`own, this`separate, planner.arena`data, planner.persistentArena`data
      ensures Valid() && Restarts(setup, old(StateOf()), StateOf(), ts, xs)
    {
      hide WellFormed, TablesFit, Sound, Sized, Registered, IntervalsAgree, AlignTo, Live;
      ghost var a := StateOf();
      StartFits(setup, a.view, tensors, toPlan, ts, xs);
      RunKeepsSized(setup, a.view, own, ts, xs, tensors, toPlan);
      StoreAll(ts, xs);
      next, separate := 0, SetAll(separate, ts, xs);
      RestartKeepsInv(setup, a, StateOf(), ts, xs);
    }

    /** The values that the next node writes: scratch bytes and its results. */
    function Values(scratch: seq<Value>): seq<Value>
      requires next < |setup.g.nodes|
      reads this, planner, planner.arena, planner.persistentArena
    {
      scratch + setup.kernels(next, Inputs(Contents(), setup.g.nodes[next].inputs))
    }

    /** What is found where each tensor lives. */
    function Contents(): int -> Value
      reads this, planner, planner.arena, planner.persistentArena
    {
      var view := View(planner.allocs, [], [], 0, 0, planner.arena.data, planner.persistentArena.data);
      SeenIn(setup, view, own)
    }

    /** The next node writes as many bytes as its tensors have. */
    predicate Sizes(scratch: seq<Value>)
      requires next < |setup.g.nodes|
      reads this, planner, planner.arena, planner.persistentArena
    {
      && |scratch| == |setup.g.nodes[next].temporaries| && |Values(scratch)| == |Written(setup.g, next)|
      && HaveSizes(tensors, Written(setup.g, next), Values(scratch))
    }

    /** The next node cannot run: preparing it resizes what must stay, or it writes too little or too much. */
    predicate Misbehaves(ops: Ops)
      reads this, planner, planner.arena, planner.persistentArena
    {
      next < |setup.g.nodes| &&
      if next == toPrepare then !Acceptable(ops.prepare(next).0, ops.prepare(next).1) else !Sizes(ops.scratch(next))
    }

    /** One node runs; it is prepared, so what it writes fits. */
    method RunNode(scratch: seq<Value>)
      requires Valid() && next < |setup.g.nodes| && next < toPlan
      requires Sizes(scratch)
      modifies this`next, this`own, this`separate, planner.arena`data, planner.persistentArena`data
      ensures Valid() && next == old(next) + 1 && RunsNode(setup, old(StateOf()), StateOf(), scratch)
      ensures separate == SetAll(old(separate), Written(setup.g, old(next)), old(Values(scratch)))
      ensures old(Values(scratch)) ==
              scratch + setup.kernels(old(next), Inputs(old(separate), setup.g.nodes[old(next)].inputs))
    {
      hide WellFormed, TablesFit, Sound, Sized, Inv, Registered, IntervalsAgree, AlignTo, RunsNode, Values, PutAll,
           SetAll, AllFit, HaveSizes;
      ghost var a := StateOf();
      var ts, xs := Written(setup.g, next), Values(scratch);
      ValuesAgree(scratch);
      NodeReady(setup, a, tensors, toPlan, scratch, xs);
      StoreAll(ts, xs);
      next, separate := next + 1, SetAll(separate, ts, xs);
      NodeRan(setup, a, StateOf(), tensors, toPlan, scratch, xs);
    }

    /** What the node sees in the arenas is what both machines give it. */
    lemma ValuesAgree(scratch: seq<Value>)
      requires Valid() && next < |setup.g.nodes|
      ensures Values(scratch) == scratch + setup.kernels(next, ArenaInputs(setup, StateOf(), next))
      ensures Values(scratch) == scratch + setup.kernels(next, SeparateInputs(setup, StateOf(), next))
    {
      hide WellFormed, TablesFit, Sound, Sized;
      assert forall t :: Contents()(t) == Seen(setup, StateOf())(t);
      SeenIsContents(setup, StateOf(), Contents(), next);
      InputsAgree(setup, StateOf());
    }

    /** Ops that are prepared again make their temporaries and resize nothing that keeps its place. */
    predicate Acceptable(prepared: seq<Tensor>, last: nat)
      reads this, planner
    {
      && Prepared(prepared, toPrepare, last) && |tensors| <= |prepared| && |setup.g.nodes| < NOT_ASSIGNED
      && (forall t :: 0 <= t < |tensors| && t < |setup.g.tensors| && FirstNeed(setup, t) < toPlan ==>
            prepared[t].bytes == tensors[t].bytes)
      && (forall t :: 0 <= t < |planner.allocs| && t < |prepared| && setup.kindOf(t).ArenaRwPersistent?
                      && planner.allocs[t].size > 0 ==>
            prepared[t].bytes == planner.allocs[t].size)
    }

    /** PrepareOpsAndTensors in the middle of a run: the ops up to `last` are prepared and their tensors placed. */
    method PrepareOps(prepared: seq<Tensor>, last: nat) returns (ok: bool)
      requires Valid() && next == toPrepare && Acceptable(prepared, last)
      modifies this`tensors, this`toPrepare, this`toPlan, planner, planner.arena, planner.persistentArena
      ensures planner.tensorAlignment <= DEFAULT_ARENA_ALIGNMENT ==> ok
      ensures ok ==> Valid() && toPlan == last + 1
      ensures ok ==> Executes(setup, old(StateOf()), StateOf(), prepared, old(toPlan), last)
    {
      hide WellFormed, TablesFit, Sound, Inv, Executed, Registered, IntervalsAgree, AlignTo, Sized;
      ghost var a := StateOf();
      ok := planner.ExecuteAllocations(With(prepared), toPlan, last);
      if !ok {
        return;
      }
      DidKeepsBounded(setup.preserveAll, setup.kindOf, Execute(With(prepared), toPlan, last), a.view, planner.AsView());
      PreparedAgain(setup, a, StateOf(), tensors, prepared, toPlan, last);
      tensors, toPrepare, toPlan := prepared, last + 1, last + 1;
    }

    /** A dynamic tensor was resized by the node that has just run: later nodes are prepared and placed again. */
    method Resized()
      requires Valid() && 0 < next
      modifies this`toPrepare, this`toPlan, planner`allocs, planner`raw, planner.arena`orderedAllocs
      ensures Valid() && toPlan == next
      ensures StateOf() == old(StateOf()) || Resets(setup, old(StateOf()), StateOf(), next - 1)
    {
      hide WellFormed, TablesFit, Sound, Inv, Registered, IntervalsAgree, AlignTo, Sized;
      ghost var a := StateOf();
      toPrepare := next;
      if toPlan > toPrepare {
        toPlan := toPrepare;
        var ok := planner.ResetAllocationsAfter(toPlan - 1);
        ResetAgain(setup, a, StateOf(), toPlan - 1, tensors, old(toPlan));
      }
    }

    method StoreAll(ts: seq<int>, xs: seq<Value>)
      requires Ready() && AllFit(setup, planner.AsView(), ts, xs)
      modifies this`own, planner.arena`data, planner.persistentArena`data
      ensures Ready()
      ensures (planner.AsView(), own) == PutAll(setup, old(planner.AsView()), old(own), ts, xs)
    {
      hide WellFormed, TablesFit, Put;
      for k := 0 to |ts|
        invariant Ready() && AllFit(setup, planner.AsView(), ts[k..], xs[k..])
        invariant PutAll(setup, planner.AsView(), own, ts[k..], xs[k..])
               == PutAll(setup, old(planner.AsView()), old(own), ts, xs)
      {
        assert ts[k..][0] == ts[k] && xs[k..][0] == xs[k] && ts[k..][1..] == ts[k + 1..] && xs[k..][1..] == xs[k + 1..];
        assert FitsAt(setup, planner.AsView(), ts[k..][0], xs[k..][0]);
        Store(ts[k], xs[k]);
      }
    }
  }

  lemma NodeReady(s: Setup, a: State, tensors: seq<Tensor>, n: nat, scratch: seq<Value>, xs: seq<Value>)
    requires Inv(s, a) && Sized(s, a.view, tensors, n) && a.next < n && a.next < |s.g.nodes|
    requires |scratch| == |s.g.nodes[a.next].temporaries| && HaveSizes(tensors, Written(s.g, a.next), xs)
    ensures AllFit(s, a.view, Written(s.g, a.next), xs)
  {
    PreparedNodeFits(s, a.view, tensors, n, a.next, xs);
  }

  lemma NodeRan(s: Setup, a: State, b: State, tensors: seq<Tensor>, n: nat, scratch: seq<Value>, xs: seq<Value>)
    requires |s.g.nodes| < NOT_ASSIGNED && Inv(s, a) && Sized(s, a.view, tensors, n) && a.next < |s.g.nodes|
    requires |scratch| == |s.g.nodes[a.next].temporaries| && AllFit(s, a.view, Written(s.g, a.next), xs)
    requires xs == scratch + s.kernels(a.next, ArenaInputs(s, a, a.next))
    requires xs == scratch + s.kernels(a.next, SeparateInputs(s, a, a.next))
    requires b.next == a.next + 1 && (b.view, b.own) == PutAll(s, a.view, a.own, Written(s.g, a.next), xs)
    requires b.separate == SetAll(a.separate, Written(s.g, a.next), xs)
    ensures RunsNode(s, a, b, scratch) && Inv(s, b) && Sized(s, b.view, tensors, n)
  {
    hide WellFormed, Sound, TablesFit, Sized, Live;
    assert RunsNode(s, a, b, scratch);
    RunKeepsInv(s, a, b, scratch);
    RunKeepsSized(s, a.view, a.own, Written(s.g, a.next), xs, tensors, n);
  }

  lemma StartIsRun(s: Setup, st: State)
    requires Inv(s, st) && st.next == 0
    ensures IsRun(s, [st])
  {
  }

  lemma RunGrows(s: Setup, run: seq<State>, b: State)
    requires IsRun(s, run) && Step(s, run[|run| - 1], b)
    ensures IsRun(s, run + [b])
  {
    hide Step, Inv;
    var longer := run + [b];
    forall k | 0 <= k < |longer| - 1
      ensures Step(s, longer[k], longer[k + 1])
    {
      assert k < |run| - 1 ==> Step(s, run[k], run[k + 1]);
    }
  }

  lemma RunGrowsByExecute(s: Setup, run: seq<State>, b: State, tensors: seq<Tensor>, first: nat, last: nat)
    requires IsRun(s, run) && Executes(s, run[|run| - 1], b, tensors, first, last)
    ensures IsRun(s, run + [b])
  {
    hide Executes, IsRun;
    RunGrows(s, run, b);
  }

  lemma RunGrowsByNode(s: Setup, run: seq<State>, b: State, scratch: seq<Value>)
    requires IsRun(s, run) && RunsNode(s, run[|run| - 1], b, scratch)
    ensures IsRun(s, run + [b])
  {
    hide RunsNode, IsRun;
    RunGrows(s, run, b);
  }

  lemma RunGrowsByReset(s: Setup, run: seq<State>, b: State, node: nat)
    requires IsRun(s, run) && Resets(s, run[|run| - 1], b, node)
    ensures IsRun(s, run + [b])
  {
    hide Resets, IsRun;
    RunGrows(s, run, b);
  }

  lemma PreparedAgain(s: Setup, a: State, b: State, tensors: seq<Tensor>, tensors': seq<Tensor>, first: nat, last: nat)
    requires |s.g.nodes| < NOT_ASSIGNED && Inv(s, a) && Executes(s, a, b, tensors', first, last)
    requires Sized(s, a.view, tensors, first) && KeepsSizes(s, a.view, tensors, tensors', first)
    requires forall i :: first <= i <= last && i < |s.g.nodes| ==> AllIn(s.g.nodes[i].temporaries, |tensors'|)
    ensures Inv(s, b) && TablesFit(s, b.view) && Sized(s, b.view, tensors', last + 1)
    ensures |b.view.allocs| == |b.view.allocNode| == |tensors'|
  {
    ExecuteKeepsInv(s, a, b, tensors', first, last);
    ExecuteMakesSized(s, a.view, b.view, tensors, tensors', first, last);
  }

  lemma ResetAgain(s: Setup, a: State, b: State, node: nat, tensors: seq<Tensor>, n: nat)
    requires |s.g.nodes| < NOT_ASSIGNED && Inv(s, a) && Resets(s, a, b, node)
    requires Sized(s, a.view, tensors, n) && node < n
    ensures Inv(s, b) && TablesFit(s, b.view) && Sized(s, b.view, tensors, node + 1)
  {
    ResetKeepsInv(s, a, b, node);
    ResetKeepsSized(s, a, b, node, tensors, n);
  }

  lemma SeenIsContents(s: Setup, st: State, contents: int -> Value, i: nat)
    requires i < |s.g.nodes| && forall t :: contents(t) == Seen(s, st)(t)
    ensures Inputs(contents, s.g.nodes[i].inputs) == ArenaInputs(s, st, i)
  {
  }

  /** An input or a variable, if its size is right, fits: it is placed before anything runs. */
  lemma StartFits(s: Setup, v: View, tensors: seq<Tensor>, n: nat, ts: seq<int>, xs: seq<Value>)
    requires WellFormed(s) && Sound(v, s.kindOf) && Sized(s, v, tensors, n) && n > 0
    requires HaveSizes(tensors, ts, xs) && forall k :: 0 <= k < |ts| ==> FromStart(s.g, ts[k])
    ensures AllFit(s, v, ts, xs)
  {
    forall k | 0 <= k < |ts|
      ensures FitsAt(s, v, ts[k], xs[k])
    {
      var t := ts[k];
      assert Defined(s, t, 0);
      DefinedIsNeeded(s, t, 0);
      if !s.kindOf(t).Elsewhere? && v.allocs[t].size > 0 {
        assert Placed(v, s.kindOf, s.kindOf(t), t);
      }
    }
  }

  /** Whether tables fit does not depend on bytes. */
  lemma StoreKeepsFit(s: Setup, v: View, v': View)
    requires |s.g.nodes| < NOT_ASSIGNED
    requires v' == v.(arenaData := v'.arenaData, persistentData := v'.persistentData)
    ensures TablesFit(s, v) ==> TablesFit(s, v')
  {
  }

  /** Freshly allocated tensors make a good start, with whatever bytes they hold. */
  lemma AllocatedIsGood(s: Setup, before: View, st: State, tensors: seq<Tensor>, last: nat)
    requires WellFormed(s) && TablesFit(s, before) && last < NOT_ASSIGNED
    requires before.allocs == seq(|before.allocs|, _ => UNUSED)
    requires |before.allocs| <= |tensors| && |before.allocNode| <= |tensors| <= |s.g.tensors|
    requires Executed(s.g.(tensors := tensors), s.preserveAll, s.kindOf, before, st.view, 0, last)
    requires forall i :: 0 <= i <= last && i < |s.g.nodes| ==> AllIn(s.g.nodes[i].temporaries, |tensors|)
    requires st.next == 0 && st.separate == Seen(s, st)
    ensures Inv(s, st) && TablesFit(s, st.view) && Sized(s, st.view, tensors, last + 1)
    ensures |st.view.allocs| == |st.view.allocNode| == |tensors|
  {
    PlanningMakesGoodStart(s, before, st, tensors, last);
    ExecuteMakesSized(s, before, st.view, [], tensors, 0, last);
  }
}
