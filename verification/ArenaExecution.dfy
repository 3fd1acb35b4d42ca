/**
 Running a graph in the shared arenas.

 Two machines run the same nodes side by side. In one, every tensor has memory of its own. In the
 other, tensors live where the planner has put them, and the planner is called again and again
 between nodes. Both give every node the same inputs and the caller the same outputs.
 */
module ArenaExecution {
  import opened TfliteGraph
  import opened Lifetimes
  import opened SimpleMemoryArena
  import opened ArenaPlanner

  type Value = seq<Byte>

  /** What the node at a plan position computes from the values of its inputs. */
  type Kernels = (nat, seq<Value>) -> seq<Value>

  /** A graph, its allocation types and kernels; fixed while nodes run. */
  datatype Setup = Setup(g: Graph, kindOf: int -> AllocationType, preserveAll: bool, kernels: Kernels)

  /** Both machines: the planner's view, memory of tensors outside the arenas, and the separate memories. */
  datatype State = State(next: nat, view: View, own: int -> Value, separate: int -> Value)

  /******* Well-formed graphs *******/

  predicate IsTemporary(g: Graph, i: nat, t: int)
    requires i < |g.nodes|
  {
    t in g.nodes[i].temporaries
  }

  /** A temporary belongs to one node and to nothing else. */
  ghost predicate TemporariesOk(g: Graph) {
    && (forall i :: 0 <= i < |g.nodes| ==> AllIn(g.nodes[i].temporaries, |g.tensors|))
    && (forall i, j, t :: 0 <= i < |g.nodes| && 0 <= j < |g.nodes| && IsTemporary(g, i, t) && IsTemporary(g, j, t) ==>
          i == j)
    && (forall i, j, t :: 0 <= i < |g.nodes| && 0 <= j < |g.nodes| && IsTemporary(g, i, t) ==>
          !Produces(g, j, t) && !Reads(g, j, t))
    && (forall i, t :: 0 <= i < |g.nodes| && IsTemporary(g, i, t) ==> !Pinned(g, t))
  }

  /** `t` holds a value once the nodes below `n` have run. */
  ghost predicate Defined(s: Setup, t: int, n: nat) {
    && 0 <= t < |s.g.tensors|
    && (FromStart(s.g, t) || (exists p :: 0 <= p < n && p < |s.g.nodes| && Produces(s.g, p, t))
        || (s.kindOf(t).Elsewhere? && Owner(s.g, t) == -1
            && forall p :: 0 <= p < |s.g.nodes| ==> !Produces(s.g, p, t)))
  }

  ghost predicate WellFormed(s: Setup) {
    && |s.g.nodes| < NOT_ASSIGNED
    && IndicesOk(s.g) && UniqueProducers(s.g) && Topological(s.g) && TemporariesOk(s.g)
    && (forall i, t :: 0 <= i < |s.g.nodes| && Reads(s.g, i, t) ==> Defined(s, t, i))
    && (forall t :: t in s.g.outputs ==> Defined(s, t, |s.g.nodes|))
    && (forall i, values :: 0 <= i < |s.g.nodes| ==> |s.kernels(i, values)| == |Results(s.g, i)|)
  }

  /******* Lifetimes *******/

  function Owner(g: Graph, t: int): int { TemporaryOwner(g, t, 0, |g.nodes|) }

  function FirstNeed(s: Setup, t: int): int
    requires |s.g.nodes| < NOT_ASSIGNED
  {
    if Owner(s.g, t) >= 0 then Owner(s.g, t) else AllocNode(s.g, t, |s.g.nodes|)
  }

  function LastNeed(s: Setup, t: int): int
    requires |s.g.nodes| < NOT_ASSIGNED
  {
    if Owner(s.g, t) < 0 then DeallocNode(s.g, s.preserveAll, t, |s.g.nodes|)
    else if s.preserveAll then NOT_ASSIGNED
    else Owner(s.g, t)
  }

  /******* Memory *******/

  function Bytes(data: seq<Byte>, a: Alloc): Value {
    if a.End() <= |data| then data[a.offset..a.End()] else []
  }

  function Overwritten(data: seq<Byte>, a: Alloc, x: Value): seq<Byte>
    requires a.End() <= |data|
  {
    data[..a.offset] + x + data[a.End()..]
  }

  predicate HasPlace(s: Setup, v: View, t: int) {
    s.kindOf(t).Elsewhere? ||
    (0 <= t < |v.allocs|
     && v.allocs[t].End() <= if s.kindOf(t).ArenaRw? then |v.arenaData| else |v.persistentData|)
  }

  function Fetch(s: Setup, v: View, own: int -> Value, t: int): Value
    requires HasPlace(s, v, t)
  {
    match s.kindOf(t)
    case ArenaRw => Bytes(v.arenaData, v.allocs[t])
    case ArenaRwPersistent => Bytes(v.persistentData, v.allocs[t])
    case Elsewhere => own(t)
  }

  /** `x` fits the place of `t` exactly. */
  predicate FitsAt(s: Setup, v: View, t: int, x: Value) {
    HasPlace(s, v, t) && (s.kindOf(t).Elsewhere? || |x| == v.allocs[t].size)
  }

  function Set(f: int -> Value, t: int, x: Value): int -> Value {
    u => if u == t then x else f(u)
  }

  function Put(s: Setup, v: View, own: int -> Value, t: int, x: Value): (r: (View, int -> Value))
    requires FitsAt(s, v, t, x)
    ensures r.0 == v.(arenaData := r.0.arenaData, persistentData := r.0.persistentData)
    ensures |r.0.arenaData| == |v.arenaData| && |r.0.persistentData| == |v.persistentData|
  {
    match s.kindOf(t)
    case ArenaRw => (v.(arenaData := Overwritten(v.arenaData, v.allocs[t], x)), own)
    case ArenaRwPersistent => (v.(persistentData := Overwritten(v.persistentData, v.allocs[t], x)), own)
    case Elsewhere => (v, Set(own, t, x))
  }

  /** Two tensors may be written independently. */
  predicate Separate(s: Setup, v: View, t: int, u: int) {
    t != u && HasPlace(s, v, t) && HasPlace(s, v, u) &&
    (s.kindOf(t) == s.kindOf(u) && !s.kindOf(t).Elsewhere? ==> Apart(v.allocs[t], v.allocs[u]))
  }

  lemma BytesAfterWrite(data: seq<Byte>, a: Alloc, b: Alloc, x: Value)
    requires a.End() <= |data| && b.End() <= |data| && |x| == a.size
    ensures Bytes(Overwritten(data, a, x), a) == x
    ensures Apart(a, b) ==> Bytes(Overwritten(data, a, x), b) == Bytes(data, b)
  {
    var data' := Overwritten(data, a, x);
    assert data'[a.offset..a.End()] == x;
    if b.End() <= a.offset {
      assert data'[b.offset..b.End()] == data[b.offset..b.End()];
    } else if a.End() <= b.offset {
      assert data'[b.offset..b.End()] == data[b.offset..b.End()];
    }
  }

  /** A write is seen at its tensor and nowhere else. */
  lemma FetchAfterPut(s: Setup, v: View, own: int -> Value, t: int, x: Value, u: int)
    requires FitsAt(s, v, t, x) && HasPlace(s, v, u)
    requires t == u || Separate(s, v, t, u)
    ensures var (v', own') := Put(s, v, own, t, x);
            HasPlace(s, v', u) && Fetch(s, v', own', u) == if t == u then x else Fetch(s, v, own, u)
  {
    if s.kindOf(t) == s.kindOf(u) && !s.kindOf(t).Elsewhere? {
      BytesAfterWrite(if s.kindOf(t).ArenaRw? then v.arenaData else v.persistentData, v.allocs[t], v.allocs[u], x);
    }
  }

  /******* One node *******/

  /** Variables among the inputs of a node: it may update them in place. */
  function VariablesOf(g: Graph, inputs: seq<int>): (r: seq<int>)
    ensures forall t :: t in r <==> t in inputs && t in g.variables
  {
    if inputs == [] then []
    else (if inputs[0] in g.variables then [inputs[0]] else []) + VariablesOf(g, inputs[1..])
  }

  /** The tensors whose new values a kernel returns. */
  function Results(g: Graph, i: nat): seq<int>
    requires i < |g.nodes|
  {
    g.nodes[i].outputs + VariablesOf(g, g.nodes[i].inputs)
  }

  /** Everything a node writes: scratch bytes into its temporaries, then its results. */
  function Written(g: Graph, i: nat): seq<int>
    requires i < |g.nodes|
  {
    g.nodes[i].temporaries + Results(g, i)
  }

  function Inputs(f: int -> Value, inputs: seq<int>): seq<Value> {
    seq(|inputs|, k requires 0 <= k < |inputs| => if inputs[k] == OPTIONAL then [] else f(inputs[k]))
  }

  /** The separate memories after writing `xs` to `ts`, in order. */
  function SetAll(f: int -> Value, ts: seq<int>, xs: seq<Value>): int -> Value
    requires |ts| == |xs|
  {
    if ts == [] then f else SetAll(Set(f, ts[0], xs[0]), ts[1..], xs[1..])
  }

  ghost predicate AllFit(s: Setup, v: View, ts: seq<int>, xs: seq<Value>) {
    |ts| == |xs| && forall k :: 0 <= k < |ts| ==> FitsAt(s, v, ts[k], xs[k])
  }

  /** The arenas after writing `xs` to `ts`, in order. */
  ghost function PutAll(s: Setup, v: View, own: int -> Value, ts: seq<int>, xs: seq<Value>): (r: (View, int -> Value))
    requires AllFit(s, v, ts, xs)
    ensures r.0 == v.(arenaData := r.0.arenaData, persistentData := r.0.persistentData)
    ensures |r.0.arenaData| == |v.arenaData| && |r.0.persistentData| == |v.persistentData|
    decreases |ts|
  {
    if ts == [] then (v, own)
    else
      var (v', own') := Put(s, v, own, ts[0], xs[0]);
      assert AllFit(s, v', ts[1..], xs[1..]);
      PutAll(s, v', own', ts[1..], xs[1..])
  }

  /** Writing the same values leaves `u` with the same contents in both machines. */
  lemma {:induction false} WritesAgree(s: Setup, v: View, own: int -> Value, f: int -> Value,
                                       ts: seq<int>, xs: seq<Value>, u: int)
    requires AllFit(s, v, ts, xs) && HasPlace(s, v, u)
    requires forall k :: 0 <= k < |ts| && ts[k] != u ==> Separate(s, v, ts[k], u)
    requires u in ts || Fetch(s, v, own, u) == f(u)
    ensures var (v', own') := PutAll(s, v, own, ts, xs);
            HasPlace(s, v', u) && Fetch(s, v', own', u) == SetAll(f, ts, xs)(u)
    decreases |ts|
  {
    if ts != [] {
      var (v', own') := Put(s, v, own, ts[0], xs[0]);
      FetchAfterPut(s, v, own, ts[0], xs[0], u);
      assert forall k :: 0 <= k < |ts[1..]| ==> ts[1..][k] == ts[k + 1];
      WritesAgree(s, v', own', Set(f, ts[0], xs[0]), ts[1..], xs[1..], u);
    }
  }

  /******* Runs *******/

  /** Contents of a tensor in the arenas; empty if it has no place. */
  function SeenIn(s: Setup, v: View, own: int -> Value): int -> Value {
    t => if HasPlace(s, v, t) then Fetch(s, v, own, t) else []
  }

  function Seen(s: Setup, st: State): int -> Value { SeenIn(s, st.view, st.own) }

  /** The inputs that the two machines give to node `i`. */
  function ArenaInputs(s: Setup, st: State, i: nat): seq<Value>
    requires i < |s.g.nodes|
  {
    Inputs(Seen(s, st), s.g.nodes[i].inputs)
  }

  function SeparateInputs(s: Setup, st: State, i: nat): seq<Value>
    requires i < |s.g.nodes|
  {
    Inputs(st.separate, s.g.nodes[i].inputs)
  }

  /** The next node runs in both machines; its temporaries end up holding `scratch`. */
  ghost predicate RunsNode(s: Setup, a: State, b: State, scratch: seq<Value>) {
    var i := a.next;
    && i < |s.g.nodes| && b.next == i + 1
    && |scratch| == |s.g.nodes[i].temporaries|
    && var ts := Written(s.g, i);
       var xs := scratch + s.kernels(i, ArenaInputs(s, a, i));
       var ys := scratch + s.kernels(i, SeparateInputs(s, a, i));
       && AllFit(s, a.view, ts, xs) && |ys| == |ts|
       && (b.view, b.own) == PutAll(s, a.view, a.own, ts, xs)
       && b.separate == SetAll(a.separate, ts, ys)
  }

  /** ExecuteAllocations for nodes that have not run, with the tensors and their sizes known by now. */
  ghost predicate Executes(s: Setup, a: State, b: State, tensors: seq<Tensor>, first: nat, last: nat) {
    && |a.view.allocs| <= |tensors| && |a.view.allocNode| <= |tensors| <= |s.g.tensors|
    && 1 <= first && a.next <= first && last < NOT_ASSIGNED
    && Executed(s.g.(tensors := tensors), s.preserveAll, s.kindOf, a.view, b.view, first, last)
    && b == a.(view := b.view)
  }

  /** ResetAllocationsAfter a node that is not before the last one that ran. */
  ghost predicate Resets(s: Setup, a: State, b: State, node: nat) {
    && a.next <= node + 1
    && |b.view.allocs| == |a.view.allocs|
    && (forall t :: 0 <= t < |a.view.allocs| ==>
          b.view.allocs[t] == AfterReset(s.kindOf(t), a.view.allocs[t], node))
    && b == a.(view := a.view.(allocs := b.view.allocs))
  }

  /** The nodes start over: some inputs or variables get new values, all else keeps its contents. */
  ghost predicate Restarts(s: Setup, a: State, b: State, ts: seq<int>, xs: seq<Value>) {
    && AllFit(s, a.view, ts, xs) && (forall k :: 0 <= k < |ts| ==> FromStart(s.g, ts[k]))
    && b.next == 0
    && (b.view, b.own) == PutAll(s, a.view, a.own, ts, xs)
    && b.separate == SetAll(a.separate, ts, xs)
  }

  ghost predicate Step(s: Setup, a: State, b: State) {
    || (exists scratch :: RunsNode(s, a, b, scratch))
    || (exists tensors, first, last :: Executes(s, a, b, tensors, first, last))
    || (exists node :: Resets(s, a, b, node))
    || (exists ts, xs :: Restarts(s, a, b, ts, xs))
  }

  /**
   The tables give every tensor its lifetime, except that temporaries may still be unknown or, while
   ops have not been prepared, not exist.
   */
  ghost predicate TablesFit(s: Setup, v: View)
    requires |s.g.nodes| < NOT_ASSIGNED
  {
    && |v.allocs| <= |s.g.tensors| && |v.allocNode| == |v.deallocNode| <= |s.g.tensors|
    && (forall t :: 0 <= t < |s.g.tensors| && (|v.allocs| <= t || |v.allocNode| <= t) ==> Owner(s.g, t) >= 0)
    && (forall t :: 0 <= t < |v.allocNode| ==> LifetimeFits(s, t, v.allocNode[t], v.deallocNode[t]))
    && (forall t :: Placed(v, s.kindOf, ArenaRw, t) ==> t < |v.allocNode| && v.allocNode[t] != NOT_ASSIGNED)
  }

  ghost predicate LifetimeFits(s: Setup, t: int, first: int, last: int)
    requires |s.g.nodes| < NOT_ASSIGNED
  {
    || (first == FirstNeed(s, t) && last == LastNeed(s, t))
    || (Owner(s.g, t) >= 0 && first == last == NOT_ASSIGNED)
  }

  /** `t` holds a value that some node, or the caller, may still read. */
  ghost predicate Live(s: Setup, t: int, n: nat)
    requires |s.g.nodes| < NOT_ASSIGNED
  {
    Defined(s, t, n) && n <= LastNeed(s, t)
  }

  ghost predicate Inv(s: Setup, st: State) {
    && WellFormed(s) && st.next <= |s.g.nodes|
    && Sound(st.view, s.kindOf) && TablesFit(s, st.view)
    && forall t :: Live(s, t, st.next) ==>
         HasPlace(s, st.view, t) && Fetch(s, st.view, st.own, t) == st.separate(t)
  }

  lemma OwnerIsUnique(s: Setup, i: nat, t: int)
    requires WellFormed(s) && i < |s.g.nodes| && IsTemporary(s.g, i, t)
    ensures Owner(s.g, t) == i
  {
    var o := Owner(s.g, t);
    assert IsTemporary(s.g, o, t);
  }

  /** ExecuteAllocations gives a temporary to its owner or leaves it alone. */
  lemma OwnerInIsOwner(s: Setup, tensors: seq<Tensor>, t: int, first: nat, last: nat)
    requires WellFormed(s)
    ensures OwnerIn(s.g.(tensors := tensors), t, first, last) in {-1, Owner(s.g, t)}
    ensures first <= Owner(s.g, t) <= last ==> OwnerIn(s.g.(tensors := tensors), t, first, last) == Owner(s.g, t)
  {
    var owner := OwnerIn(s.g.(tensors := tensors), t, first, last);
    if owner != -1 {
      OwnerIsUnique(s, owner, t);
    }
  }

  /** A temporary is nobody's input or output. */
  lemma TemporaryIsPrivate(s: Setup, t: int)
    requires WellFormed(s) && Owner(s.g, t) >= 0
    ensures !Pinned(s.g, t)
    ensures forall j :: 0 <= j < |s.g.nodes| ==> !Produces(s.g, j, t) && !Reads(s.g, j, t)
  {
    assert IsTemporary(s.g, Owner(s.g, t), t);
  }

  lemma DefinedIsNeeded(s: Setup, t: int, n: nat)
    requires WellFormed(s) && Defined(s, t, n) && n <= |s.g.nodes|
    ensures Owner(s.g, t) == -1
    ensures !s.kindOf(t).Elsewhere? ==> FirstNeed(s, t) < Max(n, 1)
  {
    if Owner(s.g, t) >= 0 {
      TemporaryIsPrivate(s, t);
    } else if !FromStart(s.g, t) && !s.kindOf(t).Elsewhere? {
      var p :| 0 <= p < n && p < |s.g.nodes| && Produces(s.g, p, t);
      assert FirstProducer(s.g, t, |s.g.nodes|) <= p;
    }
  }

  /** A tensor is in its lifetime when a node writes it. */
  lemma WrittenIsNeeded(s: Setup, i: nat, t: int)
    requires WellFormed(s) && i < |s.g.nodes| && t in Written(s.g, i)
    ensures FirstNeed(s, t) <= i <= LastNeed(s, t)
  {
    if IsTemporary(s.g, i, t) {
      OwnerIsUnique(s, i, t);
    } else {
      ResultIsNeeded(s, i, t);
    }
  }

  lemma ResultIsNeeded(s: Setup, i: nat, t: int)
    requires WellFormed(s) && i < |s.g.nodes| && t in Results(s.g, i)
    ensures FirstNeed(s, t) <= i <= LastNeed(s, t)
  {
    LifetimesAreExact(s.g, s.preserveAll, t);
    if t in s.g.nodes[i].outputs {
      assert Produces(s.g, i, t);
      assert FirstProducer(s.g, t, |s.g.nodes|) <= i;
    }
    if Owner(s.g, t) >= 0 {
      TemporaryIsPrivate(s, t);
    }
  }

  /** A tensor is in its lifetime when a node reads it. */
  lemma ReadIsLive(s: Setup, i: nat, t: int)
    requires WellFormed(s) && i < |s.g.nodes| && Reads(s.g, i, t)
    ensures Live(s, t, i)
  {
    if Owner(s.g, t) >= 0 {
      TemporaryIsPrivate(s, t);
    }
    LifetimesAreExact(s.g, s.preserveAll, t);
  }

  lemma OutputIsLive(s: Setup, t: int)
    requires WellFormed(s) && t in s.g.outputs
    ensures Live(s, t, |s.g.nodes|)
  {
    if Owner(s.g, t) >= 0 {
      TemporaryIsPrivate(s, t);
    }
    LifetimesAreExact(s.g, s.preserveAll, t);
  }

  /** Tensors needed by the same node do not share memory. */
  lemma NeededTogetherApart(s: Setup, v: View, i: nat, t: int, u: int)
    requires WellFormed(s) && Sound(v, s.kindOf) && TablesFit(s, v)
    requires t != u && HasPlace(s, v, t) && HasPlace(s, v, u)
    requires FirstNeed(s, t) <= i <= LastNeed(s, t) && FirstNeed(s, u) <= i <= LastNeed(s, u)
    ensures Separate(s, v, t, u)
  {
    if s.kindOf(t) == s.kindOf(u) && !s.kindOf(t).Elsewhere? && v.allocs[t].size > 0 && v.allocs[u].size > 0 {
      assert Placed(v, s.kindOf, s.kindOf(t), t) && Placed(v, s.kindOf, s.kindOf(t), u);
    }
  }

  lemma RunKeepsInv(s: Setup, a: State, b: State, scratch: seq<Value>)
    requires Inv(s, a) && RunsNode(s, a, b, scratch)
    ensures ArenaInputs(s, a, a.next) == SeparateInputs(s, a, a.next)
    ensures Inv(s, b)
  {
    var i := a.next;
    InputsAgree(s, a);
    var ts := Written(s.g, i);
    var xs := scratch + s.kernels(i, ArenaInputs(s, a, i));
    forall t | Live(s, t, b.next)
      ensures HasPlace(s, b.view, t) && Fetch(s, b.view, b.own, t) == b.separate(t)
    {
      RunKeepsTensor(s, a, scratch, t);
    }
  }

  lemma InputsAgree(s: Setup, a: State)
    requires Inv(s, a) && a.next < |s.g.nodes|
    ensures ArenaInputs(s, a, a.next) == SeparateInputs(s, a, a.next)
  {
    var i := a.next;
    var inputs := s.g.nodes[i].inputs;
    forall k | 0 <= k < |inputs|
      ensures ArenaInputs(s, a, i)[k] == SeparateInputs(s, a, i)[k]
    {
      if inputs[k] != OPTIONAL {
        ReadIsLive(s, i, inputs[k]);
      }
    }
  }

  lemma RunKeepsTensor(s: Setup, a: State, scratch: seq<Value>, t: int)
    requires Inv(s, a) && a.next < |s.g.nodes| && |scratch| == |s.g.nodes[a.next].temporaries|
    requires Live(s, t, a.next + 1)
    requires var ts := Written(s.g, a.next);
             AllFit(s, a.view, ts, scratch + s.kernels(a.next, ArenaInputs(s, a, a.next)))
    ensures var (ts, xs) := (Written(s.g, a.next), scratch + s.kernels(a.next, ArenaInputs(s, a, a.next)));
            var (v', own') := PutAll(s, a.view, a.own, ts, xs);
            HasPlace(s, v', t) && Fetch(s, v', own', t) == SetAll(a.separate, ts, xs)(t)
  {
    var i, ts := a.next, Written(s.g, a.next);
    var xs := scratch + s.kernels(i, ArenaInputs(s, a, i));
    if t in ts {
      WrittenIsNeeded(s, i, t);
      var k :| 0 <= k < |ts| && ts[k] == t;
      assert FitsAt(s, a.view, ts[k], xs[k]);
    } else {
      NotWrittenWasLive(s, i, t);
    }
    forall k | 0 <= k < |ts| && ts[k] != t
      ensures Separate(s, a.view, ts[k], t)
    {
      assert FitsAt(s, a.view, ts[k], xs[k]);
      if !s.kindOf(t).Elsewhere? {
        WrittenIsNeeded(s, i, ts[k]);
        NeededTogetherApart(s, a.view, i, ts[k], t);
      }
    }
    WritesAgree(s, a.view, a.own, a.separate, ts, xs, t);
  }

  lemma NotWrittenWasLive(s: Setup, i: nat, t: int)
    requires WellFormed(s) && i < |s.g.nodes| && t !in Written(s.g, i) && Live(s, t, i + 1)
    ensures Live(s, t, i)
    ensures !s.kindOf(t).Elsewhere? ==> FirstNeed(s, t) <= i
  {
    assert !Produces(s.g, i, t);
    DefinedIsNeeded(s, t, i);
  }

  /** Tables keep fitting when temporaries become known. */
  lemma ExecuteKeepsTables(s: Setup, v: View, v': View, tensors: seq<Tensor>, first: nat, last: nat)
    requires WellFormed(s) && TablesFit(s, v) && last < NOT_ASSIGNED
    requires |v.allocs| <= |tensors| && |v.allocNode| <= |tensors| <= |s.g.tensors|
    requires Executed(s.g.(tensors := tensors), s.preserveAll, s.kindOf, v, v', first, last)
    ensures TablesFit(s, v')
  {
    var h := s.g.(tensors := tensors);
    forall t | 0 <= t < |v'.allocNode|
      ensures LifetimeFits(s, t, v'.allocNode[t], v'.deallocNode[t])
    {
      OwnerInIsOwner(s, tensors, t, first, last);
    }
    forall t | Placed(v', s.kindOf, ArenaRw, t)
      ensures v'.allocNode[t] != NOT_ASSIGNED
    {
      assert first <= v'.allocNode[t] <= last || Placed(v, s.kindOf, ArenaRw, t);
    }
  }

  lemma ExecuteKeepsInv(s: Setup, a: State, b: State, tensors: seq<Tensor>, first: nat, last: nat)
    requires Inv(s, a) && Executes(s, a, b, tensors, first, last)
    ensures Inv(s, b)
  {
    ExecuteKeepsTables(s, a.view, b.view, tensors, first, last);
    forall t | Live(s, t, b.next)
      ensures HasPlace(s, b.view, t) && Fetch(s, b.view, b.own, t) == b.separate(t)
    {
      if !s.kindOf(t).Elsewhere? {
        DefinedIsNeeded(s, t, a.next);
        ExecuteLeavesAlone(s, a.view, b.view, tensors, first, last, t);
        SameBytes(s, a.view, b.view, t);
      }
    }
  }

  /** A tensor that is needed before node `first` keeps its place. */
  lemma ExecuteLeavesAlone(s: Setup, v: View, v': View, tensors: seq<Tensor>, first: nat, last: nat, t: int)
    requires WellFormed(s) && TablesFit(s, v) && 0 <= t < |s.g.tensors|
    requires |v.allocs| <= |tensors| && |v.allocNode| <= |tensors| <= |s.g.tensors|
    requires Executed(s.g.(tensors := tensors), s.preserveAll, s.kindOf, v, v', first, last)
    requires Owner(s.g, t) == -1 && FirstNeed(s, t) < first
    ensures t < |v.allocs| && t < |v'.allocs| && v'.allocs[t] == v.allocs[t]
  {
    OwnerInIsOwner(s, tensors, t, first, last);
  }

  lemma SameBytes(s: Setup, v: View, v': View, t: int)
    requires !s.kindOf(t).Elsewhere? && HasPlace(s, v, t) && 0 <= t < |v'.allocs| && v'.allocs[t] == v.allocs[t]
    requires Sound(v', s.kindOf)
    requires SameUpTo(v.arenaData, v'.arenaData, v'.arenaTop) && v'.arenaTop <= |v'.arenaData|
    requires SameUpTo(v.persistentData, v'.persistentData, v'.persistentTop) && v'.persistentTop <= |v'.persistentData|
    ensures HasPlace(s, v', t) && forall own :: Fetch(s, v', own, t) == Fetch(s, v, own, t)
  {
    var a := v.allocs[t];
    if a.size > 0 {
      assert Placed(v', s.kindOf, s.kindOf(t), t);
      if s.kindOf(t).ArenaRw? {
        assert Bytes(v'.arenaData, a) == Bytes(v.arenaData, a);
      } else {
        assert Bytes(v'.persistentData, a) == Bytes(v.persistentData, a);
      }
    }
  }

  lemma ResetKeepsSound(s: Setup, a: State, b: State, node: nat)
    requires Sound(a.view, s.kindOf) && Resets(s, a, b, node)
    ensures Sound(b.view, s.kindOf)
    ensures forall t, kind :: Placed(b.view, s.kindOf, kind, t) ==>
              Placed(a.view, s.kindOf, kind, t) && b.view.allocs[t] == a.view.allocs[t]
  {
  }

  lemma ResetKeepsInv(s: Setup, a: State, b: State, node: nat)
    requires Inv(s, a) && Resets(s, a, b, node)
    ensures Inv(s, b)
  {
    ResetKeepsSound(s, a, b, node);
    assert TablesFit(s, b.view);
    hide WellFormed;
    forall t | Live(s, t, b.next)
      ensures HasPlace(s, b.view, t) && Fetch(s, b.view, b.own, t) == b.separate(t)
    {
      if !s.kindOf(t).Elsewhere? {
        DefinedIsNeeded(s, t, a.next);
        ResetLeavesAlone(s, a, b, node, t);
      }
    }
  }

  /** A tensor that is needed before node `node + 1` keeps its place. */
  lemma ResetLeavesAlone(s: Setup, a: State, b: State, node: nat, t: int)
    requires |s.g.nodes| < NOT_ASSIGNED && Resets(s, a, b, node)
    requires Sound(a.view, s.kindOf) && TablesFit(s, a.view)
    requires 0 <= t < |s.g.tensors| && Owner(s.g, t) == -1 && FirstNeed(s, t) <= node
    ensures t < |a.view.allocs| && b.view.allocs[t] == a.view.allocs[t]
  {
  }

  /** What has a value before the first node is never released. */
  lemma FromStartIsLive(s: Setup, t: int, n: nat)
    requires WellFormed(s) && Live(s, t, 0) && n <= |s.g.nodes|
    ensures Live(s, t, n) && LastNeed(s, t) == NOT_ASSIGNED
    ensures !s.kindOf(t).Elsewhere? ==> FirstNeed(s, t) == 0
  {
    DefinedIsNeeded(s, t, 0);
    LifetimesAreExact(s.g, s.preserveAll, t);
  }

  lemma RestartKeepsInv(s: Setup, a: State, b: State, ts: seq<int>, xs: seq<Value>)
    requires Inv(s, a) && Restarts(s, a, b, ts, xs)
    ensures Inv(s, b)
  {
    forall t | Live(s, t, 0)
      ensures HasPlace(s, b.view, t) && Fetch(s, b.view, b.own, t) == b.separate(t)
    {
      RestartKeepsTensor(s, a, ts, xs, t);
    }
  }

  lemma RestartKeepsTensor(s: Setup, a: State, ts: seq<int>, xs: seq<Value>, t: int)
    requires Inv(s, a) && AllFit(s, a.view, ts, xs) && Live(s, t, 0)
    requires forall k :: 0 <= k < |ts| ==> FromStart(s.g, ts[k])
    ensures var (v', own') := PutAll(s, a.view, a.own, ts, xs);
            HasPlace(s, v', t) && Fetch(s, v', own', t) == SetAll(a.separate, ts, xs)(t)
  {
    FromStartIsLive(s, t, a.next);
    forall k | 0 <= k < |ts| && ts[k] != t
      ensures Separate(s, a.view, ts[k], t)
    {
      assert FitsAt(s, a.view, ts[k], xs[k]);
      assert Defined(s, ts[k], 0);
      LifetimesAreExact(s.g, s.preserveAll, ts[k]);
      DefinedIsNeeded(s, ts[k], 0);
      FromStartIsLive(s, ts[k], a.next);
      if !s.kindOf(t).Elsewhere? {
        NeededTogetherApart(s, a.view, 0, ts[k], t);
      }
    }
    WritesAgree(s, a.view, a.own, a.separate, ts, xs, t);
  }

  /** A run: a sequence of states that starts well and proceeds by steps. */
  ghost predicate IsRun(s: Setup, run: seq<State>) {
    && |run| > 0
    && run[0].next == 0 && Inv(s, run[0])
    && forall k :: 0 <= k < |run| - 1 ==> Step(s, run[k], run[k + 1])
  }

  lemma {:induction false} RunKeepsAgreement(s: Setup, run: seq<State>, k: nat)
    requires IsRun(s, run) && k < |run|
    ensures Inv(s, run[k])
  {
    if k > 0 {
      RunKeepsAgreement(s, run, k - 1);
      var a, b := run[k - 1], run[k];
      assert Step(s, run[k - 1], run[k - 1 + 1]);
      if scratch :| RunsNode(s, a, b, scratch) {
        RunKeepsInv(s, a, b, scratch);
      } else if tensors, first, last :| Executes(s, a, b, tensors, first, last) {
        ExecuteKeepsInv(s, a, b, tensors, first, last);
      } else if node :| Resets(s, a, b, node) {
        ResetKeepsInv(s, a, b, node);
      } else {
        var ts, xs :| Restarts(s, a, b, ts, xs);
        RestartKeepsInv(s, a, b, ts, xs);
      }
    }
  }

  /** The shared arenas are as good as separate memories, however planning and running interleave. */
  lemma ArenaRefinesSeparateMemory(s: Setup, run: seq<State>, k: nat)
    requires IsRun(s, run) && k < |run|
    ensures var st := run[k];
            && (st.next < |s.g.nodes| ==> ArenaInputs(s, st, st.next) == SeparateInputs(s, st, st.next))
            && (st.next == |s.g.nodes| ==> forall t :: t in s.g.outputs ==> Seen(s, st)(t) == st.separate(t))
  {
    var st := run[k];
    RunKeepsAgreement(s, run, k);
    if st.next < |s.g.nodes| {
      InputsAgree(s, st);
    } else {
      forall t | t in s.g.outputs
        ensures Seen(s, st)(t) == st.separate(t)
      {
        OutputIsLive(s, t);
      }
    }
  }

  /** PlanAllocations fills tables that fit, although ops may add temporaries later. */
  lemma PlanFits(s: Setup, g: Graph, v: View)
    requires WellFormed(s) && g == s.g.(tensors := g.tensors) && |g.tensors| <= |s.g.tensors|
    requires forall t :: |g.tensors| <= t < |s.g.tensors| ==> Owner(s.g, t) >= 0
    requires v.allocs == seq(|g.tensors|, _ => UNUSED)
    requires PlannedUpTo(g, s.preserveAll, |g.nodes|, v.allocNode, v.deallocNode)
    ensures TablesFit(s, v)
  {
    forall t | 0 <= t < |v.allocNode|
      ensures LifetimeFits(s, t, v.allocNode[t], v.deallocNode[t])
    {
      SameLifetime(s, g, t, |g.nodes|);
      if Owner(s.g, t) >= 0 {
        TemporaryIsPrivate(s, t);
        LifetimesAreExact(s.g, s.preserveAll, t);
      }
    }
  }

  /** Lifetimes do not depend on which tensors exist. */
  lemma {:induction false} SameLifetime(s: Setup, g: Graph, t: int, n: nat)
    requires n <= |s.g.nodes| < NOT_ASSIGNED && g == s.g.(tensors := g.tensors)
    ensures FirstProducer(g, t, n) == FirstProducer(s.g, t, n)
    ensures AllocNode(g, t, n) == AllocNode(s.g, t, n)
    ensures DeallocNode(g, s.preserveAll, t, n) == DeallocNode(s.g, s.preserveAll, t, n)
  {
    SameProducer(s.g, g, t, n);
    SameConsumer(s.g, g, t, n);
    SameProducer(s.g, g, t, LastConsumer(g, t, n) + 1);
    SameReferences(s.g, g, t, n);
  }

  lemma {:induction false} SameProducer(f: Graph, g: Graph, t: int, n: nat)
    requires n <= |f.nodes| < NOT_ASSIGNED && g == f.(tensors := g.tensors)
    ensures FirstProducer(g, t, n) == FirstProducer(f, t, n)
  {
    if n > 0 {
      SameProducer(f, g, t, n - 1);
    }
  }

  lemma {:induction false} SameConsumer(f: Graph, g: Graph, t: int, n: nat)
    requires n <= |f.nodes| && g == f.(tensors := g.tensors)
    ensures LastConsumer(g, t, n) == LastConsumer(f, t, n)
  {
    if n > 0 {
      SameConsumer(f, g, t, n - 1);
    }
  }

  lemma {:induction false} SameReferences(f: Graph, g: Graph, t: int, n: nat)
    requires n <= |f.nodes| && g == f.(tensors := g.tensors)
    ensures References(g, t, n) == References(f, t, n)
    decreases |f.nodes| - n
  {
    if n < |f.nodes| {
      SameReferences(f, g, t, n + 1);
    }
  }

  /** Placing the tensors of the first nodes and storing the inputs make a good start. */
  lemma PlanningMakesGoodStart(s: Setup, planned: View, st: State, tensors: seq<Tensor>, last: nat)
    requires WellFormed(s) && TablesFit(s, planned) && last < NOT_ASSIGNED
    requires |planned.allocs| <= |tensors| && |planned.allocNode| <= |tensors| <= |s.g.tensors|
    requires Executed(s.g.(tensors := tensors), s.preserveAll, s.kindOf, planned, st.view, 0, last)
    // The caller has stored inputs, variables and constants.
    requires st.next == 0
    requires forall t :: Live(s, t, 0) && HasPlace(s, st.view, t) ==> Fetch(s, st.view, st.own, t) == st.separate(t)
    ensures IsRun(s, [st])
  {
    ExecuteKeepsTables(s, planned, st.view, tensors, 0, last);
    forall t | Live(s, t, 0)
      ensures HasPlace(s, st.view, t)
    {
      DefinedIsNeeded(s, t, 0);
      if !s.kindOf(t).Elsewhere? && st.view.allocs[t].size > 0 {
        assert Placed(st.view, s.kindOf, s.kindOf(t), t);
      }
    }
  }

  /******* Every node that was prepared fits *******/

  /** The tensors first needed before node `n` are placed with the sizes given. */
  ghost predicate Sized(s: Setup, v: View, tensors: seq<Tensor>, n: nat)
    requires |s.g.nodes| < NOT_ASSIGNED
  {
    && v.arenaTop <= |v.arenaData| && v.persistentTop <= |v.persistentData|
    && forall t :: 0 <= t < |s.g.tensors| && !s.kindOf(t).Elsewhere? && FirstNeed(s, t) < n ==>
         t < |tensors| && t < |v.allocs| && v.allocs[t].size == tensors[t].bytes
  }

  predicate HaveSizes(tensors: seq<Tensor>, ts: seq<int>, xs: seq<Value>) {
    |xs| == |ts| && forall k :: 0 <= k < |ts| ==> 0 <= ts[k] < |tensors| ==> |xs[k]| == tensors[ts[k]].bytes
  }

  /** Whatever a prepared node writes, if it has the sizes of its tensors, fits the places of its tensors. */
  lemma PreparedNodeFits(s: Setup, v: View, tensors: seq<Tensor>, n: nat, i: nat, xs: seq<Value>)
    requires WellFormed(s) && Sound(v, s.kindOf) && Sized(s, v, tensors, n) && i < n && i < |s.g.nodes|
    requires HaveSizes(tensors, Written(s.g, i), xs)
    ensures AllFit(s, v, Written(s.g, i), xs)
  {
    var ts := Written(s.g, i);
    forall k | 0 <= k < |ts|
      ensures FitsAt(s, v, ts[k], xs[k])
    {
      var t := ts[k];
      WrittenIsNeeded(s, i, t);
      WrittenIsTensor(s, i, t);
      if !s.kindOf(t).Elsewhere? && v.allocs[t].size > 0 {
        assert Placed(v, s.kindOf, s.kindOf(t), t);
      }
    }
  }

  lemma WrittenIsTensor(s: Setup, i: nat, t: int)
    requires WellFormed(s) && i < |s.g.nodes| && t in Written(s.g, i)
    ensures 0 <= t < |s.g.tensors|
  {
    var node := s.g.nodes[i];
    assert AllIn(node.temporaries, |s.g.tensors|) && AllIn(node.outputs, |s.g.tensors|);
    assert t in node.temporaries || t in node.outputs || t in s.g.variables;
  }

  /** Ops that are prepared again do not resize what was placed before, nor what is placed for ever. */
  ghost predicate KeepsSizes(s: Setup, v: View, tensors: seq<Tensor>, tensors': seq<Tensor>, first: nat)
    requires |s.g.nodes| < NOT_ASSIGNED
  {
    && |tensors| <= |tensors'|
    && (forall t :: 0 <= t < |tensors| && t < |s.g.tensors| && FirstNeed(s, t) < first ==>
          tensors'[t].bytes == tensors[t].bytes)
    && (forall t :: Placed(v, s.kindOf, ArenaRwPersistent, t) && t < |tensors'| ==>
          tensors'[t].bytes == v.allocs[t].size)
  }

  /** After ExecuteAllocations for `first..last` every node up to `last` fits. */
  lemma ExecuteMakesSized(s: Setup, v: View, v': View, tensors: seq<Tensor>, tensors': seq<Tensor>,
                          first: nat, last: nat)
    requires WellFormed(s) && TablesFit(s, v) && last < NOT_ASSIGNED
    requires |v.allocs| <= |tensors'| && |v.allocNode| <= |tensors'| <= |s.g.tensors|
    requires Executed(s.g.(tensors := tensors'), s.preserveAll, s.kindOf, v, v', first, last)
    requires first == 0 || Sized(s, v, tensors, first)
    requires KeepsSizes(s, v, tensors, tensors', first)
    // The temporaries of the nodes prepared exist.
    requires forall i :: first <= i <= last && i < |s.g.nodes| ==> AllIn(s.g.nodes[i].temporaries, |tensors'|)
    ensures Sized(s, v', tensors', last + 1)
  {
    ExecuteKeepsTables(s, v, v', tensors', first, last);
    forall t | 0 <= t < |s.g.tensors| && !s.kindOf(t).Elsewhere? && FirstNeed(s, t) < last + 1
      ensures t < |tensors'| && t < |v'.allocs| && v'.allocs[t].size == tensors'[t].bytes
    {
      ExecuteSizesTensor(s, v, v', tensors, tensors', first, last, t);
    }
  }

  lemma ExecuteSizesTensor(s: Setup, v: View, v': View, tensors: seq<Tensor>, tensors': seq<Tensor>,
                           first: nat, last: nat, t: int)
    requires WellFormed(s) && TablesFit(s, v) && TablesFit(s, v') && last < NOT_ASSIGNED
    requires |v.allocs| <= |tensors'| && |v.allocNode| <= |tensors'| <= |s.g.tensors|
    requires Executed(s.g.(tensors := tensors'), s.preserveAll, s.kindOf, v, v', first, last)
    requires first == 0 || Sized(s, v, tensors, first)
    requires KeepsSizes(s, v, tensors, tensors', first)
    requires forall i :: first <= i <= last && i < |s.g.nodes| ==> AllIn(s.g.nodes[i].temporaries, |tensors'|)
    requires 0 <= t < |s.g.tensors| && !s.kindOf(t).Elsewhere? && FirstNeed(s, t) <= last
    ensures t < |tensors'| && t < |v'.allocs| && v'.allocs[t].size == tensors'[t].bytes
  {
    OwnerInIsOwner(s, tensors', t, first, last);
    if Owner(s.g, t) >= 0 {
      assert IsTemporary(s.g, Owner(s.g, t), t);
    }
  }

  lemma RunKeepsSized(s: Setup, v: View, own: int -> Value, ts: seq<int>, xs: seq<Value>, tensors: seq<Tensor>, n: nat)
    requires |s.g.nodes| < NOT_ASSIGNED && AllFit(s, v, ts, xs) && Sized(s, v, tensors, n)
    ensures Sized(s, PutAll(s, v, own, ts, xs).0, tensors, n)
  {
  }

  /** ResetAllocationsAfter leaves the nodes up to that one prepared. */
  lemma ResetKeepsSized(s: Setup, a: State, b: State, node: nat, tensors: seq<Tensor>, n: nat)
    requires Inv(s, a) && Resets(s, a, b, node) && Sized(s, a.view, tensors, n)
    ensures Sized(s, b.view, tensors, if n < node + 1 then n else node + 1)
  {
  }
}
