/** When each tensor is needed: what PlanAllocations computes by counting references. */
module Lifetimes {
  import opened TfliteGraph

  /** kNodeNotAssigned */
  const NOT_ASSIGNED: int := 0x7FFF_FFFF

  /** Variables and graph inputs are allocated before the first node. */
  predicate FromStart(g: Graph, t: int) {
    t in g.variables || (t != OPTIONAL && t in g.inputs)
  }

  /** Tensors that must never be overwritten. */
  predicate Pinned(g: Graph, t: int) {
    FromStart(g, t) || t in g.outputs
  }

  /** The first of the nodes below `n` that produces `t`. */
  function FirstProducer(g: Graph, t: int, n: nat): (p: int)
    requires n <= |g.nodes| < NOT_ASSIGNED
    ensures p == NOT_ASSIGNED || 0 <= p < n
    ensures p == NOT_ASSIGNED ==> forall i :: 0 <= i < n ==> !Produces(g, i, t)
    ensures p < n ==> Produces(g, p, t) && forall i :: 0 <= i < p ==> !Produces(g, i, t)
  {
    if n == 0 then NOT_ASSIGNED
    else
      var p := FirstProducer(g, t, n - 1);
      if p != NOT_ASSIGNED then p else if Produces(g, n - 1, t) then n - 1 else NOT_ASSIGNED
  }

  /** The last of the nodes below `n` that reads `t`, or -1. */
  function LastConsumer(g: Graph, t: int, n: nat): (c: int)
    requires n <= |g.nodes|
    ensures -1 <= c < n
    ensures c >= 0 ==> Reads(g, c, t)
    ensures forall i :: c < i < n ==> !Reads(g, i, t)
  {
    if n == 0 then -1 else if Reads(g, n - 1, t) then n - 1 else LastConsumer(g, t, n - 1)
  }

  /** The node at which `t` is allocated, once the nodes below `n` have been considered. */
  function AllocNode(g: Graph, t: int, n: nat): int
    requires n <= |g.nodes| < NOT_ASSIGNED
  {
    if FromStart(g, t) then 0 else FirstProducer(g, t, n)
  }

  /** The node after which `t` is released, once the nodes below `n` have been considered. */
  function DeallocNode(g: Graph, preserveAll: bool, t: int, n: nat): int
    requires n <= |g.nodes| < NOT_ASSIGNED
  {
    var last := LastConsumer(g, t, n);
    if preserveAll || Pinned(g, t) || last == -1 || References(g, t, n) > 0 || AllocNode(g, t, last + 1) == NOT_ASSIGNED
    then NOT_ASSIGNED else last
  }

  /** How often the nodes from `n` on mention `t` among their inputs. */
  function References(g: Graph, t: int, n: nat): nat
    requires n <= |g.nodes|
    decreases |g.nodes| - n
  {
    if n == |g.nodes| then 0 else multiset(g.nodes[n].inputs)[t] + References(g, t, n + 1)
  }

  /** The extra references that keep outputs, variables and inputs alive. */
  function Pins(g: Graph, t: int): nat {
    multiset(g.outputs)[t] + multiset(g.variables)[t] + multiset(g.inputs)[t]
  }

  /** One node's contribution to DeallocNode. */
  lemma DeallocStep(g: Graph, preserveAll: bool, t: int, n: nat)
    requires n < |g.nodes| < NOT_ASSIGNED && t != OPTIONAL
    ensures DeallocNode(g, preserveAll, t, n + 1) ==
            if !preserveAll && Reads(g, n, t) && Pins(g, t) + References(g, t, n + 1) == 0
               && AllocNode(g, t, n + 1) != NOT_ASSIGNED
            then n else DeallocNode(g, preserveAll, t, n)
  {
    assert t in g.nodes[n].inputs <==> multiset(g.nodes[n].inputs)[t] > 0;
    assert Pins(g, t) == 0 <==> !Pinned(g, t);
  }

  /** The exact lifetime of every tensor, on every graph. */
  lemma LifetimesAreExact(g: Graph, preserveAll: bool, t: int)
    requires |g.nodes| < NOT_ASSIGNED && t != OPTIONAL
    ensures var (a, d) := (AllocNode(g, t, |g.nodes|), DeallocNode(g, preserveAll, t, |g.nodes|));
            && (d != NOT_ASSIGNED <==>
                && !preserveAll && !Pinned(g, t) && exists i :: a <= i < |g.nodes| && Reads(g, i, t))
            && (d != NOT_ASSIGNED ==>
                && 0 <= a <= d < |g.nodes|
                && Reads(g, d, t)
                && forall i :: d < i < |g.nodes| ==> !Reads(g, i, t))
  {
    var n := |g.nodes|;
    var last := LastConsumer(g, t, n);
    if last >= 0 {
      assert FirstProducer(g, t, last + 1) != NOT_ASSIGNED ==>
          FirstProducer(g, t, n) == FirstProducer(g, t, last + 1);
    }
  }
}

/** The arena planner of TensorFlow Lite (tensorflow/lite/arena_planner.cc). */
module ArenaPlanner {
  import opened TfliteGraph
  import opened Lifetimes
  import opened SimpleMemoryArena

  /** kDefaultArenaAlignment */
  const DEFAULT_ARENA_ALIGNMENT := 64

  function Elems(s: seq<int>): (r: set<int>)
    ensures forall x :: x in r <==> x in s
  {
    set x | x in s
  }

  /******* The order in which offsets are computed *******/

  /** The nodes a tensor is needed by, its size, and its index: all that the sort looks at. */
  datatype Key = Key(tensor: int, alloc: int, dealloc: int, bytes: nat) {
    predicate WholeLife() { alloc == 0 && dealloc == NOT_ASSIGNED }
  }

  /** tensor_compare */
  predicate Before(a: Key, b: Key) {
    if a.WholeLife() then (if b.WholeLife() then a.tensor < b.tensor else true)
    else if b.WholeLife() then false
    else if a.bytes != b.bytes then a.bytes > b.bytes
    else a.alloc < b.alloc
  }

  function KeyOf(g: Graph, allocNode: seq<int>, deallocNode: seq<int>, t: int): Key
    requires IsTensor(g, t) && |allocNode| == |deallocNode| == |g.tensors|
  {
    Key(t, allocNode[t], deallocNode[t], g.tensors[t].bytes)
  }

  ghost predicate AllTensors(g: Graph, order: seq<int>) {
    forall t :: t in order ==> IsTensor(g, t)
  }

  /** No tensor comes after one that it has to precede. */
  ghost predicate Sorted(g: Graph, allocNode: seq<int>, deallocNode: seq<int>, order: seq<int>)
    requires |allocNode| == |deallocNode| == |g.tensors| && AllTensors(g, order)
  {
    forall i, j :: 0 <= i < j < |order| ==>
      !Before(KeyOf(g, allocNode, deallocNode, order[j]), KeyOf(g, allocNode, deallocNode, order[i]))
  }

  /** Puts a new `t` after every tensor that need not follow it: one step of an insertion sort. */
  function InsertSorted(g: Graph, allocNode: seq<int>, deallocNode: seq<int>, order: seq<int>, t: int): (r: seq<int>)
    requires |allocNode| == |deallocNode| == |g.tensors|
    requires AllTensors(g, order) && IsTensor(g, t)
    requires Sorted(g, allocNode, deallocNode, order)
    requires NoRepeats(order) && t !in order
    ensures forall x :: x in r <==> x in order || x == t
    ensures NoRepeats(r) && Sorted(g, allocNode, deallocNode, r)
  {
    if order == [] then [t]
    else
      var init, x := order[..|order| - 1], order[|order| - 1];
      assert order == init + [x];
      if Before(KeyOf(g, allocNode, deallocNode, t), KeyOf(g, allocNode, deallocNode, x)) then
        var r := InsertSorted(g, allocNode, deallocNode, init, t);
        assert forall y :: y in r ==>
            y != x && !Before(KeyOf(g, allocNode, deallocNode, x), KeyOf(g, allocNode, deallocNode, y));
        r + [x]
      else
        NothingFollows(g, allocNode, deallocNode, order, t);
        order + [t]
  }

  lemma NothingFollows(g: Graph, allocNode: seq<int>, deallocNode: seq<int>, order: seq<int>, t: int)
    requires |allocNode| == |deallocNode| == |g.tensors|
    requires AllTensors(g, order) && IsTensor(g, t)
    requires order != [] && Sorted(g, allocNode, deallocNode, order)
    requires !Before(KeyOf(g, allocNode, deallocNode, t), KeyOf(g, allocNode, deallocNode, order[|order| - 1]))
    ensures forall y :: y in order ==> !Before(KeyOf(g, allocNode, deallocNode, t), KeyOf(g, allocNode, deallocNode, y))
  {
    forall y | y in order
      ensures !Before(KeyOf(g, allocNode, deallocNode, t), KeyOf(g, allocNode, deallocNode, y))
    {
      var i :| 0 <= i < |order| && order[i] == y;
    }
  }

  /******* The arenas and the table of allocations agree *******/

  /**
   The arena's allocations are exactly the nonempty entries of `allocs` for the tensors of type
   `kind`, except for the tensors in `pending`, none of which is registered.
   */
  ghost predicate Registered(allocs: seq<Alloc>, kindOf: int -> AllocationType, kind: AllocationType,
                             ordered: seq<Alloc>, pending: set<int>)
  {
    && OnePerTensor(ordered)
    && (forall a :: a in ordered ==>
          && 0 <= a.tensor < |allocs| && kindOf(a.tensor) == kind && a.tensor !in pending
          && a.size > 0 && allocs[a.tensor] == a)
    && (forall t :: 0 <= t < |allocs| && kindOf(t) == kind && t !in pending && allocs[t].size > 0 ==>
          allocs[t].tensor == t && allocs[t] in ordered)
  }

  lemma UnregisterOne(allocs: seq<Alloc>, kindOf: int -> AllocationType, kind: AllocationType,
                      ordered: seq<Alloc>, pending: set<int>, t: int)
    requires Registered(allocs, kindOf, kind, ordered, pending)
    ensures Registered(allocs, kindOf, kind, Without(ordered, t), pending + {t})
    ensures |ordered| <= |Without(ordered, t)| + 1
    ensures (0 <= t < |allocs| && allocs[t].size == 0) || kindOf(t) != kind || t in pending ==>
              Registered(allocs, kindOf, kind, ordered, pending + {t})
  {
    WithoutKeepsTensors(ordered, t);
  }

  lemma RegisterOne(allocs: seq<Alloc>, kindOf: int -> AllocationType, kind: AllocationType,
                    ordered: seq<Alloc>, pending: set<int>, t: int, a: Alloc)
    requires Registered(allocs, kindOf, kind, ordered, pending + {t})
    requires Ordered(ordered)
    requires 0 <= t < |allocs| && kindOf(t) == kind && (a.size > 0 ==> a.tensor == t)
    requires t !in pending
    ensures a.size == 0 ==> Registered(allocs[t := a], kindOf, kind, ordered, pending)
    ensures a.size > 0 ==> Registered(allocs[t := a], kindOf, kind, Inserted(ordered, a), pending)
  {
    if a.size > 0 {
      InsertedKeepsTensors(ordered, a);
    }
  }

  /** Every entry not about to be replaced carries the interval that the lifetime tables give its tensor. */
  ghost predicate IntervalsAgree(allocs: seq<Alloc>, kindOf: int -> AllocationType,
                                 allocNode: seq<int>, deallocNode: seq<int>, pending: set<int>)
  {
    forall t :: 0 <= t < |allocs| ==>
      if allocs[t].size == 0 then allocs[t].offset == 0
      else match kindOf(t)
      case ArenaRw =>
        t in pending ||
        (t < |allocNode| && t < |deallocNode| && allocs[t].first == allocNode[t] && allocs[t].last == deallocNode[t])
      case ArenaRwPersistent => allocs[t].first <= NOT_ASSIGNED == allocs[t].last
      case Elsewhere => false
  }

  lemma RegisteredByTensor(allocs: seq<Alloc>, kindOf: int -> AllocationType, kind: AllocationType,
                           ordered: seq<Alloc>, t: int)
    requires Registered(allocs, kindOf, kind, ordered, {})
    requires 0 <= t < |allocs| && kindOf(t) == kind && allocs[t].size > 0
    ensures allocs[t].tensor == t
  {
  }

  lemma OtherKindRegistered(allocs: seq<Alloc>, kindOf: int -> AllocationType, kind: AllocationType,
                            ordered: seq<Alloc>, t: int)
    requires Registered(allocs, kindOf, kind, ordered, {}) && 0 <= t < |allocs| && kindOf(t) != kind
    ensures Registered(allocs[t := UNUSED], kindOf, kind, ordered, {})
  {
  }

  lemma ForgottenAgrees(allocs: seq<Alloc>, kindOf: int -> AllocationType, allocNode: seq<int>, deallocNode: seq<int>,
                        t: int)
    requires IntervalsAgree(allocs, kindOf, allocNode, deallocNode, {}) && 0 <= t < |allocs|
    ensures IntervalsAgree(allocs[t := UNUSED], kindOf, allocNode, deallocNode, {})
  {
  }

  /** New tensors have no allocation yet. */
  lemma ResizedKeepsTable(allocs: seq<Alloc>, n: nat, kindOf: int -> AllocationType, kind: AllocationType,
                          ordered: seq<Alloc>)
    requires n >= |allocs| && Registered(allocs, kindOf, kind, ordered, {})
    ensures Registered(Resized(allocs, n, UNUSED), kindOf, kind, ordered, {})
  {
  }

  /** New lifetimes disagree with the table only for tensors that are about to be placed again. */
  lemma IntervalsAgreeButForDue(allocs: seq<Alloc>, n: nat, kindOf: int -> AllocationType,
                                allocNode: seq<int>, deallocNode: seq<int>,
                                allocNode': seq<int>, deallocNode': seq<int>, due: set<int>)
    requires |allocs| <= n == |allocNode'| == |deallocNode'|
    requires IntervalsAgree(allocs, kindOf, allocNode, deallocNode, {})
    requires forall t :: 0 <= t < n && t !in due ==>
               && allocNode'[t] == Resized(allocNode, n, NOT_ASSIGNED)[t]
               && deallocNode'[t] == Resized(deallocNode, n, NOT_ASSIGNED)[t]
    ensures IntervalsAgree(Resized(allocs, n, UNUSED), kindOf, allocNode', deallocNode', due)
  {
  }

  /** The last node in `first..last` that has `t` as a temporary, or -1. */
  function TemporaryOwner(g: Graph, t: int, first: nat, end: nat): (i: int)
    requires first <= end <= |g.nodes|
    ensures i == -1 || first <= i < end
    ensures i == -1 ==> forall j :: first <= j < end ==> t !in g.nodes[j].temporaries
    ensures i >= 0 ==> t in g.nodes[i].temporaries && forall j :: i < j < end ==> t !in g.nodes[j].temporaries
  {
    if first == end then -1
    else if t in g.nodes[end - 1].temporaries then end - 1
    else TemporaryOwner(g, t, first, end - 1)
  }

  /** `resize` with a default. */
  function Resized<T>(s: seq<T>, n: nat, x: T): (r: seq<T>)
    ensures |r| == n
    ensures forall k :: 0 <= k < n ==> r[k] == if k < |s| then s[k] else x
  {
    if n <= |s| then s[..n] else s + seq(n - |s|, _ => x)
  }

  /** What CalculateAllocations leaves in the table for tensor `t`. */
  ghost predicate Recalculated(g: Graph, kindOf: int -> AllocationType, allocNode: seq<int>, deallocNode: seq<int>,
                               t: int, was: Alloc, now: Alloc)
    requires IsTensor(g, t) && |allocNode| == |deallocNode| == |g.tensors|
  {
    match kindOf(t)
    case ArenaRw => now == Alloc(now.offset, g.tensors[t].bytes, t, allocNode[t], deallocNode[t])
    case ArenaRwPersistent =>
      if was.size > 0 then now == was
      else now == Alloc(now.offset, g.tensors[t].bytes, t, allocNode[t], NOT_ASSIGNED)
    case Elsewhere => now == was
  }

  /** The tensors whose allocation is due at one of the nodes `first..last`. */
  ghost function DueIn(g: Graph, allocNode: seq<int>, first: int, last: int): set<int>
    requires |allocNode| == |g.tensors|
  {
    set t | 0 <= t < |g.tensors| && first <= allocNode[t] <= last
  }

  /** The node in `first..last` that has `t` as a temporary, or -1. */
  function OwnerIn(g: Graph, t: int, first: nat, last: nat): int {
    var end := Min(last + 1, |g.nodes|);
    if first <= end then TemporaryOwner(g, t, first, end) else -1
  }

  /** The lifetime tables after ExecuteAllocations has considered the temporaries of the nodes `first..last`. */
  ghost predicate TemporariesAssigned(g: Graph, preserveAll: bool, first: nat, last: nat,
                                      allocBefore: seq<int>, deallocBefore: seq<int>,
                                      allocNode: seq<int>, deallocNode: seq<int>)
  {
    && |allocNode| == |deallocNode| == |g.tensors|
    && forall t :: 0 <= t < |g.tensors| ==>
         var owner := OwnerIn(g, t, first, last);
         && allocNode[t] == (if owner >= 0 then owner else Resized(allocBefore, |g.tensors|, NOT_ASSIGNED)[t])
         && deallocNode[t] == (if owner >= 0 && !preserveAll then owner
                               else Resized(deallocBefore, |g.tensors|, NOT_ASSIGNED)[t])
  }

  /** The allocations after the tensors that are due at the nodes `first..last` have been placed. */
  ghost predicate DuePlaced(g: Graph, kindOf: int -> AllocationType, first: nat, last: nat,
                            allocNode: seq<int>, deallocNode: seq<int>, before: seq<Alloc>, allocs: seq<Alloc>)
    requires |allocNode| == |deallocNode| == |g.tensors|
  {
    && |allocs| == |g.tensors|
    && forall t :: 0 <= t < |allocs| ==>
         var was := if t < |before| then before[t] else UNUSED;
         if first <= allocNode[t] <= last
         then Recalculated(g, kindOf, allocNode, deallocNode, t, was, allocs[t]) else allocs[t] == was
  }

  /** ResetAllocationsAfter keeps persistent tensors and the tensors needed up to `node`. */
  function AfterReset(kind: AllocationType, a: Alloc, node: int): Alloc {
    if kind.ArenaRw? && a.size > 0 && a.first > node then UNUSED else a
  }

  /** The lifetime tables account for the nodes below `n`. */
  ghost predicate PlannedUpTo(g: Graph, preserveAll: bool, n: nat, allocNode: seq<int>, deallocNode: seq<int>)
    requires n <= |g.nodes| < NOT_ASSIGNED
  {
    && |allocNode| == |deallocNode| == |g.tensors|
    && (forall t :: 0 <= t < |g.tensors| ==> allocNode[t] == AllocNode(g, t, n))
    && (forall t :: 0 <= t < |g.tensors| ==> deallocNode[t] == DeallocNode(g, preserveAll, t, n))
  }

  /** The reference counts still include the nodes from `n` on. */
  ghost predicate CountedFrom(g: Graph, n: nat, refcounts: seq<int>)
    requires n <= |g.nodes|
  {
    |refcounts| == |g.tensors| && forall t :: 0 <= t < |g.tensors| ==> refcounts[t] == Pins(g, t) + References(g, t, n)
  }

  lemma CountsCoverInputs(g: Graph, n: nat, refcounts: seq<int>, deallocNode: seq<int>)
    requires n < |g.nodes| < NOT_ASSIGNED && |deallocNode| == |g.tensors|
    requires CountedFrom(g, n, refcounts)
    requires forall t :: 0 <= t < |g.tensors| ==> deallocNode[t] == DeallocNode(g, false, t, n)
    ensures forall t :: 0 <= t < |refcounts| ==> refcounts[t] >= multiset(g.nodes[n].inputs)[t]
    ensures forall t :: 0 <= t < |refcounts| && Reads(g, n, t) ==> deallocNode[t] == NOT_ASSIGNED
  {
    forall t | 0 <= t < |refcounts| && Reads(g, n, t)
      ensures deallocNode[t] == NOT_ASSIGNED
    {
      assert multiset(g.nodes[n].inputs)[t] > 0;
    }
  }

  lemma RegisteredApart(ordered: seq<Alloc>, a: Alloc, b: Alloc)
    requires NoClash(ordered) && a in ordered && b in ordered && a != b
    requires a.Meets(b.first, b.last)
    ensures Apart(a, b)
  {
    var i, j :| 0 <= i < |ordered| && ordered[i] == a && 0 <= j < |ordered| && ordered[j] == b;
    if j < i {
      assert b.Meets(a.first, a.last);
    }
  }

  /** All that the execution of nodes depends on: allocations, lifetimes and the bytes of the two buffers. */
  datatype View = View(allocs: seq<Alloc>, allocNode: seq<int>, deallocNode: seq<int>,
                       arenaTop: nat, persistentTop: nat, arenaData: seq<Byte>, persistentData: seq<Byte>)

  ghost predicate Placed(v: View, kindOf: int -> AllocationType, kind: AllocationType, t: int) {
    0 <= t < |v.allocs| && kindOf(t) == kind && v.allocs[t].size > 0
  }

  /** Tensors whose lifetimes meet never share memory, and persistent tensors never do. */
  ghost predicate Sound(v: View, kindOf: int -> AllocationType) {
    && (forall t, u :: Placed(v, kindOf, ArenaRw, t) && Placed(v, kindOf, ArenaRw, u) && t != u ==>
          v.allocs[t].Meets(v.allocs[u].first, v.allocs[u].last) ==> Apart(v.allocs[t], v.allocs[u]))
    && (forall t, u :: Placed(v, kindOf, ArenaRwPersistent, t) && Placed(v, kindOf, ArenaRwPersistent, u) && t != u ==>
          Apart(v.allocs[t], v.allocs[u]))
    && (forall t :: Placed(v, kindOf, ArenaRw, t) ==> v.allocs[t].End() <= v.arenaTop)
    && (forall t :: Placed(v, kindOf, ArenaRwPersistent, t) ==> v.allocs[t].End() <= v.persistentTop)
    && IntervalsAgree(v.allocs, kindOf, v.allocNode, v.deallocNode, {})
  }

  /** What a successful ExecuteAllocations does to the view. */
  ghost predicate Executed(g: Graph, preserveAll: bool, kindOf: int -> AllocationType, v: View, v': View,
                           first: nat, last: nat)
  {
    && Sound(v', kindOf)
    && TemporariesAssigned(g, preserveAll, first, last, v.allocNode, v.deallocNode, v'.allocNode, v'.deallocNode)
    && DuePlaced(g, kindOf, first, last, v'.allocNode, v'.deallocNode, v.allocs, v'.allocs)
    && SameUpTo(v.arenaData, v'.arenaData, v'.arenaTop) && v'.arenaTop <= |v'.arenaData|
    && SameUpTo(v.persistentData, v'.persistentData, v'.persistentTop) && v'.persistentTop <= |v'.persistentData|
  }

  class Planner {
    const preserveAll: bool
    const tensorAlignment: nat
    // The allocation type of each tensor; it does not change while the planner is in use.
    const kindOf: int -> AllocationType
    var allocs: seq<Alloc>
    var allocNode: seq<int>
    var deallocNode: seq<int>
    const arena: Arena
    const persistentArena: Arena
    // The data pointers the planner has given to tensors; 0 is null.
    var raw: map<int, int>

    ghost predicate Valid()
      reads this`allocs, this`allocNode, this`deallocNode, arena, persistentArena
    {
      && ArenasValid()
      && Registered(allocs, kindOf, ArenaRw, arena.orderedAllocs, {})
      && Registered(allocs, kindOf, ArenaRwPersistent, persistentArena.orderedAllocs, {})
      && IntervalsAgree(allocs, kindOf, allocNode, deallocNode, {})
    }

    ghost predicate ArenasValid()
      reads arena, persistentArena
    {
      && tensorAlignment > 0
      && arena != persistentArena
      && arena.Valid() && persistentArena.Valid()
      && arena.alignment == persistentArena.alignment == DEFAULT_ARENA_ALIGNMENT
    }

    ghost function AsView(): View
      reads this`allocs, this`allocNode, this`deallocNode, arena, persistentArena
    {
      View(allocs, allocNode, deallocNode, arena.highWaterMark, persistentArena.highWaterMark,
           arena.data, persistentArena.data)
    }

    /** The invariant of the planner, read off its table of allocations. */
    lemma ValidIsSound()
      requires Valid()
      ensures Sound(AsView(), kindOf)
    {
      var v := AsView();
      forall t, u | Placed(v, kindOf, ArenaRw, t) && Placed(v, kindOf, ArenaRw, u) && t != u
                    && v.allocs[t].Meets(v.allocs[u].first, v.allocs[u].last)
        ensures Apart(v.allocs[t], v.allocs[u])
      {
        RegisteredApart(arena.orderedAllocs, allocs[t], allocs[u]);
      }
      forall t, u | Placed(v, kindOf, ArenaRwPersistent, t) && Placed(v, kindOf, ArenaRwPersistent, u) && t != u
        ensures Apart(v.allocs[t], v.allocs[u])
      {
        RegisteredApart(persistentArena.orderedAllocs, allocs[t], allocs[u]);
      }
    }

    /** The planner is used with graphs whose tensors have the allocation types it was made for. */
    ghost predicate Serves(g: Graph) {
      forall t :: 0 <= t < |g.tensors| ==> g.tensors[t].kind == kindOf(t)
    }

    constructor (preserveAll: bool, tensorAlignment: nat, kindOf: int -> AllocationType)
      requires tensorAlignment > 0
      ensures Valid() && fresh(arena) && fresh(persistentArena)
      ensures this.preserveAll == preserveAll && this.tensorAlignment == tensorAlignment && this.kindOf == kindOf
      ensures allocs == [] && allocNode == [] && deallocNode == []
    {
      this.preserveAll, this.tensorAlignment, this.kindOf := preserveAll, tensorAlignment, kindOf;
      allocs, allocNode, deallocNode, raw := [], [], [], map[];
      arena := new Arena(DEFAULT_ARENA_ALIGNMENT);
      persistentArena := new Arena(DEFAULT_ARENA_ALIGNMENT);
    }

    method ResetAllocations(g: Graph) returns (ok: bool)
      requires ArenasValid()
      modifies this`allocs, arena, persistentArena
      ensures ok && Valid()
      ensures allocs == seq(|g.tensors|, _ => UNUSED)
      ensures arena.orderedAllocs == [] && persistentArena.orderedAllocs == []
    {
      arena.ClearPlan();
      persistentArena.ClearPlan();
      allocs := seq(|g.tensors|, _ => UNUSED);
      ok := true;
    }

    method ResetAllocationsAfter(node: int) returns (ok: bool)
      requires Valid()
      modifies this`allocs, this`raw, arena`orderedAllocs
      ensures ok && Valid()
      ensures |allocs| == |old(allocs)|
      ensures forall t :: 0 <= t < |allocs| ==> allocs[t] == AfterReset(kindOf(t), old(allocs)[t], node)
      ensures forall t :: t in raw <==> t in old(raw) || (0 <= t < |allocs| && allocs[t] != old(allocs)[t])
      ensures forall t :: t in raw ==>
                raw[t] == if 0 <= t < |allocs| && allocs[t] != old(allocs)[t] then 0 else old(raw)[t]
    {
      hide Valid, AlignTo;
      for i := 0 to |allocs|
        invariant Valid() && |allocs| == |old(allocs)|
        invariant forall t :: i <= t < |allocs| ==> allocs[t] == old(allocs)[t]
        invariant forall t :: 0 <= t < i ==> allocs[t] == AfterReset(kindOf(t), old(allocs)[t], node)
        invariant forall t :: t in raw <==> t in old(raw) || (0 <= t < |allocs| && allocs[t] != old(allocs)[t])
        invariant forall t :: t in raw ==>
                    raw[t] == if 0 <= t < |allocs| && allocs[t] != old(allocs)[t] then 0 else old(raw)[t]
      {
        if allocs[i].first > node && allocs[i].size > 0 && kindOf(i).ArenaRw? {
          var erased := Forget(i);
          if !erased {
            return false;
          }
        }
      }
      ok := true;
    }

    /** Takes one tensor out of the arena and out of the table. */
    method Forget(i: nat) returns (ok: bool)
      requires Valid() && i < |allocs| && allocs[i].size > 0 && kindOf(i).ArenaRw?
      modifies this`allocs, this`raw, arena`orderedAllocs
      ensures ok && Valid()
      ensures allocs == old(allocs)[i := UNUSED]
      ensures raw == old(raw)[i := 0]
    {
      hide Registered, IntervalsAgree, AlignTo;
      assert allocs[i].tensor == i by { RegisteredByTensor(allocs, kindOf, ArenaRw, arena.orderedAllocs, i); }
      UnregisterOne(allocs, kindOf, ArenaRw, arena.orderedAllocs, {}, i);
      OtherKindRegistered(allocs, kindOf, ArenaRwPersistent, persistentArena.orderedAllocs, i);
      ForgottenAgrees(allocs, kindOf, allocNode, deallocNode, i);
      ok := arena.Deallocate(allocs[i]);
      RegisterOne(allocs, kindOf, ArenaRw, arena.orderedAllocs, {}, i, UNUSED);
      allocs := allocs[i := UNUSED];
      raw := raw[i := 0];
    }

    /** CreateTensorAllocationVector */
    method CreateTensorAllocationVector(g: Graph, first: int, last: int) returns (order: seq<int>)
      requires |allocNode| == |deallocNode| == |g.tensors|
      ensures forall t :: t in order <==> IsTensor(g, t) && first <= allocNode[t] <= last
      ensures NoRepeats(order) && Sorted(g, allocNode, deallocNode, order)
    {
      order := [];
      for i := 0 to |g.tensors|
        invariant forall t :: t in order <==> 0 <= t < i && first <= allocNode[t] <= last
        invariant NoRepeats(order) && Sorted(g, allocNode, deallocNode, order)
      {
        if first <= allocNode[i] <= last {
          order := InsertSorted(g, allocNode, deallocNode, order, i);
        }
      }
    }

    /** Everything Valid() says, except that the tensors in `pending` are not in the arena. */
    ghost predicate ValidBut(pending: set<int>)
      reads this`allocs, this`allocNode, this`deallocNode, arena, persistentArena
    {
      && ArenasValid()
      && Registered(allocs, kindOf, ArenaRw, arena.orderedAllocs, pending)
      && Registered(allocs, kindOf, ArenaRwPersistent, persistentArena.orderedAllocs, {})
      && IntervalsAgree(allocs, kindOf, allocNode, deallocNode, pending)
    }

    /** The first loop of CalculateAllocations: forget the tensors that will be placed again. */
    method Unregister(order: seq<int>) returns (ok: bool)
      requires ArenasValid() && Registered(allocs, kindOf, ArenaRw, arena.orderedAllocs, {})
      requires NoRepeats(order) && forall t :: t in order ==> 0 <= t < |allocs|
      modifies arena`orderedAllocs
      ensures ok && ArenasValid()
      ensures Registered(allocs, kindOf, ArenaRw, arena.orderedAllocs, Elems(order))
    {
      assert Elems(order[..0]) == {};
      for k := 0 to |order|
        invariant ArenasValid()
        invariant Registered(allocs, kindOf, ArenaRw, arena.orderedAllocs, Elems(order[..k]))
      {
        var t := order[k];
        assert order[k] in order;
        assert Elems(order[..k + 1]) == Elems(order[..k]) + {t};
        UnregisterOne(allocs, kindOf, ArenaRw, arena.orderedAllocs, Elems(order[..k]), t);
        if kindOf(t).ArenaRw? && allocs[t].size != 0 {
          assert t !in order[..k];
          var erased := arena.Deallocate(allocs[t]);
          if !erased {
            return false;
          }
        }
      }
      assert order[..|order|] == order;
      ok := true;
    }

    method PlaceInArena(g: Graph, t: int, ghost pending: set<int>) returns (ok: bool)
      requires IsTensor(g, t) && kindOf(t).ArenaRw? && t !in pending
      requires |allocs| == |allocNode| == |deallocNode| == |g.tensors|
      requires ValidBut(pending + {t})
      modifies this`allocs, arena`orderedAllocs, arena`highWaterMark
      ensures ok <==> tensorAlignment <= DEFAULT_ARENA_ALIGNMENT
      ensures |allocs| == |old(allocs)|
      ensures ok ==> ValidBut(pending) && allocs == old(allocs)[t := allocs[t]]
      ensures ok ==> Recalculated(g, kindOf, allocNode, deallocNode, t, old(allocs)[t], allocs[t])
    {
      hide Placement, FreeAt, AlignTo, Inserted;
      var a;
      ok, a := arena.Allocate(tensorAlignment, g.tensors[t].bytes, t, allocNode[t], deallocNode[t]);
      if ok {
        RegisterOne(allocs, kindOf, ArenaRw, old(arena.orderedAllocs), pending, t, a);
        allocs := allocs[t := a];
      }
    }

    method PlaceInPersistentArena(g: Graph, t: int, ghost pending: set<int>) returns (ok: bool)
      requires IsTensor(g, t) && kindOf(t).ArenaRwPersistent?
      requires |allocs| == |allocNode| == |deallocNode| == |g.tensors| && allocs[t].size == 0
      requires allocNode[t] <= NOT_ASSIGNED
      requires ValidBut(pending)
      modifies this`allocs, persistentArena`orderedAllocs, persistentArena`highWaterMark
      ensures ok <==> tensorAlignment <= DEFAULT_ARENA_ALIGNMENT
      ensures |allocs| == |old(allocs)|
      ensures ok ==> ValidBut(pending) && allocs == old(allocs)[t := allocs[t]]
      ensures ok ==> Recalculated(g, kindOf, allocNode, deallocNode, t, old(allocs)[t], allocs[t])
    {
      var a;
      ok, a := persistentArena.Allocate(tensorAlignment, g.tensors[t].bytes, t, allocNode[t], NOT_ASSIGNED);
      if ok {
        UnregisterOne(allocs, kindOf, ArenaRwPersistent, old(persistentArena.orderedAllocs), {}, t);
        RegisterOne(allocs, kindOf, ArenaRwPersistent, old(persistentArena.orderedAllocs), {}, t, a);
        allocs := allocs[t := a];
      }
    }

    /** The body of the second loop of CalculateAllocations. */
    method PlaceOne(g: Graph, t: int, ghost pending: set<int>) returns (ok: bool)
      requires Serves(g) && IsTensor(g, t) && t !in pending
      requires |allocs| == |allocNode| == |deallocNode| == |g.tensors|
      requires allocNode[t] <= NOT_ASSIGNED
      requires ValidBut(pending + {t})
      modifies this`allocs, arena`orderedAllocs, arena`highWaterMark,
               persistentArena`orderedAllocs, persistentArena`highWaterMark
      ensures tensorAlignment <= DEFAULT_ARENA_ALIGNMENT ==> ok
      ensures |allocs| == |old(allocs)|
      ensures ok ==> ValidBut(pending) && allocs == old(allocs)[t := allocs[t]]
      ensures ok ==> Recalculated(g, kindOf, allocNode, deallocNode, t, old(allocs)[t], allocs[t])
    {
      match g.tensors[t].kind {
        case ArenaRw =>
          ok := PlaceInArena(g, t, pending);
        case ArenaRwPersistent =>
          ok := true;
          NotPendingHere(t, pending);
          if allocs[t].size == 0 {
            ok := PlaceInPersistentArena(g, t, pending);
          }
        case Elsewhere =>
          ok := true;
          NotPendingHere(t, pending);
      }
    }

    /** The second loop of CalculateAllocations: place the tensors, in this order. */
    method PlaceAll(g: Graph, order: seq<int>) returns (ok: bool)
      requires Serves(g) && |allocs| == |allocNode| == |deallocNode| == |g.tensors|
      requires forall t :: t in order ==> IsTensor(g, t) && allocNode[t] <= NOT_ASSIGNED
      requires NoRepeats(order) && ValidBut(Elems(order))
      modifies this`allocs, arena`orderedAllocs, arena`highWaterMark,
               persistentArena`orderedAllocs, persistentArena`highWaterMark
      ensures tensorAlignment <= DEFAULT_ARENA_ALIGNMENT ==> ok
      ensures ok ==> Valid() && |allocs| == |old(allocs)|
      ensures ok ==> forall t :: 0 <= t < |allocs| ==>
                if t in order then Recalculated(g, kindOf, allocNode, deallocNode, t, old(allocs)[t], allocs[t])
                else allocs[t] == old(allocs)[t]
    {
      hide ValidBut, Registered, IntervalsAgree, ArenasValid;
      ghost var pending := Elems(order);
      for k := 0 to |order|
        invariant |allocs| == |old(allocs)| && ValidBut(pending)
        invariant pending <= Elems(order)
        invariant forall j :: 0 <= j < k ==> order[j] !in pending
        invariant forall j :: k <= j < |order| ==> order[j] in pending
        invariant forall t :: 0 <= t < |allocs| && t !in pending && t in order ==>
                    Recalculated(g, kindOf, allocNode, deallocNode, t, old(allocs)[t], allocs[t])
        invariant forall t :: 0 <= t < |allocs| && (t in pending || t !in order) ==> allocs[t] == old(allocs)[t]
      {
        var t := order[k];
        assert t in order;
        assert pending == pending - {t} + {t};
        ok := PlaceOne(g, t, pending - {t});
        if !ok {
          return;
        }
        pending := pending - {t};
      }
      NothingPending(pending, order);
      ok := true;
    }

    lemma NothingPending(pending: set<int>, order: seq<int>)
      requires pending <= Elems(order)
      requires forall j :: 0 <= j < |order| ==> order[j] !in pending
      requires ValidBut(pending)
      ensures pending == {} && Valid()
    {
      if x :| x in pending {
        assert x in order;
      }
    }

    /** Only tensors of type ArenaRw matter among the pending ones. */
    lemma NotPendingHere(t: int, pending: set<int>)
      requires ValidBut(pending + {t}) && !kindOf(t).ArenaRw?
      ensures ValidBut(pending)
    {
    }

    method CalculateAllocations(g: Graph, first: int, last: int) returns (ok: bool)
      requires Serves(g) && |allocs| == |allocNode| == |deallocNode| == |g.tensors|
      requires forall t :: 0 <= t < |allocNode| ==> allocNode[t] <= NOT_ASSIGNED
      requires ArenasValid()
      requires Registered(allocs, kindOf, ArenaRw, arena.orderedAllocs, {})
      requires Registered(allocs, kindOf, ArenaRwPersistent, persistentArena.orderedAllocs, {})
      requires IntervalsAgree(allocs, kindOf, allocNode, deallocNode, DueIn(g, allocNode, first, last))
      modifies this`allocs, arena`orderedAllocs, arena`highWaterMark,
               persistentArena`orderedAllocs, persistentArena`highWaterMark
      ensures tensorAlignment <= DEFAULT_ARENA_ALIGNMENT ==> ok
      ensures ok ==> Valid() && |allocs| == |old(allocs)|
      ensures ok ==> forall t :: 0 <= t < |allocs| ==>
                if t in DueIn(g, allocNode, first, last)
                then Recalculated(g, kindOf, allocNode, deallocNode, t, old(allocs)[t], allocs[t])
                else allocs[t] == old(allocs)[t]
    {
      var order := CreateTensorAllocationVector(g, first, last);
      assert Elems(order) == DueIn(g, allocNode, first, last);
      ok := Unregister(order);
      if ok {
        ok := PlaceAll(g, order);
      }
    }

    /** PlanAllocations: counts references to find when each tensor is allocated and released. */
    method PlanAllocations(g: Graph) returns (ok: bool)
      requires ArenasValid()
      requires IndicesOk(g) && |g.nodes| < NOT_ASSIGNED
      modifies this`allocs, this`allocNode, this`deallocNode, arena, persistentArena
      ensures ok && Valid()
      ensures allocs == seq(|g.tensors|, _ => UNUSED)
      ensures |allocNode| == |deallocNode| == |g.tensors|
      ensures forall t :: 0 <= t < |g.tensors| ==> allocNode[t] == AllocNode(g, t, |g.nodes|)
      ensures forall t :: 0 <= t < |g.tensors| ==> deallocNode[t] == DeallocNode(g, preserveAll, t, |g.nodes|)
    {
      ok := ResetAllocations(g);
      if ok {
        ok := ComputeLifetimes(g);
      }
    }

    /** The part of PlanAllocations that follows the reset. */
    method ComputeLifetimes(g: Graph) returns (ok: bool)
      requires IndicesOk(g) && |g.nodes| < NOT_ASSIGNED
      modifies this`allocNode, this`deallocNode
      ensures ok && |allocNode| == |deallocNode| == |g.tensors|
      ensures forall t :: 0 <= t < |g.tensors| ==> allocNode[t] == AllocNode(g, t, |g.nodes|)
      ensures forall t :: 0 <= t < |g.tensors| ==> deallocNode[t] == DeallocNode(g, preserveAll, t, |g.nodes|)
    {
      var n := |g.tensors|;
      allocNode := seq(n, _ => NOT_ASSIGNED);
      deallocNode := seq(n, _ => NOT_ASSIGNED);
      var refcounts: seq<int>;
      ok, refcounts := PinTensors(g);
      if !ok {
        return;
      }
      refcounts := CountReferences(g, refcounts);
      for i := 0 to |g.nodes|
        invariant PlannedUpTo(g, preserveAll, i, allocNode, deallocNode)
        invariant !preserveAll ==> CountedFrom(g, i, refcounts)
      {
        ok, refcounts := PlanNode(g, i, refcounts);
        if !ok {
          return;
        }
      }
    }

    /** The body of the loop over the execution plan. */
    method PlanNode(g: Graph, i: nat, before: seq<int>) returns (ok: bool, refcounts: seq<int>)
      requires IndicesOk(g) && i < |g.nodes| < NOT_ASSIGNED
      requires PlannedUpTo(g, preserveAll, i, allocNode, deallocNode)
      requires !preserveAll ==> CountedFrom(g, i, before)
      modifies this`allocNode, this`deallocNode
      ensures ok && PlannedUpTo(g, preserveAll, i + 1, allocNode, deallocNode)
      ensures !preserveAll ==> CountedFrom(g, i + 1, refcounts)
    {
      refcounts := before;
      ok := AllocateOutputs(g, i);
      if ok && !preserveAll {
        CountsCoverInputs(g, i, before, deallocNode);
        ok, refcounts := ReleaseInputs(g, i, before);
      }
      forall t | 0 <= t < |g.tensors|
        ensures deallocNode[t] == DeallocNode(g, preserveAll, t, i + 1)
      {
        DeallocStep(g, preserveAll, t, i);
      }
    }

    /** The lambda `allocate`: the first request for a tensor decides. */
    method AllocateAt(node: int, t: int) returns (ok: bool)
      requires 0 <= t < |allocNode| == |deallocNode|
      modifies this`allocNode
      ensures ok <==> old(allocNode)[t] != NOT_ASSIGNED || deallocNode[t] == NOT_ASSIGNED
      ensures ok ==> allocNode ==
                     if old(allocNode)[t] == NOT_ASSIGNED then old(allocNode)[t := node] else old(allocNode)
    {
      if allocNode[t] != NOT_ASSIGNED {
        return true;
      }
      if deallocNode[t] != NOT_ASSIGNED {
        return false;
      }
      allocNode := allocNode[t := node];
      ok := true;
    }

    /** The lambda `deallocate`: constants were never allocated and are skipped. */
    method DeallocateAt(node: int, t: int) returns (ok: bool)
      requires 0 <= t < |allocNode| == |deallocNode|
      modifies this`deallocNode
      ensures ok <==> allocNode[t] == NOT_ASSIGNED || old(deallocNode)[t] == NOT_ASSIGNED
      ensures ok ==> deallocNode ==
                     if allocNode[t] == NOT_ASSIGNED then old(deallocNode) else old(deallocNode)[t := node]
    {
      if allocNode[t] == NOT_ASSIGNED {
        return true;
      }
      if deallocNode[t] != NOT_ASSIGNED {
        return false;
      }
      deallocNode := deallocNode[t := node];
      ok := true;
    }

    /** The loops over outputs, variables and inputs: count one extra reference, allocate at the start. */
    method PinTensors(g: Graph) returns (ok: bool, refcounts: seq<int>)
      requires IndicesOk(g) && |g.nodes| < NOT_ASSIGNED
      requires |allocNode| == |deallocNode| == |g.tensors|
      requires forall t :: 0 <= t < |g.tensors| ==> allocNode[t] == deallocNode[t] == NOT_ASSIGNED
      modifies this`allocNode
      ensures ok && |allocNode| == |refcounts| == |g.tensors|
      ensures forall t :: 0 <= t < |g.tensors| ==> refcounts[t] == Pins(g, t)
      ensures forall t :: 0 <= t < |g.tensors| ==> allocNode[t] == AllocNode(g, t, 0)
    {
      refcounts := seq(|g.tensors|, _ => 0);
      refcounts := Counted(g.outputs, refcounts);
      ok, refcounts := PinFromStart(g.variables, refcounts);
      if ok {
        ok, refcounts := PinFromStart(g.inputs, refcounts);
      }
    }

    static method Counted(items: seq<int>, before: seq<int>) returns (refcounts: seq<int>)
      requires AllInOrOptional(items, |before|)
      ensures |refcounts| == |before|
      ensures forall t :: 0 <= t < |before| ==> refcounts[t] == before[t] + multiset(items)[t]
    {
      refcounts := before;
      for k := 0 to |items|
        invariant |refcounts| == |before|
        invariant forall t :: 0 <= t < |before| ==> refcounts[t] == before[t] + multiset(items[..k])[t]
      {
        assert items[..k + 1] == items[..k] + [items[k]];
        assert items[k] in items;
        if items[k] != OPTIONAL {
          refcounts := refcounts[items[k] := refcounts[items[k]] + 1];
        }
      }
      assert items[..|items|] == items;
    }

    method PinFromStart(items: seq<int>, before: seq<int>) returns (ok: bool, refcounts: seq<int>)
      requires |allocNode| == |deallocNode| == |before|
      requires AllInOrOptional(items, |before|)
      requires forall t :: 0 <= t < |before| ==> deallocNode[t] == NOT_ASSIGNED
      modifies this`allocNode
      ensures ok && |allocNode| == |refcounts| == |before|
      ensures forall t :: 0 <= t < |before| ==> refcounts[t] == before[t] + multiset(items)[t]
      ensures forall t :: 0 <= t < |before| ==>
                allocNode[t] == if t in items && old(allocNode)[t] == NOT_ASSIGNED then 0 else old(allocNode)[t]
    {
      refcounts := Counted(items, before);
      for k := 0 to |items|
        invariant |allocNode| == |before|
        invariant forall t :: 0 <= t < |before| ==>
                allocNode[t] == if t in items[..k] && old(allocNode)[t] == NOT_ASSIGNED then 0 else old(allocNode)[t]
      {
        assert items[..k + 1] == items[..k] + [items[k]];
        assert items[k] in items;
        if items[k] != OPTIONAL {
          ok := AllocateAt(0, items[k]);
          if !ok {
            return;
          }
        }
      }
      assert items[..|items|] == items;
      ok := true;
    }

    /** The loop that counts references to node inputs. */
    method CountReferences(g: Graph, pins: seq<int>) returns (refcounts: seq<int>)
      requires IndicesOk(g) && |pins| == |g.tensors|
      ensures |refcounts| == |pins|
      ensures forall t :: 0 <= t < |pins| ==> refcounts[t] == pins[t] + References(g, t, 0)
    {
      refcounts := pins;
      for i := 0 to |g.nodes|
        invariant |refcounts| == |pins|
        invariant forall t :: 0 <= t < |pins| ==>
                refcounts[t] + References(g, t, i) == pins[t] + References(g, t, 0)
      {
        refcounts := Counted(g.nodes[i].inputs, refcounts);
      }
    }

    /** First queue the outputs of node `i` for allocation. */
    method AllocateOutputs(g: Graph, i: nat) returns (ok: bool)
      requires i < |g.nodes| && |allocNode| == |deallocNode|
      requires AllIn(g.nodes[i].outputs, |allocNode|)
      requires forall t :: 0 <= t < |allocNode| && allocNode[t] == NOT_ASSIGNED ==> deallocNode[t] == NOT_ASSIGNED
      modifies this`allocNode
      ensures ok && |allocNode| == |old(allocNode)|
      ensures forall t :: 0 <= t < |allocNode| ==>
                allocNode[t] == if old(allocNode)[t] == NOT_ASSIGNED && Produces(g, i, t) then i else old(allocNode)[t]
    {
      var outputs := g.nodes[i].outputs;
      for j := 0 to |outputs|
        invariant |allocNode| == |old(allocNode)|
        invariant forall t :: 0 <= t < |allocNode| ==>
                allocNode[t] == if old(allocNode)[t] == NOT_ASSIGNED && t in outputs[..j] then i else old(allocNode)[t]
      {
        assert outputs[..j + 1] == outputs[..j] + [outputs[j]];
        assert outputs[j] in outputs;
        ok := AllocateAt(i, outputs[j]);
        if !ok {
          return;
        }
      }
      assert outputs[..|outputs|] == outputs;
      ok := true;
    }

    /** Then update the counts of the inputs of node `i`, and release the tensors it was the last to need. */
    method ReleaseInputs(g: Graph, i: nat, before: seq<int>) returns (ok: bool, refcounts: seq<int>)
      requires i < |g.nodes| && |allocNode| == |deallocNode| == |before|
      requires AllInOrOptional(g.nodes[i].inputs, |before|)
      requires forall t :: 0 <= t < |before| && Reads(g, i, t) ==> deallocNode[t] == NOT_ASSIGNED
      requires forall t :: 0 <= t < |before| ==> before[t] >= multiset(g.nodes[i].inputs)[t]
      modifies this`deallocNode
      ensures ok && |deallocNode| == |refcounts| == |before|
      ensures forall t :: 0 <= t < |before| ==> refcounts[t] == before[t] - multiset(g.nodes[i].inputs)[t]
      ensures forall t :: 0 <= t < |before| ==>
                deallocNode[t] == if Reads(g, i, t) && refcounts[t] == 0 && allocNode[t] != NOT_ASSIGNED
                                  then i else old(deallocNode)[t]
    {
      var inputs := g.nodes[i].inputs;
      refcounts := before;
      for j := 0 to |inputs|
        invariant |deallocNode| == |refcounts| == |before|
        invariant forall t :: 0 <= t < |before| ==> refcounts[t] == before[t] - multiset(inputs[..j])[t]
        invariant forall t :: 0 <= t < |before| ==>
                deallocNode[t] == if t in inputs[..j] && refcounts[t] == 0 && allocNode[t] != NOT_ASSIGNED
                                  then i else old(deallocNode)[t]
      {
        var t := inputs[j];
        assert inputs[..j + 1] == inputs[..j] + [t];
        assert t in inputs && inputs == inputs[..j] + [t] + inputs[j + 1..];
        if t != OPTIONAL {
          assert refcounts[t] > 0;
          refcounts := refcounts[t := refcounts[t] - 1];
          if refcounts[t] == 0 {
            ok := DeallocateAt(i, t);
            if !ok {
              return;
            }
          }
        }
      }
      assert inputs[..|inputs|] == inputs;
      ok := true;
    }

    /** Grows the tables and gives the temporaries of the nodes `first..last` their lifetimes. */
    method AssignTemporaries(g: Graph, first: nat, last: nat)
      requires forall i :: first <= i <= last && i < |g.nodes| ==> AllIn(g.nodes[i].temporaries, |g.tensors|)
      modifies this`allocNode, this`deallocNode
      ensures TemporariesAssigned(g, preserveAll, first, last, old(allocNode), old(deallocNode), allocNode, deallocNode)
    {
      var n := |g.tensors|;
      allocNode := Resized(allocNode, n, NOT_ASSIGNED);
      deallocNode := Resized(deallocNode, n, NOT_ASSIGNED);
      ghost var allocBefore, deallocBefore := allocNode, deallocNode;
      var i := first;
      while i <= last && i < |g.nodes|
        invariant |allocNode| == |deallocNode| == n
        invariant first <= i && (i == first || i <= Min(last + 1, |g.nodes|))
        invariant forall t :: 0 <= t < n ==>
                var owner := if i == first then -1 else TemporaryOwner(g, t, first, i);
                && allocNode[t] == (if owner >= 0 then owner else allocBefore[t])
                && deallocNode[t] == (if owner >= 0 && !preserveAll then owner else deallocBefore[t])
      {
        AssignTemporariesOf(g, i);
        i := i + 1;
      }
    }

    method AssignTemporariesOf(g: Graph, i: nat)
      requires i < |g.nodes| && |allocNode| == |deallocNode| == |g.tensors|
      requires AllIn(g.nodes[i].temporaries, |g.tensors|)
      modifies this`allocNode, this`deallocNode
      ensures |allocNode| == |deallocNode| == |g.tensors|
      ensures forall t :: 0 <= t < |g.tensors| ==>
                && allocNode[t] == (if t in g.nodes[i].temporaries then i else old(allocNode)[t])
                && deallocNode[t] ==
                   (if t in g.nodes[i].temporaries && !preserveAll then i else old(deallocNode)[t])
    {
      var temporaries := g.nodes[i].temporaries;
      for j := 0 to |temporaries|
        invariant |allocNode| == |deallocNode| == |g.tensors|
        invariant forall t :: 0 <= t < |g.tensors| ==>
                && allocNode[t] == (if t in temporaries[..j] then i else old(allocNode)[t])
                && deallocNode[t] == (if t in temporaries[..j] && !preserveAll then i else old(deallocNode)[t])
      {
        var t := temporaries[j];
        assert t in temporaries;
        assert temporaries[..j + 1] == temporaries[..j] + [t];
        allocNode := allocNode[t := i];
        if !preserveAll {
          deallocNode := deallocNode[t := i];
        }
      }
      assert temporaries[..|temporaries|] == temporaries;
    }

    /** If tensor `t` is placed, it points at its range inside the buffer of its arena. */
    ghost predicate Resolved(t: nat, pointers: map<int, int>)
      requires ArenasValid() && t < |allocs|
      reads this`allocs, arena, persistentArena
    {
      allocs[t].size > 0 && !kindOf(t).Elsewhere? ==>
        var home := if kindOf(t).ArenaRw? then arena else persistentArena;
        && t in pointers && pointers[t] == home.Base() + allocs[t].offset
        && allocs[t].End() <= |home.data|
    }

    /** Both arenas have a buffer that holds everything below the high-water mark. */
    ghost predicate Committed()
      reads arena, persistentArena
    {
      && arena.committed && arena.bufferSize >= arena.highWaterMark && |arena.data| >= arena.highWaterMark
      && persistentArena.committed && persistentArena.bufferSize >= persistentArena.highWaterMark
      && |persistentArena.data| >= persistentArena.highWaterMark
    }

    method ResolveTensorAllocation(g: Graph, t: nat) returns (ok: bool)
      requires Valid() && Serves(g) && Committed() && t < |allocs| == |g.tensors|
      modifies this`raw
      ensures ok && Resolved(t, raw)
      ensures forall u :: u != t ==> (u in raw <==> u in old(raw)) && (u in raw ==> raw[u] == old(raw)[u])
    {
      hide AlignTo;
      ok := true;
      var kind, pointer := g.tensors[t].kind, 0;
      if kind.ArenaRw? {
        if allocs[t].size != 0 {
          assert allocs[t] in arena.orderedAllocs;
          ok, pointer := arena.ResolveAlloc(allocs[t]);
          raw := raw[t := pointer];
        }
      } else if kind.ArenaRwPersistent? {
        assert allocs[t].size > 0 ==> allocs[t] in persistentArena.orderedAllocs;
        ok, pointer := persistentArena.ResolveAlloc(allocs[t]);
        raw := raw[t := pointer];
      }
    }

    method ResolveTensorAllocations(g: Graph) returns (ok: bool)
      requires Valid() && Serves(g) && Committed() && |allocs| == |g.tensors|
      modifies this`raw
      ensures ok && forall t :: 0 <= t < |allocs| ==> Resolved(t, raw)
    {
      hide Registered, IntervalsAgree, AlignTo;
      for t := 0 to |g.tensors|
        invariant forall u :: 0 <= u < t ==> Resolved(u, raw)
      {
        ghost var before := raw;
        ok := ResolveTensorAllocation(g, t);
        if !ok {
          return;
        }
        forall u: nat | u < t
          ensures Resolved(u, raw)
        {
          assert Resolved(u, before);
        }
      }
      ok := true;
    }

    /** ExecuteAllocations: places every tensor that is first needed by one of the nodes `first..last`. */
    method ExecuteAllocations(g: Graph, first: nat, last: nat) returns (ok: bool)
      requires Valid() && Serves(g)
      requires forall i :: first <= i <= last && i < |g.nodes| ==> AllIn(g.nodes[i].temporaries, |g.tensors|)
      requires |g.nodes| < NOT_ASSIGNED
      requires forall t :: 0 <= t < |allocNode| ==> allocNode[t] <= NOT_ASSIGNED
      modifies this`allocs, this`allocNode, this`deallocNode, this`raw, arena, persistentArena
      ensures |g.tensors| >= |old(allocs)| && tensorAlignment <= DEFAULT_ARENA_ALIGNMENT ==> ok
      ensures ok ==> Valid() && |allocs| >= |old(allocs)| && forall t :: 0 <= t < |allocs| ==> Resolved(t, raw)
      ensures ok ==> Executed(g, preserveAll, kindOf, old(AsView()), AsView(), first, last)
    {
      if |g.tensors| < |allocs| {
        return false;
      }
      hide Registered, IntervalsAgree, AlignTo, DuePlaced, TemporariesAssigned, Sound;
      ok := PlaceDue(g, first, last);
      if ok {
        ok := CommitAndResolve(g);
        ValidIsSound();
      }
    }

    /** Gives temporaries their lifetimes and calculates offsets. */
    method PlaceDue(g: Graph, first: nat, last: nat) returns (ok: bool)
      requires Valid() && Serves(g) && |g.tensors| >= |allocs|
      requires forall i :: first <= i <= last && i < |g.nodes| ==> AllIn(g.nodes[i].temporaries, |g.tensors|)
      requires |g.nodes| < NOT_ASSIGNED
      requires forall t :: 0 <= t < |allocNode| ==> allocNode[t] <= NOT_ASSIGNED
      modifies this`allocs, this`allocNode, this`deallocNode, arena`orderedAllocs, arena`highWaterMark,
               persistentArena`orderedAllocs, persistentArena`highWaterMark
      ensures tensorAlignment <= DEFAULT_ARENA_ALIGNMENT ==> ok
      ensures ok ==> Valid() && |allocs| == |allocNode| == |deallocNode| == |g.tensors|
      ensures ok ==>
                && TemporariesAssigned(g, preserveAll, first, last, old(allocNode), old(deallocNode),
                                       allocNode, deallocNode)
                && DuePlaced(g, kindOf, first, last, allocNode, deallocNode, old(allocs), allocs)
    {
      hide Registered, IntervalsAgree, AlignTo, Recalculated;
      AssignTemporaries(g, first, last);
      ResizedKeepsTable(allocs, |g.tensors|, kindOf, ArenaRw, arena.orderedAllocs);
      ResizedKeepsTable(allocs, |g.tensors|, kindOf, ArenaRwPersistent, persistentArena.orderedAllocs);
      IntervalsAgreeButForDue(allocs, |g.tensors|, kindOf, old(allocNode), old(deallocNode),
                              allocNode, deallocNode, DueIn(g, allocNode, first, last));
      allocs := Resized(allocs, |g.tensors|, UNUSED);
      ok := CalculateAllocations(g, first, last);
    }

    /** Commits both arenas and resolves the pointers of all tensors, since a base pointer may have moved. */
    method CommitAndResolve(g: Graph) returns (ok: bool)
      requires Valid() && Serves(g) && |allocs| == |g.tensors|
      modifies this`raw, arena`committed, arena`bufferAddress, arena`bufferSize, arena`data,
               persistentArena`committed, persistentArena`bufferAddress, persistentArena`bufferSize,
               persistentArena`data
      ensures ok && Valid() && Committed() && forall t :: 0 <= t < |allocs| ==> Resolved(t, raw)
      ensures SameUpTo(old(arena.data), arena.data, arena.highWaterMark)
      ensures SameUpTo(old(persistentArena.data), persistentArena.data, persistentArena.highWaterMark)
    {
      hide Registered, IntervalsAgree, AlignTo;
      ok := arena.Commit();
      if ok {
        ok := persistentArena.Commit();
      }
      if ok {
        ok := ResolveTensorAllocations(g);
      }
    }
  }
}
