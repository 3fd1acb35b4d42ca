/**
 Graphs and sessions of the C API (tensorflow/c/c_api.cc, tensorflow/c/python_api.cc).

 Threads add and change graph nodes, and sessions receive nodes in batches. A graph has a lock and
 every session has one. A step is what a thread does between two lock operations.
 */
module GraphSession {

  datatype Option<T> = None | Some(value: T)

  /** A NodeDef: the control inputs it lists, and all else that it says. */
  datatype Def = Def(controls: seq<string>, rest: int)

  /** A live node. */
  datatype Node = Node(name: string, isOp: bool, def: Def)

  /** A node as the inner session got it. */
  datatype Copy = Copy(id: nat, def: Def)

  /**
   A TF_Session and its entry in TF_Graph::sessions. `delivered` is what the inner session holds,
   `warning` whether a mutation warning is waiting to be logged. For the record, `flagged` are the
   nodes a warning was recorded for, with their definitions at the last such time, and `logged` the
   same for warnings that a log message has followed.
   */
  datatype Session = Session(last: nat, delivered: seq<Copy>, warning: bool,
                             flagged: map<nat, Def>, logged: map<nat, Def>, lock: Option<nat>)

  /** Where a thread is in one of the calls that take more than one step. */
  datatype Pc =
    | ExtendEntry(s: nat)                                  // ExtendSessionGraphHelper wants the graph lock
    | ExtendGraphLocked(s: nat)                            // has it, wants the session lock
    | ExtendBothLocked(s: nat)                             // has both
    | Extending(s: nat, batch: seq<Copy>, upTo: nat)       // has the session lock, calls Session::Extend
    | MutateEntry(id: nat, def: Def)                       // a mutator wants the graph lock
    | Mutating(id: nat, pending: set<nat>)                 // has it; RecordMutation has `pending` to visit
    | Freeing                                              // found that it must delete the graph

  datatype State = State(nodes: map<nat, Node>, numIds: nat, nameMap: map<string, nat>,
                         sessions: map<nat, Session>, graphLock: Option<nat>, threads: map<nat, Pc>,
                         deleteRequested: bool, frees: nat)

  datatype Action =
    | AddNode(name: string, def: Def)
    | AddRolledBack(name: string)
    | NewSession(s: nat)
    | LoadSession(s: nat, nodes: map<nat, Node>, numIds: nat, nameMap: map<string, nat>)
    | DeleteSession(t: nat, s: nat)
    | DeleteGraph(t: nat)
    | Free(t: nat)
    | CallExtend(t: nat, s: nat)
    | LockGraph(t: nat)
    | LockSession(t: nat)
    | Snapshot(t: nat, acyclic: bool)
    | FinishExtend(t: nat, ok: bool)
    | CallMutate(t: nat, id: nat, def: Def)
    | Visit(t: nat, s: nat)
    | EndMutation(t: nat)

  /******* The batch for Session::Extend *******/

  /** The live op nodes with ids in `[lo, hi)`, by id. */
  function OpsIn(nodes: map<nat, Node>, lo: nat, hi: nat): seq<Copy> {
    if hi <= lo then []
    else
      var id := hi - 1;
      OpsIn(nodes, lo, id) + if id in nodes && nodes[id].isOp then [Copy(id, nodes[id].def)] else []
  }

  /** The loop that fills the GraphDef. */
  method FillGraphDef(nodes: map<nat, Node>, last: nat, numNodes: nat) returns (batch: seq<Copy>)
    ensures batch == OpsIn(nodes, last, numNodes)
  {
    batch := [];
    var id := last;
    while id < numNodes
      invariant last <= id && (id <= numNodes || id == last)
      invariant batch == OpsIn(nodes, last, id)
    {
      if id in nodes && nodes[id].isOp {
        batch := batch + [Copy(id, nodes[id].def)];
      }
      id := id + 1;
    }
  }

  /** `copies` are the ops of the graph with ids in `[lo, hi)`, each once and in id order. */
  ghost predicate Exactly(nodes: map<nat, Node>, copies: seq<Copy>, lo: nat, hi: nat) {
    && (forall i, j :: 0 <= i < j < |copies| ==> copies[i].id < copies[j].id)
    && (forall i :: 0 <= i < |copies| ==>
          lo <= copies[i].id < hi && copies[i].id in nodes && nodes[copies[i].id].isOp)
    && (forall id :: lo <= id < hi && id in nodes && nodes[id].isOp ==>
          exists i :: 0 <= i < |copies| && copies[i].id == id)
  }

  lemma {:induction false} OpsInIsExact(nodes: map<nat, Node>, lo: nat, hi: nat)
    ensures Exactly(nodes, OpsIn(nodes, lo, hi), lo, hi)
  {
    hide Exactly;
    if lo < hi {
      OpsInIsExact(nodes, lo, hi - 1);
      var last := if hi - 1 in nodes && nodes[hi - 1].isOp then [Copy(hi - 1, nodes[hi - 1].def)] else [];
      ExactlyOne(nodes, hi - 1);
      ExactlyJoins(nodes, OpsIn(nodes, lo, hi - 1), last, lo, hi - 1, hi);
    } else {
      ExactlyNone(nodes, lo, hi);
    }
  }

  lemma ExactlyOne(nodes: map<nat, Node>, id: nat)
    ensures Exactly(nodes, if id in nodes && nodes[id].isOp then [Copy(id, nodes[id].def)] else [], id, id + 1)
  {
    if id in nodes && nodes[id].isOp {
      assert [Copy(id, nodes[id].def)][0].id == id;
    }
  }

  lemma ExactlyNone(nodes: map<nat, Node>, lo: nat, hi: nat)
    requires forall id: nat :: lo <= id < hi && id in nodes ==> !nodes[id].isOp
    ensures Exactly(nodes, [], lo, hi)
  {
  }

  predicate UpToDate(nodes: map<nat, Node>, c: Copy) { c.id in nodes && nodes[c.id].def == c.def }

  lemma {:induction false} OpsInAreUpToDate(nodes: map<nat, Node>, lo: nat, hi: nat)
    ensures forall i :: 0 <= i < |OpsIn(nodes, lo, hi)| ==> UpToDate(nodes, OpsIn(nodes, lo, hi)[i])
  {
    if lo < hi {
      OpsInAreUpToDate(nodes, lo, hi - 1);
    }
  }

  lemma ExactlyJoins(nodes: map<nat, Node>, a: seq<Copy>, b: seq<Copy>, lo: nat, mid: nat, hi: nat)
    requires Exactly(nodes, a, lo, mid) && Exactly(nodes, b, mid, hi) && lo <= mid <= hi
    ensures Exactly(nodes, a + b, lo, hi)
  {
    var all := a + b;
    forall id | lo <= id < hi && id in nodes && nodes[id].isOp
      ensures exists i :: 0 <= i < |all| && all[i].id == id
    {
      if id < mid {
        var i :| 0 <= i < |a| && a[i].id == id;
        assert all[i].id == id;
      } else {
        var i :| 0 <= i < |b| && b[i].id == id;
        assert all[|a| + i].id == id;
      }
    }
  }

  /** Changing a definition or adding nodes at the end keeps a list exact. */
  lemma ExactlyKept(nodes: map<nat, Node>, nodes': map<nat, Node>, copies: seq<Copy>, lo: nat, hi: nat)
    requires Exactly(nodes, copies, lo, hi)
    requires forall id :: id < hi ==> (id in nodes <==> id in nodes')
    requires forall id :: id < hi && id in nodes ==> nodes'[id].isOp == nodes[id].isOp
    ensures Exactly(nodes', copies, lo, hi)
  {
  }

  /******* Steps *******/

  predicate Idle(st: State, t: nat) { t !in st.threads }

  predicate At(st: State, t: nat) { t in st.threads }

  predicate GraphFree(st: State) { st.graphLock.None? }

  function Drop(threads: map<nat, Pc>, t: nat): map<nat, Pc> { threads - {t} }

  predicate UsesSession(pc: Pc, s: nat) {
    match pc
    case ExtendEntry(x) => x == s
    case ExtendGraphLocked(x) => x == s
    case ExtendBothLocked(x) => x == s
    case Extending(x, _, _) => x == s
    case _ => false
  }

  predicate Mutates(pc: Pc) { pc.MutateEntry? || pc.Mutating? }

  /** The name map holds the live ops, each under its name. */
  ghost predicate Named(nodes: map<nat, Node>, numIds: nat, nameMap: map<string, nat>) {
    && (forall id :: id in nodes ==> id < numIds)
    && (forall id :: id in nodes && nodes[id].isOp ==> nodes[id].name in nameMap && nameMap[nodes[id].name] == id)
    && (forall name :: name in nameMap ==>
          nameMap[name] in nodes && nodes[nameMap[name]].isOp && nodes[nameMap[name]].name == name)
  }

  /** What importing a GraphDef makes of a graph: old ids keep their nodes, new ones follow. */
  ghost predicate Imports(st: State, nodes: map<nat, Node>, numIds: nat, nameMap: map<string, nat>) {
    && st.numIds <= numIds && Named(nodes, numIds, nameMap)
    && (forall id: nat :: id < st.numIds ==> (id in nodes <==> id in st.nodes))
    && (forall id: nat :: id < st.numIds && id in nodes ==> nodes[id] == st.nodes[id])
  }

  /**
   When a step can happen. Beside free locks this says what callers must see to: a graph is not
   used through its own handle once its deletion is requested, nor a session once deleted.
   */
  ghost predicate Enabled(st: State, a: Action) {
    match a
    case AddNode(name, _) => GraphFree(st) && !st.deleteRequested && name !in st.nameMap
    case AddRolledBack(name) => GraphFree(st) && !st.deleteRequested && name !in st.nameMap
    case NewSession(s) => GraphFree(st) && !st.deleteRequested && s !in st.sessions
    case LoadSession(s, nodes, numIds, nameMap) =>
      GraphFree(st) && !st.deleteRequested && s !in st.sessions && st.nameMap == map[]
      && Imports(st, nodes, numIds, nameMap)
    case DeleteSession(t, s) =>
      GraphFree(st) && Idle(st, t) && s in st.sessions && forall u :: u in st.threads ==> !UsesSession(st.threads[u], s)
    case DeleteGraph(t) =>
      GraphFree(st) && Idle(st, t) && !st.deleteRequested && forall u :: u in st.threads ==> !Mutates(st.threads[u])
    case Free(t) => At(st, t) && st.threads[t].Freeing?
    case CallExtend(t, s) => Idle(st, t) && s in st.sessions
    case LockGraph(t) => At(st, t) && GraphFree(st) && (st.threads[t].ExtendEntry? || st.threads[t].MutateEntry?)
    case LockSession(t) =>
      At(st, t) && st.threads[t].ExtendGraphLocked? && st.threads[t].s in st.sessions
      && st.sessions[st.threads[t].s].lock.None?
    case Snapshot(t, _) => At(st, t) && st.threads[t].ExtendBothLocked? && st.threads[t].s in st.sessions
    case FinishExtend(t, _) => At(st, t) && st.threads[t].Extending? && st.threads[t].s in st.sessions
    case CallMutate(t, id, _) => Idle(st, t) && !st.deleteRequested && id in st.nodes
    case Visit(t, s) =>
      At(st, t) && st.threads[t].Mutating? && s in st.threads[t].pending && s in st.sessions
      && st.sessions[s].lock.None?
    case EndMutation(t) => At(st, t) && st.threads[t].Mutating? && st.threads[t].pending == {}
  }

  /** The graph lock is taken: a mutator changes its node, then RecordMutation starts. */
  function GraphLocked(st: State, t: nat): State
    requires At(st, t)
  {
    var locked := st.(graphLock := Some(t));
    match st.threads[t]
    case ExtendEntry(s) => locked.(threads := st.threads[t := ExtendGraphLocked(s)])
    case MutateEntry(id, def) =>
      locked.(threads := st.threads[t := Mutating(id, st.sessions.Keys)],
              nodes := if id in st.nodes then st.nodes[id := st.nodes[id].(def := def)] else st.nodes)
    case _ => st
  }

  /** Both locks are held: a waiting warning is logged and cleared, then the new nodes are collected. */
  function SnapshotTaken(st: State, t: nat, acyclic: bool): State
    requires At(st, t) && st.threads[t].ExtendBothLocked? && st.threads[t].s in st.sessions
  {
    var s := st.threads[t].s;
    var session := if st.sessions[s].warning
                   then st.sessions[s].(warning := false, logged := st.sessions[s].logged + st.sessions[s].flagged)
                   else st.sessions[s];
    if session.last < st.numIds && acyclic then
      st.(graphLock := None, sessions := st.sessions[s := session],
          threads := st.threads[t := Extending(s, OpsIn(st.nodes, session.last, st.numIds), st.numIds)])
    else
      st.(graphLock := None, sessions := st.sessions[s := session.(lock := None)], threads := Drop(st.threads, t))
  }

  /** Session::Extend has returned; it changes nothing if it fails. */
  function ExtendFinished(st: State, t: nat, ok: bool): State
    requires At(st, t) && st.threads[t].Extending? && st.threads[t].s in st.sessions
  {
    var Extending(s, batch, upTo) := st.threads[t];
    var session := st.sessions[s].(lock := None);
    st.(threads := Drop(st.threads, t),
        sessions := st.sessions[s := if ok then session.(delivered := session.delivered + batch, last := upTo)
                                     else session])
  }

  /** One iteration of RecordMutation. */
  function Visited(st: State, t: nat, s: nat): State
    requires At(st, t) && st.threads[t].Mutating? && s in st.sessions
  {
    var Mutating(id, pending) := st.threads[t];
    var session := st.sessions[s];
    st.(threads := st.threads[t := Mutating(id, pending - {s})],
        sessions := st.sessions[s := if session.last > id && id in st.nodes
                                     then session.(warning := true, flagged := session.flagged[id := st.nodes[id].def])
                                     else session])
  }

  ghost function After(st: State, a: Action): State
    requires Enabled(st, a)
  {
    match a
    case AddNode(name, def) =>
      st.(nodes := st.nodes[st.numIds := Node(name, true, def)], numIds := st.numIds + 1,
          nameMap := st.nameMap[name := st.numIds])
    case AddRolledBack(_) => st.(numIds := st.numIds + 1)
    case NewSession(s) => st.(sessions := st.sessions[s := Session(0, [], false, map[], map[], None)])
    case LoadSession(s, nodes, numIds, nameMap) =>
      st.(nodes := nodes, numIds := numIds, nameMap := nameMap,
          sessions := st.sessions[s := Session(numIds, OpsIn(nodes, st.numIds, numIds), false, map[], map[], None)])
    case DeleteSession(t, s) =>
      var sessions := st.sessions - {s};
      st.(sessions := sessions,
          threads := if st.deleteRequested && sessions.Keys == {} then st.threads[t := Freeing] else st.threads)
    case DeleteGraph(t) =>
      st.(deleteRequested := true, threads := if st.sessions.Keys == {} then st.threads[t := Freeing] else st.threads)
    case Free(t) => st.(frees := st.frees + 1, threads := Drop(st.threads, t))
    case CallExtend(t, s) => st.(threads := st.threads[t := ExtendEntry(s)])
    case LockGraph(t) => GraphLocked(st, t)
    case LockSession(t) =>
      var s := st.threads[t].s;
      st.(threads := st.threads[t := ExtendBothLocked(s)],
          sessions := st.sessions[s := st.sessions[s].(lock := Some(t))])
    case Snapshot(t, acyclic) => SnapshotTaken(st, t, acyclic)
    case FinishExtend(t, ok) => ExtendFinished(st, t, ok)
    case CallMutate(t, id, def) => st.(threads := st.threads[t := MutateEntry(id, def)])
    case Visit(t, s) => Visited(st, t, s)
    case EndMutation(t) => st.(graphLock := None, threads := Drop(st.threads, t))
  }

  /******* Invariants *******/

  /** The graph lock is held by the one thread that is in a part of its call that needs it. */
  predicate NeedsGraph(pc: Pc) { pc.ExtendGraphLocked? || pc.ExtendBothLocked? || pc.Mutating? }

  predicate NeedsSession(pc: Pc, s: nat) {
    (pc.ExtendBothLocked? && pc.s == s) || (pc.Extending? && pc.s == s)
  }

  ghost predicate GraphLockOk(st: State) {
    && (st.graphLock.Some? ==> st.graphLock.value in st.threads && NeedsGraph(st.threads[st.graphLock.value]))
    && (forall t :: t in st.threads && NeedsGraph(st.threads[t]) ==> st.graphLock == Some(t))
    && (forall t :: t in st.threads && st.threads[t].Mutating? ==> st.threads[t].pending <= st.sessions.Keys)
  }

  /** Thread `t` has the lock of session `s` exactly while it needs it. */
  ghost predicate LockMatches(st: State, t: nat, s: nat) {
    (s in st.sessions && st.sessions[s].lock == Some(t)) <==> (t in st.threads && NeedsSession(st.threads[t], s))
  }

  ghost predicate SessionLocksOk(st: State) {
    forall t, s :: LockMatches(st, t, s)
  }

  /** Calls are made on sessions that exist. */
  ghost predicate UsesOk(st: State) {
    forall t, s :: t in st.threads && UsesSession(st.threads[t], s) ==> s in st.sessions
  }

  ghost predicate NamesOk(st: State) {
    && Named(st.nodes, st.numIds, st.nameMap)
    && (forall t :: t in st.threads && Mutates(st.threads[t]) ==> st.threads[t].id in st.nodes)
  }

  /** A mutation of node `id` has been made and RecordMutation has still to visit session `s`. */
  ghost predicate Announced(st: State, s: nat, id: nat) {
    exists t :: t in st.threads && st.threads[t].Mutating? && st.threads[t].id == id && s in st.threads[t].pending
  }

  /** A copy is up to date, its node was flagged, or the flag is on its way. */
  ghost predicate Accounted(st: State, s: nat, c: Copy)
    requires s in st.sessions
  {
    UpToDate(st.nodes, c) || c.id in st.sessions[s].flagged || Announced(st, s, c.id)
  }

  ghost predicate CopiesOk(st: State, s: nat)
    requires s in st.sessions
  {
    var delivered := st.sessions[s].delivered;
    forall i :: 0 <= i < |delivered| ==> Accounted(st, s, delivered[i])
  }

  /** A flag was made for a delivered node as it is now, unless the next flag is on its way. */
  ghost predicate FlagOk(st: State, s: nat, id: nat)
    requires s in st.sessions && id in st.sessions[s].flagged
  {
    id < st.sessions[s].last && (UpToDate(st.nodes, Copy(id, st.sessions[s].flagged[id])) || Announced(st, s, id))
  }

  /** A log message followed the last flag of every node. */
  ghost predicate AllLogged(session: Session) {
    forall id :: id in session.flagged ==> id in session.logged && session.logged[id] == session.flagged[id]
  }

  ghost predicate FlagsOk(st: State, s: nat)
    requires s in st.sessions
  {
    var session := st.sessions[s];
    && (forall id :: id in session.flagged ==> FlagOk(st, s, id))
    && (!session.warning ==> AllLogged(session))
  }

  /** The inner session has exactly the ops below `last`; copies that are out of date are flagged. */
  ghost predicate SessionOk(st: State, s: nat)
    requires s in st.sessions
  {
    var session := st.sessions[s];
    && session.last <= st.numIds
    && Exactly(st.nodes, session.delivered, 0, session.last)
    && CopiesOk(st, s) && FlagsOk(st, s)
  }

  /** A batch is exactly the next ops; copies that are out of date will be flagged after delivery. */
  ghost predicate BatchOk(st: State, t: nat)
    requires t in st.threads && st.threads[t].Extending? && st.threads[t].s in st.sessions
  {
    var Extending(s, batch, upTo) := st.threads[t];
    && st.sessions[s].last <= upTo <= st.numIds
    && Exactly(st.nodes, batch, st.sessions[s].last, upTo)
    && (forall i :: 0 <= i < |batch| ==> UpToDate(st.nodes, batch[i]) || Announced(st, s, batch[i].id))
  }

  ghost predicate DeliveryOk(st: State) {
    && (forall s :: s in st.sessions ==> SessionOk(st, s))
    && (forall t :: t in st.threads && st.threads[t].Extending? && st.threads[t].s in st.sessions ==> BatchOk(st, t))
  }

  predicate Frees(st: State, t: nat) { t in st.threads && st.threads[t].Freeing? }

  /** Deletion was requested and no session is left. */
  predicate Abandoned(st: State) { st.deleteRequested && st.sessions.Keys == {} }

  /** The graph is freed once, by one thread, after the request and after the last session has gone. */
  ghost predicate LifeOk(st: State) {
    && (forall t, u :: Frees(st, t) && Frees(st, u) ==> t == u)
    && (Abandoned(st) ==> (st.frees == 0 && exists t :: Frees(st, t)) || (st.frees == 1 && forall t :: !Frees(st, t)))
    && (!Abandoned(st) ==> st.frees == 0 && forall t :: !Frees(st, t))
    && (st.deleteRequested ==> forall t :: t in st.threads ==> !Mutates(st.threads[t]))
  }

  ghost predicate Inv(st: State) {
    GraphLockOk(st) && SessionLocksOk(st) && UsesOk(st) && NamesOk(st) && DeliveryOk(st) && LifeOk(st)
  }

  /** A new graph holds the source and sink nodes and nothing else. */
  function Initial(): State {
    State(map[0 := Node("_SOURCE", false, Def([], 0)), 1 := Node("_SINK", false, Def([], 0))], 2,
          map[], map[], None, map[], false, 0)
  }

  lemma InitialIsGood()
    ensures Inv(Initial())
  {
  }

  lemma GraphLockKept(st: State, a: Action)
    requires GraphLockOk(st) && Enabled(st, a)
    ensures GraphLockOk(After(st, a))
  {
  }

  lemma SessionLocksKept(st: State, a: Action)
    requires SessionLocksOk(st) && Enabled(st, a)
    ensures SessionLocksOk(After(st, a))
  {
    forall t, s
      ensures LockMatches(After(st, a), t, s)
    {
      assert LockMatches(st, t, s);
      LockStaysMatched(st, a, t, s);
    }
  }

  lemma LockStaysMatched(st: State, a: Action, t: nat, s: nat)
    requires LockMatches(st, t, s) && Enabled(st, a)
    requires At(st, t) && st.threads[t].ExtendBothLocked? ==> LockMatches(st, t, st.threads[t].s)
    requires forall u :: LockMatches(st, u, s)
    ensures LockMatches(After(st, a), t, s)
  {
    hide OpsIn, Imports;
    if a.Snapshot? || a.FinishExtend? || a.LockSession? {
      LockStaysMatchedInExtend(st, a, t, s);
    }
  }

  lemma LockStaysMatchedInExtend(st: State, a: Action, t: nat, s: nat)
    requires Enabled(st, a) && (a.Snapshot? || a.FinishExtend? || a.LockSession?)
    requires LockMatches(st, t, s) && LockMatches(st, a.t, s)
    ensures LockMatches(After(st, a), t, s)
  {
    hide OpsIn;
  }

  lemma UsesKept(st: State, a: Action)
    requires UsesOk(st) && Enabled(st, a)
    ensures UsesOk(After(st, a))
  {
  }

  lemma LifeKept(st: State, a: Action)
    requires UsesOk(st) && LifeOk(st) && Enabled(st, a)
    ensures LifeOk(After(st, a))
  {
    var n := After(st, a);
    forall t
      ensures Frees(n, t) <==>
              if a.DeleteSession? || a.DeleteGraph? then Abandoned(n) && t == a.t
              else Frees(st, t) && !(a.Free? && t == a.t)
    {
      assert a.DeleteSession? ==> a.s in st.sessions.Keys;
      assert Frees(st, t) ==> Abandoned(st);
    }
    if a.DeleteSession? || a.DeleteGraph? {
      assert Abandoned(n) ==> Frees(n, a.t);
    } else if a.Free? {
      assert Frees(st, a.t) && Abandoned(n) == Abandoned(st);
    } else {
      assert Abandoned(n) <==> Abandoned(st);
    }
  }

  /******* Names and deliveries are kept *******/

  lemma NamesKept(st: State, a: Action)
    requires NamesOk(st) && Enabled(st, a)
    ensures NamesOk(After(st, a))
  {
    hide OpsIn, Named;
    if a.AddNode? || a.AddRolledBack? {
      NamedGrows(st.nodes, st.numIds, st.nameMap);
    } else if a.LockGraph? && st.threads[a.t].MutateEntry? {
      NamedRedefined(st.nodes, st.numIds, st.nameMap, st.threads[a.t].id, st.threads[a.t].def);
    } else if a.LoadSession? {
      ImportKeepsNodes(st, a.nodes, a.numIds, a.nameMap);
    }
  }

  lemma ImportKeepsNodes(st: State, nodes: map<nat, Node>, numIds: nat, nameMap: map<string, nat>)
    requires NamesOk(st) && Imports(st, nodes, numIds, nameMap)
    ensures forall id :: id in st.nodes ==> id in nodes
  {
  }

  lemma NamedGrows(nodes: map<nat, Node>, numIds: nat, nameMap: map<string, nat>)
    requires Named(nodes, numIds, nameMap)
    ensures Named(nodes, numIds + 1, nameMap)
    ensures forall name, def :: name !in nameMap ==>
              Named(nodes[numIds := Node(name, true, def)], numIds + 1, nameMap[name := numIds])
  {
  }

  lemma NamedRedefined(nodes: map<nat, Node>, numIds: nat, nameMap: map<string, nat>, id: nat, def: Def)
    requires Named(nodes, numIds, nameMap) && id in nodes
    ensures Named(nodes[id := nodes[id].(def := def)], numIds, nameMap)
  {
  }

  /** An announcement lasts until the session is visited. */
  lemma AnnouncedKept(st: State, a: Action, s: nat, id: nat)
    requires Enabled(st, a) && Announced(st, s, id)
    requires !(a.Visit? && a.s == s)
    ensures Announced(After(st, a), s, id)
  {
    var n := After(st, a);
    var t :| t in st.threads && st.threads[t].Mutating? && st.threads[t].id == id && s in st.threads[t].pending;
    assert t in n.threads && n.threads[t].Mutating? && n.threads[t].id == id && s in n.threads[t].pending;
  }

  /** A copy that was up to date still is, or its node has just been changed, which is announced. */
  lemma CopyKept(st: State, a: Action, s: nat, c: Copy)
    requires NamesOk(st) && Enabled(st, a) && s in st.sessions
    requires UpToDate(st.nodes, c) || Announced(st, s, c.id)
    requires !(a.Visit? && a.s == s)
    ensures UpToDate(After(st, a).nodes, c) || Announced(After(st, a), s, c.id)
  {
    var n := After(st, a);
    if Announced(st, s, c.id) {
      AnnouncedKept(st, a, s, c.id);
    } else if a.LockGraph? && st.threads[a.t].MutateEntry? && st.threads[a.t].id == c.id {
      assert a.t in n.threads && n.threads[a.t] == Mutating(c.id, st.sessions.Keys);
    }
  }

  /** Node ids below the old count keep their nodes, up to their definitions. */
  lemma NodesKept(st: State, a: Action, id: nat)
    requires NamesOk(st) && Enabled(st, a) && id < st.numIds
    ensures st.numIds <= After(st, a).numIds
    ensures id in st.nodes <==> id in After(st, a).nodes
    ensures id in st.nodes ==> After(st, a).nodes[id].isOp == st.nodes[id].isOp
  {
    hide OpsIn, Named;
  }

  lemma ListKept(st: State, a: Action, copies: seq<Copy>, lo: nat, hi: nat)
    requires NamesOk(st) && Enabled(st, a) && hi <= st.numIds && Exactly(st.nodes, copies, lo, hi)
    ensures Exactly(After(st, a).nodes, copies, lo, hi)
  {
    forall id: nat | id < hi
      ensures id in st.nodes <==> id in After(st, a).nodes
      ensures id in st.nodes ==> After(st, a).nodes[id].isOp == st.nodes[id].isOp
    {
      NodesKept(st, a, id);
    }
    ExactlyKept(st.nodes, After(st, a).nodes, copies, lo, hi);
  }

  /** The records of session `s` that this step changes: flags, deliveries or nothing. */
  predicate Touches(a: Action, st: State, s: nat) {
    match a
    case NewSession(x) => x == s
    case LoadSession(x, _, _, _) => x == s
    case Visit(_, x) => x == s
    case Snapshot(t, _) => At(st, t) && UsesSession(st.threads[t], s)
    case FinishExtend(t, _) => At(st, t) && UsesSession(st.threads[t], s)
    case LockSession(t) => At(st, t) && UsesSession(st.threads[t], s)
    case _ => false
  }

  lemma UntouchedSessionKept(st: State, a: Action, s: nat)
    requires NamesOk(st) && Enabled(st, a) && s in st.sessions && SessionOk(st, s)
    requires !Touches(a, st, s) && s in After(st, a).sessions
    ensures SessionOk(After(st, a), s)
  {
    var n, session := After(st, a), st.sessions[s];
    assert n.sessions[s] == session;
    NodesCountGrows(st, a);
    ListKept(st, a, session.delivered, 0, session.last);
    forall i | 0 <= i < |session.delivered|
      ensures Accounted(n, s, session.delivered[i])
    {
      AccountedKept(st, a, s, session.delivered[i]);
    }
    forall id | id in session.flagged
      ensures FlagOk(n, s, id)
    {
      assert FlagOk(st, s, id);
      CopyKept(st, a, s, Copy(id, session.flagged[id]));
    }
  }

  /** A step that leaves the flags of a session alone leaves a copy accounted for. */
  lemma AccountedKept(st: State, a: Action, s: nat, c: Copy)
    requires NamesOk(st) && Enabled(st, a) && s in st.sessions && s in After(st, a).sessions
    requires !(a.Visit? && a.s == s) && After(st, a).sessions[s].flagged == st.sessions[s].flagged
    requires Accounted(st, s, c)
    ensures Accounted(After(st, a), s, c)
  {
    hide NamesOk, Enabled, After;
    if c.id !in st.sessions[s].flagged {
      CopyKept(st, a, s, c);
    }
  }

  lemma NodesCountGrows(st: State, a: Action)
    requires Enabled(st, a)
    ensures st.numIds <= After(st, a).numIds
  {
  }

  /** A saved model's graph goes to the inner session and to a graph without ops alike. */
  lemma LoadIsExact(nodes: map<nat, Node>, first: nat, numIds: nat)
    requires first <= numIds && forall id: nat :: id < first && id in nodes ==> !nodes[id].isOp
    ensures Exactly(nodes, OpsIn(nodes, first, numIds), 0, numIds)
  {
    hide Exactly, OpsIn;
    var copies := OpsIn(nodes, first, numIds);
    OpsInIsExact(nodes, first, numIds);
    ExactlyNone(nodes, 0, first);
    ExactlyJoins(nodes, [], copies, 0, first, numIds);
    assert [] + copies == copies;
  }

  lemma NewSessionOk(st: State, a: Action)
    requires NamesOk(st) && Enabled(st, a) && (a.NewSession? || a.LoadSession?)
    ensures SessionOk(After(st, a), a.s)
  {
    if a.LoadSession? {
      LoadIsExact(a.nodes, st.numIds, a.numIds);
      OpsInAreUpToDate(a.nodes, st.numIds, a.numIds);
      hide Exactly, OpsIn;
    }
  }

  lemma VisitedSessionOk(st: State, t: nat, s: nat)
    requires Enabled(st, Visit(t, s)) && SessionOk(st, s) && GraphLockOk(st) && NamesOk(st)
    ensures SessionOk(Visited(st, t, s), s)
  {
    hide Exactly, Named;
    var n, session := Visited(st, t, s), st.sessions[s];
    forall x | Announced(st, s, x)
      ensures x == st.threads[t].id
    {
    }
    forall i | 0 <= i < |session.delivered|
      ensures Accounted(n, s, session.delivered[i])
    {
      assert Accounted(st, s, session.delivered[i]) && session.delivered[i].id < session.last by {
        DeliveredBelow(st.nodes, session.delivered, 0, session.last, i);
      }
    }
    forall id | id in n.sessions[s].flagged
      ensures FlagOk(n, s, id)
    {
      assert id in session.flagged ==> FlagOk(st, s, id);
    }
  }

  lemma DeliveredBelow(nodes: map<nat, Node>, copies: seq<Copy>, lo: nat, hi: nat, i: nat)
    requires Exactly(nodes, copies, lo, hi) && i < |copies|
    ensures copies[i].id < hi && copies[i].id in nodes
  {
  }

  lemma ExtendedSessionOk(st: State, a: Action, s: nat)
    requires Enabled(st, a) && (a.Snapshot? || a.FinishExtend? || a.LockSession?) && UsesSession(st.threads[a.t], s)
    requires SessionOk(st, s) && NamesOk(st)
    requires a.FinishExtend? ==> BatchOk(st, a.t)
    ensures SessionOk(After(st, a), s)
  {
    hide Exactly, CopiesOk, FlagsOk, OpsIn, NamesOk;
    var session := st.sessions[s];
    if a.FinishExtend? && a.ok {
      ExactlyJoins(st.nodes, session.delivered, st.threads[a.t].batch, 0, session.last, st.threads[a.t].upTo);
    }
    ExtendedCopiesOk(st, a, s);
    ExtendedFlagsOk(st, a, s);
  }

  lemma ExtendedCopiesOk(st: State, a: Action, s: nat)
    requires Enabled(st, a) && (a.Snapshot? || a.FinishExtend? || a.LockSession?) && UsesSession(st.threads[a.t], s)
    requires CopiesOk(st, s) && NamesOk(st)
    requires a.FinishExtend? ==> BatchOk(st, a.t)
    ensures CopiesOk(After(st, a), s)
  {
    hide Exactly, OpsIn, Named;
    var delivered, now := st.sessions[s].delivered, After(st, a).sessions[s].delivered;
    forall i | 0 <= i < |now|
      ensures Accounted(After(st, a), s, now[i])
    {
      if i < |delivered| {
        assert now[i] == delivered[i];
      } else {
        assert now[i] == st.threads[a.t].batch[i - |delivered|];
      }
      assert Accounted(st, s, now[i]);
      AccountedKept(st, a, s, now[i]);
    }
  }

  lemma ExtendedFlagsOk(st: State, a: Action, s: nat)
    requires Enabled(st, a) && (a.Snapshot? || a.FinishExtend? || a.LockSession?) && UsesSession(st.threads[a.t], s)
    requires FlagsOk(st, s) && NamesOk(st)
    requires a.FinishExtend? ==> BatchOk(st, a.t)
    ensures FlagsOk(After(st, a), s)
  {
    hide Exactly, OpsIn, Named;
    var n, flagged := After(st, a), st.sessions[s].flagged;
    forall id | id in flagged
      ensures FlagOk(n, s, id)
    {
      assert FlagOk(st, s, id);
      CopyKept(st, a, s, Copy(id, flagged[id]));
    }
  }

  lemma SessionKept(st: State, a: Action, s: nat)
    requires Inv(st) && Enabled(st, a) && s in After(st, a).sessions
    ensures SessionOk(After(st, a), s)
  {
    hide Exactly, Named, CopiesOk, FlagsOk, OpsIn, LifeOk, GraphLockOk, SessionLocksOk;
    if !Touches(a, st, s) {
      UntouchedSessionKept(st, a, s);
    } else if a.NewSession? || a.LoadSession? {
      NewSessionOk(st, a);
    } else if a.Visit? {
      VisitedSessionOk(st, a.t, s);
    } else {
      ExtendedSessionOk(st, a, s);
    }
  }

  /** While a thread extends a session, nobody else changes the session's records. */
  lemma ExtendedIsUntouched(st: State, a: Action, u: nat)
    requires SessionLocksOk(st) && UsesOk(st) && Enabled(st, a) && At(st, u) && st.threads[u].Extending?
    requires At(After(st, a), u) && After(st, a).threads[u] == st.threads[u]
    ensures var s := st.threads[u].s;
            && s in st.sessions && s in After(st, a).sessions && !(a.Visit? && a.s == s)
            && After(st, a).sessions[s].last == st.sessions[s].last
  {
    var s := st.threads[u].s;
    assert LockMatches(st, u, s);
    if a.FinishExtend? && a.t != u {
      assert LockMatches(st, a.t, s);
    }
  }

  lemma BatchKept(st: State, a: Action, u: nat)
    requires Inv(st) && Enabled(st, a) && At(After(st, a), u)
    requires After(st, a).threads[u].Extending? && After(st, a).threads[u].s in After(st, a).sessions
    ensures BatchOk(After(st, a), u)
  {
    hide LifeOk, NamesOk, SessionLocksOk, UsesOk, GraphLockOk, SessionOk;
    var n := After(st, a);
    if a.Snapshot? && a.t == u {
      OpsInIsExact(st.nodes, st.sessions[st.threads[u].s].last, st.numIds);
      OpsInAreUpToDate(st.nodes, st.sessions[st.threads[u].s].last, st.numIds);
    } else {
      assert n.threads[u] == st.threads[u];
      ExtendedIsUntouched(st, a, u);
      OtherBatchKept(st, a, u);
    }
  }

  lemma OtherBatchKept(st: State, a: Action, u: nat)
    requires NamesOk(st) && Enabled(st, a) && At(st, u) && st.threads[u].Extending?
    requires At(After(st, a), u) && After(st, a).threads[u] == st.threads[u]
    requires var s := st.threads[u].s;
             && s in st.sessions && s in After(st, a).sessions && !(a.Visit? && a.s == s)
             && After(st, a).sessions[s].last == st.sessions[s].last
    requires BatchOk(st, u)
    ensures BatchOk(After(st, a), u)
  {
    var Extending(s, batch, upTo) := st.threads[u];
    NodesCountGrows(st, a);
    ListKept(st, a, batch, st.sessions[s].last, upTo);
    forall i | 0 <= i < |batch|
      ensures UpToDate(After(st, a).nodes, batch[i]) || Announced(After(st, a), s, batch[i].id)
    {
      CopyKept(st, a, s, batch[i]);
    }
  }

  lemma InvKept(st: State, a: Action)
    requires Inv(st) && Enabled(st, a)
    ensures Inv(After(st, a))
  {
    GraphLockKept(st, a);
    SessionLocksKept(st, a);
    UsesKept(st, a);
    NamesKept(st, a);
    LifeKept(st, a);
    DeliveryKept(st, a);
  }

  lemma DeliveryKept(st: State, a: Action)
    requires Inv(st) && Enabled(st, a)
    ensures DeliveryOk(After(st, a))
  {
    hide Inv, Enabled;
    var n := After(st, a);
    forall s | s in n.sessions
      ensures SessionOk(n, s)
    {
      SessionKept(st, a, s);
    }
    forall t | t in n.threads && n.threads[t].Extending? && n.threads[t].s in n.sessions
      ensures BatchOk(n, t)
    {
      BatchKept(st, a, t);
    }
  }

  /******* Whole runs *******/

  ghost predicate Step(st: State, n: State) {
    exists a :: Enabled(st, a) && n == After(st, a)
  }

  /** States through which the threads may go, in any interleaving, from a new graph on. */
  ghost predicate IsRun(run: seq<State>) {
    && |run| > 0 && run[0] == Initial()
    && forall k :: 0 <= k < |run| - 1 ==> Step(run[k], run[k + 1])
  }

  lemma {:induction false} ReachableIsGood(run: seq<State>, k: nat)
    requires IsRun(run) && k < |run|
    ensures Inv(run[k])
  {
    if k == 0 {
      InitialIsGood();
    } else {
      ReachableIsGood(run, k - 1);
      assert Step(run[k - 1], run[k - 1 + 1]);
      var a :| Enabled(run[k - 1], a) && run[k] == After(run[k - 1], a);
      InvKept(run[k - 1], a);
    }
  }

  /** Each live op below the cursor was delivered exactly once, in id order, and nothing else was. */
  lemma DeliveredExactlyOnce(run: seq<State>, k: nat, s: nat)
    requires IsRun(run) && k < |run| && s in run[k].sessions
    ensures Exactly(run[k].nodes, run[k].sessions[s].delivered, 0, run[k].sessions[s].last)
  {
    ReachableIsGood(run, k);
  }

  /**
   Once RecordMutation has visited the session, every delivered copy that differs from its node was
   flagged after its delivery for the definition that the node has now, and since then a warning waits
   or a message was logged.
   */
  lemma NoStaleCopyUnflagged(run: seq<State>, k: nat, s: nat, i: nat)
    requires IsRun(run) && k < |run| && s in run[k].sessions && i < |run[k].sessions[s].delivered|
    ensures var (st, session) := (run[k], run[k].sessions[s]);
            var c := session.delivered[i];
            !UpToDate(st.nodes, c) && !Announced(st, s, c.id) ==>
              && c.id in session.flagged && c.id < session.last
              && c.id in st.nodes && session.flagged[c.id] == st.nodes[c.id].def
              && (session.warning || (c.id in session.logged && session.logged[c.id] == st.nodes[c.id].def))
  {
    ReachableIsGood(run, k);
    var c := run[k].sessions[s].delivered[i];
    assert SessionOk(run[k], s) && Accounted(run[k], s, c);
    if c.id in run[k].sessions[s].flagged {
      assert FlagOk(run[k], s, c.id);
    }
  }

  /** The graph is freed at most once, after the request, with no session left and no call under way. */
  lemma GraphFreedSafely(run: seq<State>, k: nat)
    requires IsRun(run) && k < |run|
    ensures var st := run[k];
            && st.frees <= 1
            && (st.frees == 1 ==> st.deleteRequested && st.sessions.Keys == {} && st.threads.Keys == {})
            && (st.threads.Keys == {} && st.deleteRequested && st.sessions.Keys == {} ==> st.frees == 1)
  {
    ReachableIsGood(run, k);
    var st := run[k];
    if st.frees == 1 {
      forall t: nat
        ensures t !in st.threads
      {
        NoThreadLeft(st, t);
      }
    }
  }

  lemma NoThreadLeft(st: State, t: nat)
    requires UsesOk(st) && LifeOk(st) && st.frees == 1
    ensures t !in st.threads
  {
    assert Abandoned(st) && !Frees(st, t);
    if t in st.threads {
      UserHasSession(st, t);
    }
  }

  lemma UserHasSession(st: State, t: nat)
    requires UsesOk(st) && t in st.threads && !Mutates(st.threads[t]) && !st.threads[t].Freeing?
    ensures st.sessions.Keys != {}
  {
    assert UsesSession(st.threads[t], st.threads[t].s);
    assert st.threads[t].s in st.sessions.Keys;
  }

  /** A thread that waits for the graph lock holds no session lock. */
  lemma GraphLockComesFirst(run: seq<State>, k: nat, t: nat, s: nat)
    requires IsRun(run) && k < |run| && At(run[k], t)
    requires run[k].threads[t].ExtendEntry? || run[k].threads[t].MutateEntry?
    ensures s in run[k].sessions ==> run[k].sessions[s].lock != Some(t)
  {
    ReachableIsGood(run, k);
    assert LockMatches(run[k], t, s);
  }

  /** A step by a thread that is inside a call. */
  predicate Advances(a: Action) {
    a.Free? || a.LockGraph? || a.LockSession? || a.Snapshot? || a.FinishExtend? || a.Visit? || a.EndMutation?
  }

  /** The holder of a session's lock, if it does not hold the graph lock, waits for no lock. */
  lemma SessionHolderAdvances(st: State, s: nat, g: nat)
    requires Inv(st) && s in st.sessions && st.sessions[s].lock.Some? && st.graphLock == Some(g)
    requires At(st, g) && !NeedsSession(st.threads[g], s)
    ensures Enabled(st, FinishExtend(st.sessions[s].lock.value, true))
  {
    var u := st.sessions[s].lock.value;
    assert LockMatches(st, u, s);
  }

  /** A thread that has the graph lock, or the thread it waits for, can go on. */
  lemma GraphHolderAdvances(st: State, t: nat) returns (a: Action)
    requires Inv(st) && At(st, t) && NeedsGraph(st.threads[t])
    ensures Advances(a) && Enabled(st, a)
  {
    match st.threads[t] {
      case ExtendBothLocked(s) =>
        assert LockMatches(st, t, s);
        a := Snapshot(t, true);
      case ExtendGraphLocked(s) =>
        assert UsesSession(st.threads[t], s);
        if st.sessions[s].lock.None? {
          a := LockSession(t);
        } else {
          SessionHolderAdvances(st, s, t);
          a := FinishExtend(st.sessions[s].lock.value, true);
        }
      case Mutating(id, pending) =>
        if pending == {} {
          a := EndMutation(t);
        } else {
          var s :| s in pending;
          if st.sessions[s].lock.None? {
            a := Visit(t, s);
          } else {
            SessionHolderAdvances(st, s, t);
            a := FinishExtend(st.sessions[s].lock.value, true);
          }
        }
    }
  }

  /** There is no deadlock: while some thread is inside a call, some such thread can go on. */
  lemma SomeoneAdvances(st: State, t: nat) returns (a: Action)
    requires Inv(st) && At(st, t)
    ensures Advances(a) && Enabled(st, a)
  {
    var pc := st.threads[t];
    if pc.Freeing? {
      a := Free(t);
    } else if pc.Extending? {
      assert LockMatches(st, t, pc.s);
      a := FinishExtend(t, true);
    } else if NeedsGraph(pc) {
      a := GraphHolderAdvances(st, t);
    } else if st.graphLock.Some? {
      a := GraphHolderAdvances(st, st.graphLock.value);
    } else {
      a := LockGraph(t);
    }
  }

  /******* Every call returns *******/

  /** How many steps a thread has still to make, at most, in a graph with this many sessions. */
  function Remaining(pc: Pc, sessions: nat): nat {
    match pc
    case ExtendEntry(_) => 4
    case ExtendGraphLocked(_) => 3
    case ExtendBothLocked(_) => 2
    case Extending(_, _, _) => 1
    case MutateEntry(_, _) => sessions + 2
    case Mutating(_, pending) => |pending| + 1
    case Freeing => 1
  }

  ghost function Total(threads: map<nat, Pc>, sessions: nat): nat
    decreases threads.Keys
  {
    if threads.Keys == {} then 0
    else
      var t :| t in threads;
      Remaining(threads[t], sessions) + Total(threads - {t}, sessions)
  }

  ghost function Work(st: State): nat { Total(st.threads, |st.sessions.Keys|) }

  lemma {:induction false} TotalSplits(threads: map<nat, Pc>, n: nat, t: nat)
    requires t in threads
    ensures Total(threads, n) == Remaining(threads[t], n) + Total(threads - {t}, n)
    decreases threads.Keys
  {
    var u :| u in threads && Total(threads, n) == Remaining(threads[u], n) + Total(threads - {u}, n);
    if u != t {
      TotalSplits(threads - {u}, n, t);
      TotalSplits(threads - {t}, n, u);
      assert threads - {u} - {t} == threads - {t} - {u};
    }
  }

  /** An advancing step concerns its own thread only. */
  lemma AdvanceMovesOne(st: State, a: Action)
    requires Advances(a) && Enabled(st, a)
    ensures a.t in st.threads && After(st, a).sessions.Keys == st.sessions.Keys
    ensures After(st, a).threads == Drop(st.threads, a.t) ||
            (a.t in After(st, a).threads && After(st, a).threads == st.threads[a.t := After(st, a).threads[a.t]])
  {
    hide OpsIn;
  }

  lemma AdvanceShortens(st: State, a: Action)
    requires Advances(a) && Enabled(st, a) && a.t in After(st, a).threads
    ensures Remaining(After(st, a).threads[a.t], |st.sessions.Keys|) < Remaining(st.threads[a.t], |st.sessions.Keys|)
  {
    hide OpsIn, Imports;
    if a.Visit? {
      VisitShortens(st, a.t, a.s);
    }
  }

  lemma VisitShortens(st: State, t: nat, s: nat)
    requires Enabled(st, Visit(t, s))
    ensures Remaining(Visited(st, t, s).threads[t], |st.sessions.Keys|) < Remaining(st.threads[t], |st.sessions.Keys|)
  {
    var pending := st.threads[t].pending;
    assert |pending - {s}| < |pending|;
  }

  lemma AdvanceIsProgress(st: State, a: Action)
    requires Advances(a) && Enabled(st, a)
    ensures Work(After(st, a)) < Work(st)
  {
    hide Enabled, After, Remaining;
    AdvanceMovesOne(st, a);
    var n, k := After(st, a), |st.sessions.Keys|;
    TotalSplits(st.threads, k, a.t);
    SomethingRemains(st.threads[a.t], k);
    if a.t in n.threads {
      AdvanceShortens(st, a);
      TotalSplits(n.threads, k, a.t);
      assert n.threads - {a.t} == st.threads - {a.t};
    }
  }

  lemma SomethingRemains(pc: Pc, n: nat)
    ensures Remaining(pc, n) > 0
  {
  }

  ghost predicate AdvanceStep(st: State, n: State) {
    exists a :: Advances(a) && Enabled(st, a) && n == After(st, a)
  }

  /** The states of calls that go on without new ones arriving. */
  ghost predicate Finishing(run: seq<State>) {
    forall k :: 0 <= k < |run| - 1 ==> AdvanceStep(run[k], run[k + 1])
  }

  lemma StepIsProgress(st: State, n: State)
    requires Inv(st) && AdvanceStep(st, n)
    ensures Inv(n) && Work(n) < Work(st)
  {
    var a :| Advances(a) && Enabled(st, a) && n == After(st, a);
    hide *;
    AdvanceIsProgress(st, a);
    InvKept(st, a);
  }

  /** Stuck means that no thread inside a call can go on. */
  ghost predicate Stuck(st: State) {
    forall a :: Advances(a) ==> !Enabled(st, a)
  }

  lemma StuckMeansReturned(st: State)
    requires Inv(st) && Stuck(st)
    ensures st.threads.Keys == {}
  {
    hide Inv, Enabled;
    if t :| t in st.threads {
      var a := SomeoneAdvances(st, t);
    }
  }

  /** If no new calls come, only so many steps are left, and when none is possible all calls have returned. */
  lemma {:induction false} CallsReturn(run: seq<State>, k: nat)
    requires k < |run| && Inv(run[0]) && Finishing(run)
    ensures Inv(run[k]) && k + Work(run[k]) <= Work(run[0])
    ensures Stuck(run[k]) ==> run[k].threads.Keys == {}
  {
    hide Inv, AdvanceStep, Stuck, Work;
    if k > 0 {
      CallsReturn(run, k - 1);
      assert AdvanceStep(run[k - 1], run[k - 1 + 1]);
      StepIsProgress(run[k - 1], run[k]);
    }
    if Stuck(run[k]) {
      StuckMeansReturned(run[k]);
    }
  }

  /******* A change that is not recorded *******/

  function Stripped(def: Def): Def { def.(controls := []) }

  /** RemoveAllControlInputs changes a node under the graph lock without calling RecordMutation. */
  function ControlInputsRemoved(st: State, id: nat): State
    requires id in st.nodes
  {
    st.(nodes := st.nodes[id := st.nodes[id].(def := Stripped(st.nodes[id].def))])
  }

  /** The copy is up to date or its session was flagged for the definition that the node has. */
  predicate Noticed(st: State, s: nat, c: Copy)
    requires s in st.sessions
  {
    UpToDate(st.nodes, c) ||
    (c.id in st.sessions[s].flagged && UpToDate(st.nodes, Copy(c.id, st.sessions[s].flagged[c.id])))
  }

  /** The copies that the inner session has or is about to get, and the cursor it has or is about to have. */
  predicate Sends(st: State, t: nat, s: nat) { At(st, t) && st.threads[t].Extending? && st.threads[t].s == s }

  /** No copy that a session has, or is about to get, differs from its node unnoticed. */
  ghost predicate NothingHidden(st: State) {
    && (forall s, i :: s in st.sessions && 0 <= i < |st.sessions[s].delivered| ==>
          Noticed(st, s, st.sessions[s].delivered[i]))
    && (forall t, s, i :: Sends(st, t, s) && 0 <= i < |st.threads[t].batch| ==>
          UpToDate(st.nodes, st.threads[t].batch[i]))
  }

  /** The guard of RecordMutation, for what a session has run or is about to be extended by. */
  ghost predicate Reaches(st: State, s: nat, id: nat)
    requires s in st.sessions
  {
    st.sessions[s].last > id || exists t :: Sends(st, t, s) && st.threads[t].upTo > id
  }

  /** While nobody has the graph lock, no mutation waits to be recorded. */
  lemma NothingAnnounced(st: State, s: nat, id: nat)
    requires GraphLockOk(st) && GraphFree(st)
    ensures !Announced(st, s, id)
  {
  }

  /** A delivered op has a copy, and only one. */
  lemma TheCopy(st: State, copies: seq<Copy>, lo: nat, hi: nat, id: nat) returns (i: nat)
    requires Exactly(st.nodes, copies, lo, hi) && lo <= id < hi && id in st.nodes && st.nodes[id].isOp
    ensures i < |copies| && copies[i].id == id
    ensures forall j :: 0 <= j < |copies| && copies[j].id == id ==> j == i
  {
    i :| 0 <= i < |copies| && copies[i].id == id;
  }

  /** What was noticed before the change of another node still is. */
  lemma OthersStayNoticed(st: State, id: nat)
    requires Inv(st) && GraphFree(st) && id in st.nodes
    ensures var n := ControlInputsRemoved(st, id);
            && (forall s, i :: s in st.sessions && 0 <= i < |st.sessions[s].delivered| ==>
                  st.sessions[s].delivered[i].id != id || Stripped(st.nodes[id].def) == st.nodes[id].def ==>
                    Noticed(n, s, st.sessions[s].delivered[i]))
            && (forall t, s, i :: Sends(st, t, s) && 0 <= i < |st.threads[t].batch| ==>
                  st.threads[t].batch[i].id != id || Stripped(st.nodes[id].def) == st.nodes[id].def ==>
                    UpToDate(n.nodes, st.threads[t].batch[i]))
  {
    hide Exactly, NamesOk, LifeOk, SessionLocksOk;
    var n := ControlInputsRemoved(st, id);
    forall s, i | s in st.sessions && 0 <= i < |st.sessions[s].delivered|
                  && (st.sessions[s].delivered[i].id != id || Stripped(st.nodes[id].def) == st.nodes[id].def)
      ensures Noticed(n, s, st.sessions[s].delivered[i])
    {
      var c := st.sessions[s].delivered[i];
      assert SessionOk(st, s) && Accounted(st, s, c);
      NothingAnnounced(st, s, c.id);
      assert c.id in st.sessions[s].flagged ==> FlagOk(st, s, c.id);
    }
    forall t, s, i | Sends(st, t, s) && 0 <= i < |st.threads[t].batch|
                     && (st.threads[t].batch[i].id != id || Stripped(st.nodes[id].def) == st.nodes[id].def)
      ensures UpToDate(n.nodes, st.threads[t].batch[i])
    {
      assert UsesSession(st.threads[t], s) && BatchOk(st, t);
      NothingAnnounced(st, s, st.threads[t].batch[i].id);
    }
  }

  /** A delivered copy of the changed node goes unnoticed unless it never had the control inputs. */
  lemma DeliveredCopyHidden(st: State, id: nat, s: nat, i: nat)
    requires Inv(st) && GraphFree(st) && id in st.nodes && st.nodes[id].def.controls != []
    requires s in st.sessions && i < |st.sessions[s].delivered| && st.sessions[s].delivered[i].id == id
    ensures Noticed(ControlInputsRemoved(st, id), s, st.sessions[s].delivered[i]) <==>
            st.sessions[s].delivered[i].def == Stripped(st.nodes[id].def)
  {
    hide Exactly, NamesOk, LifeOk, SessionLocksOk;
    assert SessionOk(st, s);
    NothingAnnounced(st, s, id);
    assert id in st.sessions[s].flagged ==> FlagOk(st, s, id);
  }

  /** A copy of the changed node that is on its way is out of date when it arrives. */
  lemma SentCopyHidden(st: State, id: nat, t: nat, s: nat) returns (i: nat)
    requires Inv(st) && GraphFree(st) && id in st.nodes && st.nodes[id].isOp && st.nodes[id].def.controls != []
    requires s in st.sessions && Sends(st, t, s) && st.sessions[s].last <= id < st.threads[t].upTo
    ensures i < |st.threads[t].batch| && !UpToDate(ControlInputsRemoved(st, id).nodes, st.threads[t].batch[i])
  {
    assert UsesSession(st.threads[t], s) && BatchOk(st, t);
    i := TheCopy(st, st.threads[t].batch, st.sessions[s].last, st.threads[t].upTo, id);
    NothingAnnounced(st, s, id);
  }

  /** A session that the node has reached notices the change: it got the node without control inputs. */
  ghost predicate GotStripped(st: State, s: nat, id: nat)
    requires s in st.sessions && id in st.nodes
  {
    Copy(id, Stripped(st.nodes[id].def)) in st.sessions[s].delivered
  }

  lemma ReachedIsHidden(st: State, id: nat, s: nat)
    requires Inv(st) && GraphFree(st) && id in st.nodes && st.nodes[id].isOp && st.nodes[id].def.controls != []
    requires s in st.sessions && Reaches(st, s, id) && NothingHidden(ControlInputsRemoved(st, id))
    ensures GotStripped(st, s, id)
  {
    hide LifeOk, SessionLocksOk, NamesOk;
    var n := ControlInputsRemoved(st, id);
    if st.sessions[s].last > id {
      assert SessionOk(st, s);
      var i := TheCopy(st, st.sessions[s].delivered, 0, st.sessions[s].last, id);
      assert Noticed(n, s, n.sessions[s].delivered[i]);
      DeliveredCopyHidden(st, id, s, i);
    } else {
      var t :| Sends(st, t, s) && st.threads[t].upTo > id;
      assert Sends(n, t, s);
      var i := SentCopyHidden(st, id, t, s);
    }
  }

  /** Nothing in flight holds the node, and delivered copies of it are as it will be. */
  lemma NotReachedIsNoticed(st: State, id: nat)
    requires Inv(st) && GraphFree(st) && id in st.nodes && st.nodes[id].isOp && st.nodes[id].def.controls != []
    requires forall s :: s in st.sessions && Reaches(st, s, id) ==> GotStripped(st, s, id)
    ensures NothingHidden(ControlInputsRemoved(st, id))
  {
    hide LifeOk, SessionLocksOk, NamesOk;
    var n := ControlInputsRemoved(st, id);
    OthersStayNoticed(st, id);
    forall s, i | s in n.sessions && 0 <= i < |n.sessions[s].delivered|
      ensures Noticed(n, s, n.sessions[s].delivered[i])
    {
      var session := st.sessions[s];
      if session.delivered[i].id == id {
        assert SessionOk(st, s);
        DeliveredBelow(st.nodes, session.delivered, 0, session.last, i);
        assert Reaches(st, s, id);
        var only := TheCopy(st, session.delivered, 0, session.last, id);
        DeliveredCopyHidden(st, id, s, i);
      }
    }
    forall t, s, i | Sends(n, t, s) && 0 <= i < |n.threads[t].batch|
      ensures UpToDate(n.nodes, n.threads[t].batch[i])
    {
      assert Sends(st, t, s);
      SentCopyNoticed(st, id, t, s, i);
    }
  }

  lemma SentCopyNoticed(st: State, id: nat, t: nat, s: nat, i: nat)
    requires Inv(st) && GraphFree(st) && id in st.nodes && Sends(st, t, s) && i < |st.threads[t].batch|
    requires s in st.sessions && Reaches(st, s, id) ==> GotStripped(st, s, id)
    ensures UpToDate(ControlInputsRemoved(st, id).nodes, st.threads[t].batch[i])
  {
    OthersStayNoticed(st, id);
    assert UsesSession(st.threads[t], s) && BatchOk(st, t) && SessionOk(st, s);
    var c := st.threads[t].batch[i];
    DeliveredBelow(st.nodes, st.threads[t].batch, st.sessions[s].last, st.threads[t].upTo, i);
    assert Reaches(st, s, c.id);
    if GotStripped(st, s, id) {
      GotIsBelow(st, s, id);
    }
  }

  lemma GotIsBelow(st: State, s: nat, id: nat)
    requires s in st.sessions && id in st.nodes && SessionOk(st, s) && GotStripped(st, s, id)
    ensures id < st.sessions[s].last
  {
    var delivered := st.sessions[s].delivered;
    var j :| 0 <= j < |delivered| && delivered[j] == Copy(id, Stripped(st.nodes[id].def));
    DeliveredBelow(st.nodes, delivered, 0, st.sessions[s].last, j);
  }

  /**
   Removing the control inputs of a node stays unnoticed exactly if it is an op that has some and a
   session has run it, or is about to be extended by it, with control inputs.
   */
  lemma RemovalHiddenExactlyWhen(st: State, id: nat)
    requires Inv(st) && GraphFree(st) && id in st.nodes
    ensures NothingHidden(ControlInputsRemoved(st, id)) <==>
            || !st.nodes[id].isOp || st.nodes[id].def.controls == []
            || forall s :: s in st.sessions && Reaches(st, s, id) ==> GotStripped(st, s, id)
  {
    hide Inv, NothingHidden, Reaches;
    if !st.nodes[id].isOp || st.nodes[id].def.controls == [] {
      RemovesNothing(st, id);
    } else {
      if NothingHidden(ControlInputsRemoved(st, id)) {
        forall s | s in st.sessions && Reaches(st, s, id)
          ensures GotStripped(st, s, id)
        {
          ReachedIsHidden(st, id, s);
        }
      }
      if forall s :: s in st.sessions && Reaches(st, s, id) ==> GotStripped(st, s, id) {
        NotReachedIsNoticed(st, id);
      }
    }
  }

  lemma RemovesNothing(st: State, id: nat)
    requires Inv(st) && GraphFree(st) && id in st.nodes && (!st.nodes[id].isOp || st.nodes[id].def.controls == [])
    ensures NothingHidden(ControlInputsRemoved(st, id))
  {
    hide LifeOk, SessionLocksOk, NamesOk, GraphLockOk, CopiesOk, FlagsOk, Noticed, Exactly;
    var n := ControlInputsRemoved(st, id);
    OthersStayNoticed(st, id);
    assert st.nodes[id].isOp ==> Stripped(st.nodes[id].def) == st.nodes[id].def;
    forall s, i | s in n.sessions && 0 <= i < |n.sessions[s].delivered|
      ensures Noticed(n, s, n.sessions[s].delivered[i])
    {
      assert SessionOk(st, s);
      DeliveredIsOp(st.nodes, st.sessions[s].delivered, 0, st.sessions[s].last, i);
    }
    forall t, s, i | Sends(n, t, s) && 0 <= i < |n.threads[t].batch|
      ensures UpToDate(n.nodes, n.threads[t].batch[i])
    {
      assert Sends(st, t, s) && UsesSession(st.threads[t], s) && BatchOk(st, t);
      DeliveredIsOp(st.nodes, st.threads[t].batch, st.sessions[s].last, st.threads[t].upTo, i);
    }
  }

  lemma DeliveredIsOp(nodes: map<nat, Node>, copies: seq<Copy>, lo: nat, hi: nat, i: nat)
    requires Exactly(nodes, copies, lo, hi) && i < |copies|
    ensures copies[i].id in nodes && nodes[copies[i].id].isOp
  {
  }

  /** Before any mutation of the node was recorded, the guard of RecordMutation alone decides. */
  lemma RemovalHiddenByGuard(st: State, id: nat)
    requires Inv(st) && GraphFree(st) && id in st.nodes
    requires forall s :: s in st.sessions ==> id !in st.sessions[s].flagged
    ensures NothingHidden(ControlInputsRemoved(st, id)) <==>
            || !st.nodes[id].isOp || st.nodes[id].def.controls == []
            || forall s :: s in st.sessions ==> !Reaches(st, s, id)
  {
    RemovalHiddenExactlyWhen(st, id);
    if st.nodes[id].def.controls != [] {
      forall s | s in st.sessions
        ensures !GotStripped(st, s, id)
      {
        hide Exactly;
        assert SessionOk(st, s);
        NothingAnnounced(st, s, id);
        forall i | 0 <= i < |st.sessions[s].delivered|
          ensures st.sessions[s].delivered[i] != Copy(id, Stripped(st.nodes[id].def))
        {
          assert Accounted(st, s, st.sessions[s].delivered[i]);
        }
      }
    }
  }

  /** One more step of a run. */
  lemma RunGoesOn(run: seq<State>, a: Action) returns (longer: seq<State>)
    requires IsRun(run) && Enabled(run[|run| - 1], a)
    ensures IsRun(longer) && longer == run + [After(run[|run| - 1], a)]
  {
    hide Enabled, After;
    longer := run + [After(run[|run| - 1], a)];
    forall k | 0 <= k < |longer| - 1
      ensures Step(longer[k], longer[k + 1])
    {
      assert k < |run| - 1 ==> Step(run[k], run[k + 1]);
    }
  }

  /** A new graph with one op that has a control input, and a new session. */
  lemma OneOpOneSession() returns (run: seq<State>)
    ensures IsRun(run) && |run| > 0
    ensures var st := run[|run| - 1];
            && st.nodes == Initial().nodes[2 := Node("a", true, Def(["^b"], 0))] && st.numIds == 3
            && st.sessions == map[0 := Session(0, [], false, map[], map[], None)]
            && GraphFree(st) && st.threads == map[]
  {
    run := [Initial()];
    run := RunGoesOn(run, AddNode("a", Def(["^b"], 0)));
    run := RunGoesOn(run, NewSession(0));
  }

  /** A thread that extends the session gets both locks. */
  lemma BothLocked(before: seq<State>) returns (run: seq<State>)
    requires IsRun(before)
    requires var st := before[|before| - 1];
             && st.sessions == map[0 := Session(0, [], false, map[], map[], None)]
             && GraphFree(st) && st.threads == map[]
    ensures IsRun(run) && |run| > 0
    ensures var was := before[|before| - 1];
            run[|run| - 1] == was.(graphLock := Some(1), threads := map[1 := ExtendBothLocked(0)],
                                   sessions := map[0 := Session(0, [], false, map[], map[], Some(1))])
  {
    run := RunGoesOn(before, CallExtend(1, 0));
    run := RunGoesOn(run, LockGraph(1));
    run := RunGoesOn(run, LockSession(1));
  }

  /** The session is extended by all ops of the graph. */
  lemma ExtendedOnce(before: seq<State>) returns (run: seq<State>)
    requires IsRun(before)
    requires var st := before[|before| - 1];
             && st.numIds > 0 && st.graphLock == Some(1) && st.threads == map[1 := ExtendBothLocked(0)]
             && st.sessions == map[0 := Session(0, [], false, map[], map[], Some(1))]
    ensures IsRun(run) && |run| > 0
    ensures var (st, was) := (run[|run| - 1], before[|before| - 1]);
            && st.nodes == was.nodes && 0 in st.sessions && GraphFree(st)
            && st.sessions[0].last == was.numIds && forall s :: s in st.sessions ==> st.sessions[s].flagged == map[]
  {
    hide OpsIn, IsRun;
    run := RunGoesOn(before, Snapshot(1, true));
    run := RunGoesOn(run, FinishExtend(1, true));
  }

  /** In a run of a new graph with one session and one op, removing the op's control input goes unnoticed. */
  lemma RemovalCanStayHidden() returns (run: seq<State>)
    ensures IsRun(run)
    ensures var st := run[|run| - 1];
            GraphFree(st) && 2 in st.nodes && !NothingHidden(ControlInputsRemoved(st, 2))
  {
    hide IsRun, NothingHidden, Inv, Enabled;
    run := OneOpOneSession();
    run := BothLocked(run);
    run := ExtendedOnce(run);
    var st := run[|run| - 1];
    ReachableIsGood(run, |run| - 1);
    RemovalHiddenByGuard(st, 2);
    assert Reaches(st, 0, 2);
  }
}
