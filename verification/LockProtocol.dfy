/**
 Many kernels that lock their variables at the same time (tensorflow/c/kernels_experimental.cc).

 Every thread is inside one call of TF_MaybeLockVariableInputMutexesInOrder or holds its result. In
 sparse mode a lookup locks the mutex of a variable for a moment, in either pass, unless the variable
 was already seen to be in copy-on-read mode.
 */
module LockProtocol {
  import opened LockOrder

  datatype Request = Request(inputs: seq<Input>, ids: seq<nat>, doLock: bool, sparse: bool)

  type Call = r: Request | InRange(r.inputs, r.ids) witness Request([], [], false, false)

  /** Where a thread is: in the first or the second pass, at which item. */
  datatype Pc =
    | Look(second: bool, i: nat)     // about to look up an item, or at the end of the pass
    | Wait(second: bool, i: nat)     // saw a variable that is not in copy-on-read mode, wants its mutex
    | Settle(second: bool, i: nat)   // has that mutex, sets copy-on-read mode and unlocks
    | Acquire(i: nat)                // wants the mutex that the second pass found
    | Held                           // the call has returned, the holder is not yet released

  datatype Thread = Thread(call: Call, at: Pc)

  datatype State = State(copyOnRead: set<nat>, threads: map<nat, Thread>)

  datatype Action = Enter(t: nat, call: Call) | Advance(t: nat)

  /** The inputs that a pass looks up, in turn. */
  function Items(c: Call, second: bool): (r: seq<Input>) {
    if NothingToLock(c.doLock, Named(c.inputs, c.ids)) then []
    else if second then SecondPass(c.inputs, c.ids)
    else Named(c.inputs, c.ids)
  }

  function Found(c: Call): (r: seq<nat>)
    ensures |r| == |Items(c, true)|
  {
    Mutexes(Items(c, true))
  }

  predicate Placed(th: Thread) {
    match th.at
    case Look(s, i) => i <= |Items(th.call, s)|
    case Wait(s, i) => i < |Items(th.call, s)|
    case Settle(s, i) => i < |Items(th.call, s)|
    case Acquire(i) => i < |Items(th.call, true)|
    case Held => true
  }

  /** The mutex that the next step locks, 0 if it locks none. */
  function Next(th: Thread): nat
    requires Placed(th)
  {
    match th.at
    case Wait(s, i) => Mutex(Items(th.call, s)[i])
    case Acquire(i) => Mutex(Items(th.call, true)[i])
    case _ => 0
  }

  /** How many items of the second pass are done. */
  function Taken(th: Thread): (n: nat)
    requires Placed(th)
    ensures n <= |Found(th.call)|
  {
    match th.at
    case Look(s, i) => if s then i else 0
    case Wait(s, i) => if s then i else 0
    case Settle(s, i) => if s then i else 0
    case Acquire(i) => i
    case Held => |Found(th.call)|
  }

  predicate Settles(th: Thread, m: nat)
    requires Placed(th)
  {
    th.at.Settle? && m == Mutex(Items(th.call, th.at.second)[th.at.i])
  }

  predicate Holds(th: Thread, m: nat)
    requires Placed(th)
  {
    m != 0 && (m in Found(th.call)[..Taken(th)] || Settles(th, m))
  }

  predicate HoldsAlone(th: Thread, m: nat)
    requires Placed(th)
  {
    m != 0 && ((m in Found(th.call)[..Taken(th)] && th.call.doLock) || Settles(th, m))
  }

  predicate WantsAlone(th: Thread) { th.at.Wait? || th.call.doLock }

  ghost predicate AllPlaced(st: State) {
    forall t :: t in st.threads ==> Placed(st.threads[t])
  }

  /** The thread can share what it wants with the thread that has it. */
  predicate Compatible(th: Thread, other: Thread)
    requires Placed(th) && Placed(other)
  {
    Holds(other, Next(th)) ==> !WantsAlone(th) && !HoldsAlone(other, Next(th))
  }

  ghost predicate Enabled(st: State, a: Action)
    requires AllPlaced(st)
  {
    match a
    case Enter(t, _) => t !in st.threads
    case Advance(t) => t in st.threads && forall u :: u in st.threads ==> Compatible(st.threads[t], st.threads[u])
  }

  predicate Unsettled(st: State, c: Call, item: Input) {
    c.sparse && item.Variable? && item.address !in st.copyOnRead
  }

  function Past(s: bool, i: nat): Pc { if s then Acquire(i) else Look(false, i + 1) }

  function Moved(st: State, th: Thread): Pc
    requires Placed(th) && !th.at.Held?
  {
    match th.at
    case Look(s, i) =>
      if i == |Items(th.call, s)| then (if s then Held else Look(true, 0))
      else if Unsettled(st, th.call, Items(th.call, s)[i]) then Wait(s, i)
      else Past(s, i)
    case Wait(s, i) => Settle(s, i)
    case Settle(s, i) => Past(s, i)
    case Acquire(i) => Look(true, i + 1)
  }

  function After(st: State, a: Action): State
    requires a.Advance? ==> a.t in st.threads && Placed(st.threads[a.t])
  {
    match a
    case Enter(t, call) => st.(threads := st.threads[t := Thread(call, Look(false, 0))])
    case Advance(t) =>
      var th := st.threads[t];
      if th.at.Held? then st.(threads := st.threads - {t})
      else State(st.copyOnRead +
                 if th.at.Settle? then {Mutex(Items(th.call, th.at.second)[th.at.i])} else {},
                 st.threads[t := th.(at := Moved(st, th))])
  }

  /******* Invariant *******/

  /** No two threads have a mutex unless both share it. */
  ghost predicate Apart(a: Thread, b: Thread)
    requires Placed(a) && Placed(b)
  {
    forall m: nat :: Holds(a, m) && Holds(b, m) ==> !HoldsAlone(a, m) && !HoldsAlone(b, m)
  }

  ghost predicate Exclusion(st: State)
    requires AllPlaced(st)
  {
    forall t, u :: t in st.threads && u in st.threads && t != u ==> Apart(st.threads[t], st.threads[u])
  }

  /** How many items of the first pass are done. */
  function Collected(th: Thread): (n: nat)
    requires Placed(th)
    ensures n <= |Items(th.call, false)|
  {
    if th.at.Held? || th.at.Acquire? || th.at.second then |Items(th.call, false)| else th.at.i
  }

  /** In sparse mode, the variables that the first pass has met are in copy-on-read mode. */
  ghost predicate Prepared(copyOnRead: set<nat>, th: Thread)
    requires Placed(th)
  {
    var items := Items(th.call, false);
    th.call.sparse ==>
      forall i :: 0 <= i < Collected(th) && items[i].Variable? ==> items[i].address in copyOnRead
  }

  ghost predicate AllPrepared(st: State)
    requires AllPlaced(st)
  {
    forall t :: t in st.threads ==> Prepared(st.copyOnRead, st.threads[t])
  }

  ghost predicate Inv(st: State) { AllPlaced(st) && Exclusion(st) && AllPrepared(st) }

  lemma MovedIsPlaced(st: State, th: Thread)
    requires Placed(th) && !th.at.Held?
    ensures Placed(th.(at := Moved(st, th)))
  {
  }

  /** A step adds to what a thread holds at most the mutex that it wanted. */
  lemma MovedHolds(st: State, th: Thread, m: nat)
    requires Placed(th) && !th.at.Held?
    ensures Placed(th.(at := Moved(st, th)))
    ensures Holds(th.(at := Moved(st, th)), m) ==> Holds(th, m) || m == Next(th)
    ensures HoldsAlone(th.(at := Moved(st, th)), m) ==> HoldsAlone(th, m) || (m == Next(th) && WantsAlone(th))
  {
    hide Items, Found;
    var n := th.(at := Moved(st, th));
    if th.at.Acquire? {
      assert Found(th.call)[..th.at.i + 1] == Found(th.call)[..th.at.i] + [Found(th.call)[th.at.i]];
      FoundAt(th.call, th.at.i);
    }
    if th.at.Look? && th.at.second && th.at.i == |Items(th.call, true)| {
      assert Found(th.call)[..th.at.i] == Found(th.call) == Found(th.call)[..|Found(th.call)|];
    }
  }

  lemma FoundAt(c: Call, i: nat)
    requires i < |Items(c, true)|
    ensures Found(c)[i] == Mutex(Items(c, true)[i])
  {
  }

  lemma PlacedKept(st: State, a: Action)
    requires AllPlaced(st) && Enabled(st, a)
    ensures AllPlaced(After(st, a))
  {
    if a.Advance? && !st.threads[a.t].at.Held? {
      MovedIsPlaced(st, st.threads[a.t]);
    }
  }

  /** A thread that has just entered holds nothing. */
  lemma EnteredHoldsNothing(c: Call, m: nat)
    ensures !Holds(Thread(c, Look(false, 0)), m)
  {
  }

  lemma MovedApart(st: State, th: Thread, other: Thread)
    requires Placed(th) && !th.at.Held? && Placed(other) && Compatible(th, other) && Apart(th, other)
    ensures Placed(th.(at := Moved(st, th)))
    ensures Apart(th.(at := Moved(st, th)), other) && Apart(other, th.(at := Moved(st, th)))
  {
    hide Holds, HoldsAlone, Moved, Placed;
    MovedIsPlaced(st, th);
    var n := th.(at := Moved(st, th));
    forall m: nat | Holds(n, m) && Holds(other, m)
      ensures !HoldsAlone(n, m) && !HoldsAlone(other, m)
    {
      MovedHolds(st, th, m);
      AloneMeansHolds(th, m);
    }
  }

  lemma AloneMeansHolds(th: Thread, m: nat)
    requires Placed(th)
    ensures HoldsAlone(th, m) ==> Holds(th, m)
  {
  }

  lemma ExclusionKept(st: State, a: Action)
    requires AllPlaced(st) && Exclusion(st) && Enabled(st, a)
    ensures AllPlaced(After(st, a)) && Exclusion(After(st, a))
  {
    hide Holds, HoldsAlone, Moved, Placed, Compatible;
    PlacedKept(st, a);
    var n := After(st, a);
    forall t, u | t in n.threads && u in n.threads && t != u
      ensures Apart(n.threads[t], n.threads[u])
    {
      if a.Enter? && a.t in {t, u} {
        forall m: nat { EnteredHoldsNothing(a.call, m); }
      } else if a.Advance? && a.t in {t, u} {
        var v := if a.t == t then u else t;
        MovedApart(st, st.threads[a.t], st.threads[v]);
      }
    }
  }

  lemma PreparedKept(st: State, a: Action, t: nat)
    requires Inv(st) && Enabled(st, a) && AllPlaced(After(st, a)) && t in After(st, a).threads
    ensures Prepared(After(st, a).copyOnRead, After(st, a).threads[t])
  {
    hide Items, Exclusion, Compatible;
    if a.Advance? && a.t == t {
      var th := st.threads[t];
      assert Prepared(st.copyOnRead, th);
    } else if t in st.threads {
      assert Prepared(st.copyOnRead, st.threads[t]);
    }
  }

  lemma InvKept(st: State, a: Action)
    requires Inv(st) && Enabled(st, a)
    ensures Inv(After(st, a))
  {
    hide Prepared, Exclusion, After;
    ExclusionKept(st, a);
    forall t | t in After(st, a).threads
      ensures Prepared(After(st, a).copyOnRead, After(st, a).threads[t])
    {
      PreparedKept(st, a, t);
    }
  }

  /******* Whole runs *******/

  ghost predicate Step(st: State, n: State)
    requires AllPlaced(st)
  {
    exists a :: Enabled(st, a) && n == After(st, a)
  }

  /** The states of a run that starts with no call under way. */
  ghost predicate IsRun(run: seq<State>) {
    && |run| > 0 && run[0].threads == map[]
    && forall k :: 0 <= k < |run| - 1 ==> AllPlaced(run[k]) && Step(run[k], run[k + 1])
  }

  lemma {:induction false} ReachableIsGood(run: seq<State>, k: nat)
    requires IsRun(run) && k < |run|
    ensures Inv(run[k])
  {
    if k > 0 {
      ReachableIsGood(run, k - 1);
      assert Step(run[k - 1], run[k - 1 + 1]);
      var a :| Enabled(run[k - 1], a) && run[k] == After(run[k - 1], a);
      InvKept(run[k - 1], a);
    }
  }

  /** In every run, what one thread has locked for itself no other thread holds. */
  lemma MutualExclusion(run: seq<State>, k: nat, t: nat, u: nat, m: nat)
    requires IsRun(run) && k < |run| && t in run[k].threads && u in run[k].threads && t != u
    ensures Placed(run[k].threads[t]) && Placed(run[k].threads[u])
    ensures HoldsAlone(run[k].threads[t], m) ==> !Holds(run[k].threads[u], m)
  {
    ReachableIsGood(run, k);
    assert Apart(run[k].threads[t], run[k].threads[u]);
    AloneMeansHolds(run[k].threads[t], m);
  }

  /** The call keeps the promise of its name: LocksAllExactlyWhen says for which requests. */
  ghost predicate Right(c: Call) {
    LocksAll(Named(c.inputs, c.ids), NonNull(Mutexes(SecondPass(c.inputs, c.ids))))
  }

  lemma MatchIsRight(c: Call)
    requires NumbersMatch(c.inputs, c.ids)
    ensures Right(c)
  {
    LocksAllExactlyWhen(c.inputs, c.ids);
  }

  /** The holder of a right call has every mutex that was asked for and no other. */
  lemma HeldMeansAll(th: Thread, m: nat)
    requires th.at.Held? && Right(th.call)
    requires !NothingToLock(th.call.doLock, Named(th.call.inputs, th.call.ids))
    ensures Holds(th, m) <==> m != 0 && HasMutex(Named(th.call.inputs, th.call.ids), m)
  {
    hide HasMutex, SecondPass, Mutexes, NonNull;
    var c := th.call;
    assert Found(c)[..|Found(c)|] == Found(c);
    NonNullHolds(Found(c));
  }

  /** A variable's mutex is not also the mutex of a reference. */
  ghost predicate OneKind(inputs: seq<Input>) {
    forall i, j :: 0 <= i < |inputs| && 0 <= j < |inputs| && Mutex(inputs[i]) == Mutex(inputs[j]) ==>
      inputs[i] == inputs[j]
  }

  /** A right call finds only mutexes that were asked for, and null only if it was. */
  lemma FoundWasAsked(c: Call, j: nat)
    requires Right(c) && j < |SecondPass(c.inputs, c.ids)|
    ensures HasMutex(Named(c.inputs, c.ids), Mutex(SecondPass(c.inputs, c.ids)[j]))
  {
    hide HasMutex, SecondPass, Mutexes, NonNull, Wanted, NumbersMatch;
    var items, found := Named(c.inputs, c.ids), Mutexes(SecondPass(c.inputs, c.ids));
    NonNullHolds(found);
    assert found[j] in found && found[j] == Mutex(SecondPass(c.inputs, c.ids)[j]);
    if !HasMutex(items, 0) {
      LocksAllExactlyWhen(c.inputs, c.ids);
      FindsWantedExactlyWhen(c.inputs, c.ids);
    }
  }

  /** What the second pass looks up was met in the first pass. */
  lemma SecondPassWasMet(c: Call, j: nat)
    requires OneKind(c.inputs) && Right(c) && j < |Items(c, true)|
    ensures Items(c, true)[j] in Items(c, false)
  {
    PositionsAreInputs(c.inputs, c.ids);
    var items := Named(c.inputs, c.ids);
    var p := AcquireOrder(Distinct(items))[j];
    assert Items(c, true)[j] == c.inputs[p];
    FoundWasAsked(c, j);
    var i :| 0 <= i < |items| && Mutex(items[i]) == Mutex(c.inputs[p]);
    assert c.inputs[c.ids[i]] == c.inputs[p];
  }

  ghost predicate SecondPassUnsettled(th: Thread) {
    (th.at.Wait? || th.at.Settle?) && th.at.second
  }

  /** In sparse mode too, the second pass locks nothing but what it goes on to hold. */
  lemma {:induction false} NoInnerLockWhileHolding(run: seq<State>, k: nat, t: nat)
    requires IsRun(run) && k < |run| && t in run[k].threads
    requires var c := run[k].threads[t].call; OneKind(c.inputs) && Right(c)
    ensures !SecondPassUnsettled(run[k].threads[t])
  {
    hide OneKind, Right, Items, Exclusion, Compatible;
    if k > 0 {
      ReachableIsGood(run, k - 1);
      assert Step(run[k - 1], run[k - 1 + 1]);
      var st := run[k - 1];
      var a :| Enabled(st, a) && run[k] == After(st, a);
      if t in st.threads && !(a.Enter? && a.t == t) {
        NoInnerLockWhileHolding(run, k - 1, t);
        var th := st.threads[t];
        if a == Advance(t) && th.at.Look? && th.at.second && th.at.i < |Items(th.call, true)| {
          SecondPassWasMet(th.call, th.at.i);
          assert Prepared(st.copyOnRead, th);
          assert !Unsettled(st, th.call, Items(th.call, true)[th.at.i]);
        }
      }
    }
  }

  /******* No deadlock, and every call returns *******/

  /** The second pass finds mutexes in order of address, each once; where it finds null does not matter. */
  ghost predicate Orderly(c: Call) { Ascending(NonNull(Found(c))) }

  lemma RightIsOrderly(c: Call)
    requires Right(c)
    ensures Orderly(c)
  {
    hide NonNull;
    NonNullHolds([]);
  }

  lemma MatchIsOrderly(c: Call)
    requires NumbersMatch(c.inputs, c.ids)
    ensures Orderly(c)
  {
    MatchIsRight(c);
    RightIsOrderly(c);
  }

  ghost predicate AllOrderly(st: State) {
    forall t :: t in st.threads ==> Orderly(st.threads[t].call)
  }

  /** Nobody has what the thread wants, so it can go on however the mutex treats those that share it. */
  ghost predicate Free(st: State, t: nat)
    requires AllPlaced(st)
  {
    t in st.threads && forall u :: u in st.threads ==> !Holds(st.threads[u], Next(st.threads[t]))
  }

  /** A thread that holds one mutex and wants another wants a later one. */
  lemma WantsLater(th: Thread, m: nat)
    requires Placed(th) && Orderly(th.call) && Holds(th, m) && Next(th) != 0
    ensures m < Next(th)
  {
    hide Items;
    var i := th.at.i;
    assert Next(th) == Found(th.call)[i];
    var j :| 0 <= j < i && Found(th.call)[j] == m;
    NonNullInOrder(Found(th.call), j, i);
  }

  lemma {:induction false} UpperBound(threads: map<nat, Thread>) returns (bound: nat)
    requires forall t :: t in threads ==> Placed(threads[t])
    ensures forall t :: t in threads ==> Next(threads[t]) <= bound
    decreases threads.Keys
  {
    bound := 0;
    if t :| t in threads {
      var rest := threads - {t};
      assert t in threads.Keys && t !in rest.Keys;
      var b := UpperBound(rest);
      bound := if Next(threads[t]) > b then Next(threads[t]) else b;
      forall u | u in threads
        ensures Next(threads[u]) <= bound
      {
        assert u == t || (u in rest && rest[u] == threads[u]);
      }
    }
  }

  lemma {:induction false} SomeoneIsFree(st: State, t: nat, bound: nat) returns (u: nat)
    requires AllPlaced(st) && AllOrderly(st) && t in st.threads
    requires forall v :: v in st.threads ==> Next(st.threads[v]) <= bound
    ensures Free(st, u)
    decreases bound - Next(st.threads[t])
  {
    hide Holds, Next, Orderly;
    u := t;
    if !Free(st, t) {
      var h :| h in st.threads && Holds(st.threads[h], Next(st.threads[t]));
      if Next(st.threads[h]) == 0 {
        u := h;
        forall v | v in st.threads ensures !Holds(st.threads[v], 0) { NobodyHoldsNull(st.threads[v]); }
      } else {
        WantsLater(st.threads[h], Next(st.threads[t]));
        u := SomeoneIsFree(st, h, bound);
      }
    }
  }

  lemma NobodyHoldsNull(th: Thread)
    requires Placed(th)
    ensures !Holds(th, 0)
  {
  }

  /** There is no deadlock among calls whose second pass is orderly. */
  lemma SomeoneAdvances(st: State, t: nat) returns (u: nat)
    requires AllPlaced(st) && AllOrderly(st) && t in st.threads
    ensures Free(st, u) && Enabled(st, Advance(u))
  {
    var bound := UpperBound(st.threads);
    u := SomeoneIsFree(st, t, bound);
  }

  /** How many steps a thread has still to make, at most. */
  function Remaining(th: Thread): (n: nat)
    requires Placed(th)
    ensures n > 0
  {
    var n1, n2 := |Items(th.call, false)|, |Items(th.call, true)|;
    match th.at
    case Look(s, i) => if s then 4 * (n2 - i) + 2 else 4 * n2 + 3 * (n1 - i) + 3
    case Wait(s, i) => if s then 4 * (n2 - i) + 1 else 4 * n2 + 3 * (n1 - i) + 2
    case Settle(s, i) => if s then 4 * (n2 - i) else 4 * n2 + 3 * (n1 - i) + 1
    case Acquire(i) => 4 * (n2 - i) - 1
    case Held => 1
  }

  lemma MovedIsCloser(st: State, th: Thread)
    requires Placed(th) && !th.at.Held?
    ensures Placed(th.(at := Moved(st, th)))
    ensures Remaining(th.(at := Moved(st, th))) < Remaining(th)
  {
    hide Items;
    MovedIsPlaced(st, th);
  }

  ghost function Total(threads: map<nat, Thread>): nat
    requires forall t :: t in threads ==> Placed(threads[t])
    decreases threads.Keys
  {
    if threads.Keys == {} then 0
    else
      var t :| t in threads;
      Remaining(threads[t]) + Total(threads - {t})
  }

  lemma {:induction false} TotalSplits(threads: map<nat, Thread>, t: nat)
    requires (forall u :: u in threads ==> Placed(threads[u])) && t in threads
    ensures Total(threads) == Remaining(threads[t]) + Total(threads - {t})
    decreases threads.Keys
  {
    hide Remaining, Placed;
    var u :| u in threads && Total(threads) == Remaining(threads[u]) + Total(threads - {u});
    if u != t {
      TotalSplits(threads - {u}, t);
      TotalSplits(threads - {t}, u);
      assert threads - {u} - {t} == threads - {t} - {u};
    }
  }

  lemma AdvanceIsProgress(st: State, t: nat)
    requires AllPlaced(st) && t in st.threads
    ensures AllPlaced(After(st, Advance(t)))
    ensures Total(After(st, Advance(t)).threads) < Total(st.threads)
  {
    hide Remaining, Moved, Placed;
    var th, n := st.threads[t], After(st, Advance(t));
    if !th.at.Held? {
      MovedIsCloser(st, th);
    }
    assert AllPlaced(n);
    TotalSplits(st.threads, t);
    if th.at.Held? {
      assert n.threads == st.threads - {t};
    } else {
      assert n.threads - {t} == st.threads - {t};
      TotalSplits(n.threads, t);
    }
  }

  ghost predicate AdvanceStep(st: State, n: State)
    requires AllPlaced(st)
  {
    exists t :: Enabled(st, Advance(t)) && n == After(st, Advance(t))
  }

  /** The states of calls that go on without new ones arriving. */
  ghost predicate Finishing(run: seq<State>) {
    forall k :: 0 <= k < |run| - 1 ==> AllPlaced(run[k]) && AdvanceStep(run[k], run[k + 1])
  }

  /** Nobody can be sure to go on. */
  ghost predicate Stuck(st: State)
    requires AllPlaced(st)
  {
    forall t :: !Free(st, t)
  }

  lemma StepIsProgress(st: State, n: State)
    requires Inv(st) && AllOrderly(st) && AdvanceStep(st, n)
    ensures Inv(n) && AllOrderly(n) && Total(n.threads) < Total(st.threads)
  {
    hide Orderly, Total, Inv;
    assert AllPlaced(st) by { InvIsPlaced(st); }
    var t :| Enabled(st, Advance(t)) && n == After(st, Advance(t));
    AdvanceIsProgress(st, t);
    InvKept(st, Advance(t));
  }

  lemma InvIsPlaced(st: State)
    requires Inv(st)
    ensures AllPlaced(st)
  {
  }

  /**
   If no new calls come and those under way are orderly, only so many steps are left, and when
   nobody can go on every holder has been released.
   */
  lemma {:induction false} CallsReturn(run: seq<State>, k: nat)
    requires k < |run| && Inv(run[0]) && AllOrderly(run[0]) && Finishing(run)
    ensures Inv(run[k]) && AllOrderly(run[k])
    ensures k + Total(run[k].threads) <= Total(run[0].threads)
    ensures Stuck(run[k]) ==> run[k].threads == map[]
  {
    if k > 0 {
      CallsReturn(run, k - 1);
      assert AdvanceStep(run[k - 1], run[k - 1 + 1]);
      StepIsProgress(run[k - 1], run[k]);
    }
    if t :| t in run[k].threads {
      var u := SomeoneAdvances(run[k], t);
    }
  }

  /******* A call that does not return *******/

  /** A thread that wants again what it has locked for itself cannot go on. */
  lemma WantsItsOwn(st: State, t: nat, i: nat)
    requires AllPlaced(st) && t in st.threads && st.threads[t].at.Acquire? && st.threads[t].call.doLock
    requires var found := Found(st.threads[t].call);
             i < st.threads[t].at.i && found[i] == found[st.threads[t].at.i] != 0
    ensures !Enabled(st, Advance(t))
  {
    hide Items;
    var th := st.threads[t];
    assert Found(th.call)[..th.at.i][i] == Next(th);
    assert !Compatible(th, th);
  }

  /** The second pass finds the same mutex as item `i` and as item `j`. */
  ghost predicate FindsTwice(c: Call, i: nat, j: nat) {
    i < j < |Found(c)| && Found(c)[i] == Found(c)[j] != 0
  }

  /** The thread has not got past item `j` of the second pass. */
  ghost predicate NotPast(th: Thread, j: nat) {
    Placed(th) && Taken(th) <= j && !th.at.Held?
  }

  lemma MovedNotPast(st: State, t: nat, i: nat, j: nat)
    requires AllPlaced(st) && Enabled(st, Advance(t)) && NotPast(st.threads[t], j)
    requires st.threads[t].call.doLock && FindsTwice(st.threads[t].call, i, j)
    ensures var th := st.threads[t]; NotPast(th.(at := Moved(st, th)), j)
  {
    hide Items, Compatible;
    MovedIsPlaced(st, st.threads[t]);
    if st.threads[t].at == Acquire(j) {
      WantsItsOwn(st, t, i);
    }
  }

  lemma StepNotPast(st: State, n: State, t: nat, i: nat, j: nat)
    requires AllPlaced(st) && Step(st, n) && t in n.threads
    requires n.threads[t].call.doLock && FindsTwice(n.threads[t].call, i, j)
    requires t in st.threads && st.threads[t].call == n.threads[t].call ==> NotPast(st.threads[t], j)
    ensures NotPast(n.threads[t], j)
  {
    hide FindsTwice, NotPast, Compatible, Placed, Moved;
    var a :| Enabled(st, a) && n == After(st, a);
    if a == Advance(t) {
      MovedNotPast(st, t, i, j);
    } else if a.t == t {
      EnteredNotPast(a.call, j);
    }
  }

  lemma EnteredNotPast(c: Call, j: nat)
    ensures NotPast(Thread(c, Look(false, 0)), j)
  {
  }

  /**
   If the second pass finds a mutex twice, a call that locks exclusively never returns: in no run
   does it get past the second time.
   */
  lemma {:induction false} RepeatedMutexNeverReturns(run: seq<State>, k: nat, t: nat, i: nat, j: nat)
    requires IsRun(run) && k < |run| && t in run[k].threads
    requires run[k].threads[t].call.doLock && FindsTwice(run[k].threads[t].call, i, j)
    ensures NotPast(run[k].threads[t], j)
  {
    hide FindsTwice, NotPast, Step, AllPlaced;
    if k > 0 {
      assert AllPlaced(run[k - 1]) && Step(run[k - 1], run[k - 1 + 1]);
      if t in run[k - 1].threads && run[k - 1].threads[t].call == run[k].threads[t].call {
        RepeatedMutexNeverReturns(run, k - 1, t, i, j);
      }
      StepNotPast(run[k - 1], run[k], t, i, j);
    }
  }
}
