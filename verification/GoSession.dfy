/**
 Run and Close of the Go binding (tensorflow/go/session.go).

 Session.Run, PartialRun.Run and NewPartialRun enter in the same way: under the mutex they see
 whether the session is open and join the wait group. Close takes the mutex, waits for the group to
 empty while it holds it, and deletes the C session.
 */
module GoSession {

  datatype Option<T> = None | Some(value: T)

  /** Where a thread is in a call. */
  datatype Pc =
    | RunEntry       // wants the mutex
    | RunLocked      // has the mutex, has not yet looked at the session
    | RunAdmitted    // has the mutex and has joined the wait group
    | InFlight       // has released the mutex; the C library uses the session
    | CloseEntry     // wants the mutex
    | CloseWaiting   // has the mutex, waits for the group
    | CloseDrained   // has the mutex, the group was empty
    | CloseCalled    // TF_CloseSession succeeded
    | CloseDeleted   // TF_DeleteSession was called, the field is not yet nil

  /** `open` says that the field is not nil; `deletes` counts calls of TF_DeleteSession. */
  datatype State = State(open: bool, mu: Option<nat>, wg: nat, deletes: nat, threads: map<nat, Pc>)

  datatype Action =
    | CallRun(t: nat)
    | CallClose(t: nat)
    | Lock(t: nat)
    | Admit(t: nat)
    | Unlock(t: nat)
    | Done(t: nat)
    | Drain(t: nat)
    | CloseSession(t: nat, ok: bool)
    | DeleteSession(t: nat)
    | SetNil(t: nat)

  predicate Is(st: State, t: nat, pc: Pc) { t in st.threads && st.threads[t] == pc }

  predicate Enabled(st: State, a: Action) {
    match a
    case CallRun(t) => t !in st.threads
    case CallClose(t) => t !in st.threads
    case Lock(t) => st.mu.None? && (Is(st, t, RunEntry) || Is(st, t, CloseEntry))
    case Admit(t) => Is(st, t, RunLocked)
    case Unlock(t) => Is(st, t, RunAdmitted)
    case Done(t) => Is(st, t, InFlight)
    case Drain(t) => Is(st, t, CloseWaiting) && st.wg == 0
    case CloseSession(t, _) => Is(st, t, CloseDrained)
    case DeleteSession(t) => Is(st, t, CloseCalled)
    case SetNil(t) => Is(st, t, CloseDeleted)
  }

  function Goes(st: State, t: nat, pc: Pc): State { st.(threads := st.threads[t := pc]) }

  function Returns(st: State, t: nat): State { st.(threads := st.threads - {t}) }

  function After(st: State, a: Action): State
    requires Enabled(st, a)
  {
    match a
    case CallRun(t) => Goes(st, t, RunEntry)
    case CallClose(t) => Goes(st, t, CloseEntry)
    case Lock(t) => Goes(st, t, if st.threads[t].RunEntry? then RunLocked else CloseWaiting).(mu := Some(t))
    case Admit(t) => if st.open then Goes(st, t, RunAdmitted).(wg := st.wg + 1) else Returns(st, t).(mu := None)
    case Unlock(t) => Goes(st, t, InFlight).(mu := None)
    case Done(t) => Returns(st, t).(wg := if st.wg > 0 then st.wg - 1 else 0)
    case Drain(t) => if st.open then Goes(st, t, CloseDrained) else Returns(st, t).(mu := None)
    case CloseSession(t, ok) => if ok then Goes(st, t, CloseCalled) else Returns(st, t).(mu := None)
    case DeleteSession(t) => Goes(st, t, CloseDeleted).(deletes := st.deletes + 1)
    case SetNil(t) => Returns(st, t).(open := false, mu := None)
  }

  /******* Invariant *******/

  predicate HoldsMutex(pc: Pc) { !pc.RunEntry? && !pc.CloseEntry? && !pc.InFlight? }

  /** Counted by the wait group. */
  predicate Joined(pc: Pc) { pc.RunAdmitted? || pc.InFlight? }

  function Members(st: State): set<nat> { set t | t in st.threads && Joined(st.threads[t]) }

  /** Close is past its wait. */
  predicate PastWait(pc: Pc) { pc.CloseDrained? || pc.CloseCalled? || pc.CloseDeleted? }

  ghost predicate MutexOk(st: State) {
    && (st.mu.Some? ==> st.mu.value in st.threads && HoldsMutex(st.threads[st.mu.value]))
    && (forall t :: t in st.threads && HoldsMutex(st.threads[t]) ==> st.mu == Some(t))
  }

  /** The thread that has the mutex, if any, is at a place like this. */
  predicate Holder(st: State, p: Pc -> bool) {
    st.mu.Some? && st.mu.value in st.threads && p(st.threads[st.mu.value])
  }

  predicate IsCloseDeleted(pc: Pc) { pc.CloseDeleted? }

  ghost predicate GroupOk(st: State) {
    && st.wg == |Members(st)|
    && (Members(st) != {} ==> st.open && !Holder(st, PastWait))
    && (Holder(st, PastWait) ==> st.open)
    && (st.deletes == if !st.open || Holder(st, IsCloseDeleted) then 1 else 0)
  }

  ghost predicate Inv(st: State) { MutexOk(st) && GroupOk(st) }

  lemma MutexKept(st: State, a: Action)
    requires MutexOk(st) && Enabled(st, a)
    ensures MutexOk(After(st, a))
  {
  }

  lemma MembersAfter(st: State, a: Action)
    requires Enabled(st, a)
    ensures Members(After(st, a)) ==
            if a.Admit? && st.open then Members(st) + {a.t} else if a.Done? then Members(st) - {a.t} else Members(st)
    ensures a.Admit? ==> a.t !in Members(st)
    ensures a.Done? ==> a.t in Members(st)
  {
  }

  lemma GroupKept(st: State, a: Action)
    requires MutexOk(st) && GroupOk(st) && Enabled(st, a)
    ensures GroupOk(After(st, a))
  {
    hide Members;
    MembersAfter(st, a);
  }

  lemma InvKept(st: State, a: Action)
    requires Inv(st) && Enabled(st, a)
    ensures Inv(After(st, a))
  {
    MutexKept(st, a);
    GroupKept(st, a);
  }

  /******* Whole runs *******/

  const INITIAL := State(true, None, 0, 0, map[])

  ghost predicate Step(st: State, n: State) {
    exists a :: Enabled(st, a) && n == After(st, a)
  }

  ghost predicate IsRun(run: seq<State>) {
    && |run| > 0 && run[0] == INITIAL
    && forall k :: 0 <= k < |run| - 1 ==> Step(run[k], run[k + 1])
  }

  lemma {:induction false} ReachableIsGood(run: seq<State>, k: nat)
    requires IsRun(run) && k < |run|
    ensures Inv(run[k])
  {
    if k == 0 {
      assert Members(run[0]) == {};
    } else {
      ReachableIsGood(run, k - 1);
      assert Step(run[k - 1], run[k - 1 + 1]);
      var a :| Enabled(run[k - 1], a) && run[k] == After(run[k - 1], a);
      InvKept(run[k - 1], a);
    }
  }

  /** The C session is deleted at most once, and never while a call that was admitted is under way. */
  lemma DeletedOnceAndNeverInUse(run: seq<State>, k: nat, t: nat)
    requires IsRun(run) && k < |run|
    ensures run[k].deletes <= 1
    ensures t in Members(run[k]) ==> run[k].open && run[k].deletes == 0
  {
    ReachableIsGood(run, k);
  }

  /** No call is admitted once the session has been deleted. */
  lemma {:induction false} NothingAdmittedAfterDelete(run: seq<State>, i: nat, j: nat)
    requires IsRun(run) && i <= j < |run| && run[i].deletes == 1
    ensures run[j].deletes == 1 && Members(run[j]) == {}
    decreases j
  {
    ReachableIsGood(run, j);
    if i < j {
      NothingAdmittedAfterDelete(run, i, j - 1);
      assert Step(run[j - 1], run[j - 1 + 1]);
    }
    if t :| t in Members(run[j]) {
      DeletedOnceAndNeverInUse(run, j, t);
    }
  }

  /** A step by a thread that is inside a call. */
  predicate Advances(a: Action) { !a.CallRun? && !a.CallClose? }

  /** The wait group counts every call under way, so it never goes below zero. */
  lemma CallsAreCounted(run: seq<State>, k: nat, t: nat)
    requires IsRun(run) && k < |run| && Is(run[k], t, InFlight)
    ensures run[k].wg > 0
  {
    ReachableIsGood(run, k);
    assert t in Members(run[k]);
  }

  /** There is no deadlock: while some thread is inside a call, some such thread can go on. */
  lemma NoDeadlock(st: State, t: nat) returns (a: Action)
    requires Inv(st) && t in st.threads
    ensures Advances(a) && Enabled(st, a)
  {
    var u := if st.mu.Some? then st.mu.value else t;
    match st.threads[u] {
      case RunEntry => a := Lock(u);
      case CloseEntry => a := Lock(u);
      case RunLocked => a := Admit(u);
      case RunAdmitted => a := Unlock(u);
      case InFlight => a := Done(u);
      case CloseDrained => a := CloseSession(u, true);
      case CloseCalled => a := DeleteSession(u);
      case CloseDeleted => a := SetNil(u);
      case CloseWaiting =>
        if st.wg == 0 {
          a := Drain(u);
        } else {
          var m := SomeMember(st);
          a := Done(m);
        }
    }
  }

  /** While a Close waits, every member of the group has left the mutex. */
  lemma SomeMember(st: State) returns (m: nat)
    requires Inv(st) && st.wg > 0 && st.mu.Some? && Is(st, st.mu.value, CloseWaiting)
    ensures Is(st, m, InFlight)
  {
    m :| m in Members(st);
  }

  /******* Every call returns *******/

  /** How many steps a thread has still to make, at most. */
  function Remaining(pc: Pc): nat {
    match pc
    case RunEntry => 4
    case RunLocked => 3
    case RunAdmitted => 2
    case InFlight => 1
    case CloseEntry => 5
    case CloseWaiting => 4
    case CloseDrained => 3
    case CloseCalled => 2
    case CloseDeleted => 1
  }

  ghost function Total(threads: map<nat, Pc>): nat
    decreases threads.Keys
  {
    if threads.Keys == {} then 0
    else
      var t :| t in threads;
      Remaining(threads[t]) + Total(threads - {t})
  }

  lemma {:induction false} TotalSplits(threads: map<nat, Pc>, t: nat)
    requires t in threads
    ensures Total(threads) == Remaining(threads[t]) + Total(threads - {t})
    decreases threads.Keys
  {
    var u :| u in threads && Total(threads) == Remaining(threads[u]) + Total(threads - {u});
    if u != t {
      TotalSplits(threads - {u}, t);
      TotalSplits(threads - {t}, u);
      assert threads - {u} - {t} == threads - {t} - {u};
    }
  }

  lemma AdvanceIsProgress(st: State, a: Action)
    requires Advances(a) && Enabled(st, a)
    ensures Total(After(st, a).threads) < Total(st.threads)
  {
    var n := After(st, a);
    TotalSplits(st.threads, a.t);
    assert n.threads - {a.t} == st.threads - {a.t};
    if a.t in n.threads {
      TotalSplits(n.threads, a.t);
    } else {
      assert n.threads == st.threads - {a.t};
    }
  }

  ghost predicate AdvanceStep(st: State, n: State) {
    exists a :: Advances(a) && Enabled(st, a) && n == After(st, a)
  }

  /** The states of calls that go on without new ones arriving. */
  ghost predicate Finishing(run: seq<State>) {
    forall k :: 0 <= k < |run| - 1 ==> AdvanceStep(run[k], run[k + 1])
  }

  lemma StepIsProgress(st: State, n: State)
    requires Inv(st) && AdvanceStep(st, n)
    ensures Inv(n) && Total(n.threads) < Total(st.threads)
  {
    var a :| Advances(a) && Enabled(st, a) && n == After(st, a);
    AdvanceIsProgress(st, a);
    InvKept(st, a);
  }

  /** Stuck means that no thread inside a call can go on. */
  ghost predicate Stuck(st: State) {
    forall a :: Advances(a) ==> !Enabled(st, a)
  }

  lemma StuckMeansReturned(st: State)
    requires Inv(st) && Stuck(st)
    ensures st.threads.Keys == {}
  {
    if t :| t in st.threads {
      var a := NoDeadlock(st, t);
    }
  }

  /** If no new calls come, only so many steps are left, and when none is possible all calls have returned. */
  lemma {:induction false} CallsReturn(run: seq<State>, k: nat)
    requires k < |run| && Inv(run[0]) && Finishing(run)
    ensures Inv(run[k]) && k + Total(run[k].threads) <= Total(run[0].threads)
    ensures Stuck(run[k]) ==> run[k].threads.Keys == {}
  {
    hide Inv, AdvanceStep, Stuck;
    if k > 0 {
      CallsReturn(run, k - 1);
      assert AdvanceStep(run[k - 1], run[k - 1 + 1]);
      StepIsProgress(run[k - 1], run[k]);
    }
    if Stuck(run[k]) {
      StuckMeansReturned(run[k]);
    }
  }
}
