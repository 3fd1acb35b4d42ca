/**
 Locking the variables of a kernel (tensorflow/c/kernels_experimental.cc).

 TF_MaybeLockVariableInputMutexesInOrder collects the mutexes of the requested inputs without
 duplicates, sorts the positions of that list by address, and then uses each position as the number
 of an input whose mutex it looks up again and locks. A mutex is its address, 0 if there is none.
 */
module LockOrder {

  /** An input of the kernel: a resource that names a variable or nothing, or a reference. */
  datatype Input = Variable(address: nat) | Dangling | Reference(address: nat)

  predicate IsResource(i: Input) { !i.Reference? }

  function Mutex(i: Input): nat { if i.Dangling? then 0 else i.address }

  ghost predicate Ascending(s: seq<nat>) {
    forall i, j :: 0 <= i < j < |s| ==> s[i] < s[j]
  }

  ghost predicate NoRepeats(s: seq<nat>) {
    forall i, j :: 0 <= i < j < |s| ==> s[i] != s[j]
  }

  predicate InRange(inputs: seq<Input>, ids: seq<nat>) {
    forall i :: 0 <= i < |ids| ==> ids[i] < |inputs|
  }

  /** The inputs with the given numbers. */
  function Named(inputs: seq<Input>, ids: seq<nat>): (r: seq<Input>)
    requires InRange(inputs, ids)
    ensures |r| == |ids|
    ensures forall i :: 0 <= i < |ids| ==> r[i] == inputs[ids[i]]
  {
    seq(|ids|, i requires 0 <= i < |ids| => inputs[ids[i]])
  }

  ghost predicate HasMutex(items: seq<Input>, m: nat) {
    exists i :: 0 <= i < |items| && Mutex(items[i]) == m
  }

  /** The mutexes of some inputs, each once, in the order in which they are met. */
  function Distinct(items: seq<Input>): (ms: seq<nat>)
    ensures NoRepeats(ms)
    ensures forall m :: m in ms <==> HasMutex(items, m)
  {
    if items == [] then []
    else
      var last := items[|items| - 1];
      var ms := Distinct(items[..|items| - 1]);
      HasMutexOneMore(items);
      if Mutex(last) in ms then ms else ms + [Mutex(last)]
  }

  lemma HasMutexOneMore(items: seq<Input>)
    requires items != []
    ensures forall m :: HasMutex(items, m) <==>
                        HasMutex(items[..|items| - 1], m) || m == Mutex(items[|items| - 1])
  {
    var n := |items| - 1;
    forall m
      ensures HasMutex(items, m) <==> HasMutex(items[..n], m) || m == Mutex(items[n])
    {
      if HasMutex(items, m) && m != Mutex(items[n]) {
        var i :| 0 <= i < |items| && Mutex(items[i]) == m;
        assert items[..n][i] == items[i];
      }
    }
  }

  /** There are no more mutexes than inputs, so every position is the number of an input. */
  lemma {:induction false} PositionsAreInputs(inputs: seq<Input>, ids: seq<nat>)
    requires InRange(inputs, ids)
    ensures |Distinct(Named(inputs, ids))| <= |inputs|
  {
    var ms := Distinct(Named(inputs, ids));
    var all := set i | 0 <= i < |inputs| :: Mutex(inputs[i]);
    forall m | m in ms
      ensures m in all
    {
      var i :| 0 <= i < |ids| && Mutex(Named(inputs, ids)[i]) == m;
    }
    AtMostAsMany(inputs);
    NoRepeatsFits(ms, all);
  }

  lemma {:induction false} AtMostAsMany(inputs: seq<Input>)
    ensures |set i | 0 <= i < |inputs| :: Mutex(inputs[i])| <= |inputs|
  {
    var all := set i | 0 <= i < |inputs| :: Mutex(inputs[i]);
    if inputs == [] {
      assert all == {};
    } else {
      var init := inputs[..|inputs| - 1];
      AtMostAsMany(init);
      assert all == (set i | 0 <= i < |init| :: Mutex(init[i])) + {Mutex(inputs[|inputs| - 1])};
    }
  }

  lemma {:induction false} NoRepeatsFits(s: seq<nat>, all: set<nat>)
    requires NoRepeats(s) && forall m :: m in s ==> m in all
    ensures |s| <= |all|
  {
    if s != [] {
      NoRepeatsFits(s[..|s| - 1], all - {s[|s| - 1]});
    }
  }

  /******* The order in which positions are acquired *******/

  ghost predicate ByAddress(ms: seq<nat>, order: seq<nat>) {
    && InBounds(ms, order)
    && forall i, j :: 0 <= i < j < |order| ==> ms[order[i]] < ms[order[j]]
  }

  ghost predicate InBounds(ms: seq<nat>, order: seq<nat>) {
    forall i :: 0 <= i < |order| ==> order[i] < |ms|
  }

  function InsertPosition(ms: seq<nat>, order: seq<nat>, p: nat): (r: seq<nat>)
    requires ByAddress(ms, order) && p < |ms|
    requires forall i :: 0 <= i < |order| ==> ms[order[i]] != ms[p]
    ensures ByAddress(ms, r) && |r| == |order| + 1
    ensures forall q :: q in r <==> q in order || q == p
  {
    if order == [] then [p]
    else
      var init, last := order[..|order| - 1], order[|order| - 1];
      assert order == init + [last];
      if ms[last] < ms[p] then order + [p]
      else
        var r := InsertPosition(ms, init, p);
        assert forall i :: 0 <= i < |r| ==> r[i] in r;
        r + [last]
  }

  /** The first `n` positions by address. */
  function SortedPositions(ms: seq<nat>, n: nat): (r: seq<nat>)
    requires NoRepeats(ms) && n <= |ms|
    ensures ByAddress(ms, r) && |r| == n
    ensures forall p: nat :: p in r <==> p < n
  {
    if n == 0 then [] else
      var r := SortedPositions(ms, n - 1);
      assert forall i :: 0 <= i < |r| ==> r[i] in r;
      InsertPosition(ms, r, n - 1)
  }

  function AcquireOrder(ms: seq<nat>): (r: seq<nat>)
    requires NoRepeats(ms)
    ensures ByAddress(ms, r) && |r| == |ms|
    ensures forall p: nat :: p in r <==> p < |ms|
  {
    SortedPositions(ms, |ms|)
  }

  /** The inputs that the second pass looks up. */
  function SecondPass(inputs: seq<Input>, ids: seq<nat>): (r: seq<Input>)
    requires InRange(inputs, ids)
  {
    PositionsAreInputs(inputs, ids);
    Named(inputs, AcquireOrder(Distinct(Named(inputs, ids))))
  }

  function Mutexes(items: seq<Input>): (r: seq<nat>)
    ensures |r| == |items|
    ensures forall i :: 0 <= i < |items| ==> r[i] == Mutex(items[i])
  {
    seq(|items|, i requires 0 <= i < |items| => Mutex(items[i]))
  }

  function NonNull(s: seq<nat>): (r: seq<nat>)
    ensures |r| <= |s| && (|r| == |s| ==> r == s)
  {
    if s == [] then []
    else
      var init, last := NonNull(s[..|s| - 1]), s[|s| - 1];
      assert s == s[..|s| - 1] + [last];
      if last == 0 then init else init + [last]
  }

  lemma {:induction false} NonNullHolds(s: seq<nat>)
    ensures forall m :: m in NonNull(s) <==> m in s && m != 0
    ensures 0 !in s <==> NonNull(s) == s
  {
    if s != [] {
      NonNullHolds(s[..|s| - 1]);
      assert s == s[..|s| - 1] + [s[|s| - 1]];
    }
  }

  lemma {:induction false} NonNullAscends(s: seq<nat>)
    requires Ascending(s)
    ensures Ascending(NonNull(s))
  {
    if s != [] {
      var init, r := s[..|s| - 1], NonNull(s[..|s| - 1]);
      NonNullAscends(init);
      NonNullHolds(init);
      forall i | 0 <= i < |r|
        ensures r[i] < s[|s| - 1]
      {
        assert r[i] in init;
      }
    }
  }

  /** If what is not null ascends, any two numbers that are not null do. */
  lemma {:induction false} NonNullInOrder(s: seq<nat>, i: nat, j: nat)
    requires Ascending(NonNull(s)) && i < j < |s| && s[i] != 0 && s[j] != 0
    ensures s[i] < s[j]
    decreases |s|
  {
    var init, r := s[..|s| - 1], NonNull(s[..|s| - 1]);
    assert NonNull(s)[..|r|] == r;
    if j < |init| {
      NonNullInOrder(init, i, j);
    } else {
      NonNullHolds(init);
      assert init[i] in r;
      var k :| 0 <= k < |r| && r[k] == s[i];
      assert NonNull(s)[k] < NonNull(s)[|r|];
    }
  }

  /******* When the right mutexes are locked *******/

  /** What is promised: every mutex of the requested inputs is locked once, in order of address. */
  ghost predicate LocksAll(items: seq<Input>, locks: seq<nat>) {
    Ascending(locks) && forall m :: m in locks <==> m != 0 && HasMutex(items, m)
  }

  /** The input with number p has the mutex that was met as number p, for as many as were met. */
  ghost predicate NumbersMatch(inputs: seq<Input>, ids: seq<nat>)
    requires InRange(inputs, ids)
  {
    var ms := Distinct(Named(inputs, ids));
    |ms| <= |inputs| && forall p :: 0 <= p < |ms| ==> Mutex(inputs[p]) == ms[p]
  }

  lemma {:induction false} AscendingIsUnique(a: seq<nat>, b: seq<nat>)
    requires Ascending(a) && Ascending(b) && forall m :: m in a <==> m in b
    ensures a == b
  {
    if a == [] {
      assert forall i :: 0 <= i < |b| ==> b[i] in b;
    } else {
      assert a[|a| - 1] in b && |b| > 0 && b[|b| - 1] in a;
      var i :| 0 <= i < |b| && b[i] == a[|a| - 1];
      var j :| 0 <= j < |a| && a[j] == b[|b| - 1];
      assert a[|a| - 1] == b[|b| - 1];
      var a0, b0 := a[..|a| - 1], b[..|b| - 1];
      WithoutLast(a, a0);
      WithoutLast(b, b0);
      AscendingIsUnique(a0, b0);
    }
  }

  lemma WithoutLast(a: seq<nat>, init: seq<nat>)
    requires Ascending(a) && a != [] && init == a[..|a| - 1]
    ensures Ascending(init)
    ensures forall m :: m in init <==> m in a && m != a[|a| - 1]
  {
    assert a == init + [a[|a| - 1]];
  }

  /** The requested mutexes by address. */
  ghost function Wanted(items: seq<Input>): (r: seq<nat>)
    ensures Ascending(r) && |r| == |Distinct(items)|
    ensures forall m :: m in r <==> HasMutex(items, m)
  {
    var ms := Distinct(items);
    var order := AcquireOrder(ms);
    var r := seq(|order|, j requires 0 <= j < |order| => ms[order[j]]);
    WantedHolds(ms, order, r);
    r
  }

  lemma WantedHolds(ms: seq<nat>, order: seq<nat>, r: seq<nat>)
    requires InBounds(ms, order) && (forall p: nat :: p in order <==> p < |ms|)
    requires |r| == |order| && forall j :: 0 <= j < |order| ==> r[j] == ms[order[j]]
    ensures forall m :: m in r <==> m in ms
  {
    forall m | m in ms
      ensures m in r
    {
      var p: nat :| p < |ms| && ms[p] == m;
      assert p in order;
      var j :| 0 <= j < |order| && order[j] == p;
      assert r[j] == m;
    }
  }

  /** The second pass finds the wanted mutexes exactly when the numbers match. */
  lemma FindsWantedExactlyWhen(inputs: seq<Input>, ids: seq<nat>)
    requires InRange(inputs, ids)
    ensures Mutexes(SecondPass(inputs, ids)) == Wanted(Named(inputs, ids)) <==> NumbersMatch(inputs, ids)
  {
    PositionsAreInputs(inputs, ids);
    var ms := Distinct(Named(inputs, ids));
    var order := AcquireOrder(ms);
    var found, wanted := Mutexes(SecondPass(inputs, ids)), Wanted(Named(inputs, ids));
    assert forall j :: 0 <= j < |order| ==> found[j] == Mutex(inputs[order[j]]) && wanted[j] == ms[order[j]];
    if found == wanted {
      forall p | 0 <= p < |ms|
        ensures Mutex(inputs[p]) == ms[p]
      {
        assert p in order;
        var j :| 0 <= j < |order| && order[j] == p;
        assert found[j] == wanted[j];
      }
    }
  }

  lemma {:induction false} NonNullOfBoth(a: seq<nat>, b: seq<nat>)
    ensures NonNull(a + b) == NonNull(a) + NonNull(b)
  {
    if b == [] {
      assert a + b == a;
    } else {
      var init, last := b[..|b| - 1], b[|b| - 1];
      NonNullOfBoth(a, init);
      assert (a + b)[..|a + b| - 1] == a + init && (a + b)[|a + b| - 1] == last;
    }
  }

  /** A null in the middle drops out. */
  lemma NonNullAround(a: seq<nat>, b: seq<nat>)
    ensures NonNull(a + [0] + b) == NonNull(a) + NonNull(b)
  {
    NonNullOfBoth(a + [0], b);
    assert (a + [0])[..|a|] == a;
  }

  /** The second pass finds the null of the request at `j` rather than at the start, and all else in order. */
  ghost predicate NullMovedTo(found: seq<nat>, wanted: seq<nat>, j: nat) {
    && j < |found| == |wanted| && wanted[0] == found[j] == 0
    && (forall i :: 0 <= i < j ==> found[i] == wanted[i + 1])
    && (forall i :: j < i < |found| ==> found[i] == wanted[i])
  }

  lemma MovedNullIsSkipped(found: seq<nat>, wanted: seq<nat>, j: nat)
    requires NullMovedTo(found, wanted, j) && Ascending(wanted)
    ensures NonNull(found) == wanted[1..]
  {
    hide NonNull;
    var before, after := wanted[1..j + 1], wanted[j + 1..];
    assert found == before + [0] + after;
    NonNullAround(before, after);
    NonNullHolds(before);
    NonNullHolds(after);
    assert before + after == wanted[1..];
  }

  /** If all but one of the numbers are not null, the one that is can be found. */
  lemma OneNull(found: seq<nat>) returns (j: nat)
    requires |NonNull(found)| == |found| - 1
    ensures j < |found| && found[j] == 0 && NonNull(found) == found[..j] + found[j + 1..]
  {
    hide NonNull;
    NonNullHolds(found);
    j :| 0 <= j < |found| && found[j] == 0;
    var before, after := found[..j], found[j + 1..];
    assert found == before + [0] + after;
    NonNullAround(before, after);
    assert NonNull(before) == before && NonNull(after) == after;
  }

  lemma SkippedNullWasMoved(found: seq<nat>, wanted: seq<nat>) returns (j: nat)
    requires |found| == |wanted| > 0 && wanted[0] == 0 && NonNull(found) == wanted[1..]
    ensures NullMovedTo(found, wanted, j)
  {
    hide NonNull;
    j := OneNull(found);
    var rest := NonNull(found);
    forall i | 0 <= i < j
      ensures found[i] == wanted[i + 1]
    {
      assert rest[i] == found[i] && rest[i] == wanted[1..][i];
    }
    forall i | j < i < |found|
      ensures found[i] == wanted[i]
    {
      assert rest[i - 1] == found[i] && rest[i - 1] == wanted[1..][i - 1];
    }
  }

  lemma NullComesFirst(s: seq<nat>)
    requires Ascending(s)
    ensures 0 in s <==> s != [] && s[0] == 0
    ensures NonNull(s) == if 0 in s then s[1..] else s
  {
    hide NonNull;
    NonNullHolds(s);
    assert forall i :: 0 < i < |s| ==> s[0] < s[i];
    if 0 in s {
      var rest := s[1..];
      assert s == [] + [0] + rest;
      NonNullAround([], rest);
      NonNullHolds(rest);
      assert NonNull([]) == [] by { NonNullHolds([]); }
      assert 0 !in rest;
    }
  }

  /** What is wanted without the null, which comes first if it is requested. */
  lemma WantedNonNull(items: seq<Input>)
    ensures HasMutex(items, 0) <==> Wanted(items) != [] && Wanted(items)[0] == 0
    ensures NonNull(Wanted(items)) == if HasMutex(items, 0) then Wanted(items)[1..] else Wanted(items)
  {
    hide HasMutex, NonNull;
    NullComesFirst(Wanted(items));
  }

  /** The promise is kept exactly if what is locked is what is wanted, in order. */
  lemma LocksAllMeansWanted(items: seq<Input>, locks: seq<nat>)
    ensures LocksAll(items, locks) <==> locks == NonNull(Wanted(items))
  {
    hide HasMutex;
    NonNullHolds(Wanted(items));
    NonNullAscends(Wanted(items));
    if LocksAll(items, locks) {
      AscendingIsUnique(locks, NonNull(Wanted(items)));
    }
  }

  /**
   The call locks every requested mutex once, in order of address, if and only if the numbers match or,
   where an input without mutex is requested, they do so but for the place of the null.
   */
  lemma LocksAllExactlyWhen(inputs: seq<Input>, ids: seq<nat>)
    requires InRange(inputs, ids)
    ensures var (found, wanted) := (Mutexes(SecondPass(inputs, ids)), Wanted(Named(inputs, ids)));
            LocksAll(Named(inputs, ids), NonNull(found)) <==>
            if HasMutex(Named(inputs, ids), 0) then exists j :: NullMovedTo(found, wanted, j)
            else NumbersMatch(inputs, ids)
    ensures NumbersMatch(inputs, ids) ==>
              Ascending(Mutexes(SecondPass(inputs, ids)))
              && LocksAll(Named(inputs, ids), NonNull(Mutexes(SecondPass(inputs, ids))))
  {
    hide NumbersMatch, Wanted, SecondPass, HasMutex, LocksAll, NonNull, NullMovedTo;
    FindsWantedExactlyWhen(inputs, ids);
    SecondPassLength(inputs, ids);
    var items := Named(inputs, ids);
    var found, wanted := Mutexes(SecondPass(inputs, ids)), Wanted(items);
    LocksAllMeansWanted(items, NonNull(found));
    WantedNonNull(items);
    if HasMutex(items, 0) {
      if NonNull(found) == wanted[1..] {
        var j := SkippedNullWasMoved(found, wanted);
      }
      if j :| NullMovedTo(found, wanted, j) {
        MovedNullIsSkipped(found, wanted, j);
      }
    }
  }

  lemma SecondPassLength(inputs: seq<Input>, ids: seq<nat>)
    requires InRange(inputs, ids)
    ensures |SecondPass(inputs, ids)| == |Wanted(Named(inputs, ids))|
  {
  }

  /** Asking for the first inputs in turn is right as long as no two of them share a mutex. */
  lemma {:induction false} FirstInputsMatch(inputs: seq<Input>, ids: seq<nat>)
    requires |ids| <= |inputs| && forall i :: 0 <= i < |ids| ==> ids[i] == i
    requires NoRepeats(Mutexes(inputs[..|ids|]))
    ensures NumbersMatch(inputs, ids)
  {
    assert Named(inputs, ids) == inputs[..|ids|];
    DistinctOfDistinct(inputs[..|ids|]);
  }

  lemma {:induction false} DistinctOfDistinct(items: seq<Input>)
    requires NoRepeats(Mutexes(items))
    ensures Distinct(items) == Mutexes(items)
  {
    if items != [] {
      var init := items[..|items| - 1];
      assert Mutexes(init) == Mutexes(items)[..|items| - 1];
      DistinctOfDistinct(init);
      assert Mutexes(items) == Mutexes(init) + [Mutex(items[|items| - 1])];
    }
  }

  lemma DistinctOneMore(items: seq<Input>, x: Input)
    ensures Distinct(items + [x]) ==
            if Mutex(x) in Distinct(items) then Distinct(items) else Distinct(items) + [Mutex(x)]
  {
    assert (items + [x])[..|items|] == items;
  }

  /** A variable that is asked for twice: its mutex is looked up twice, and another not at all. */
  lemma SharedMutexIsMisread()
    ensures var inputs, ids := [Variable(10), Variable(10), Variable(20)], [0, 1, 2];
            && Distinct(Named(inputs, ids)) == [10, 20]
            && Mutexes(SecondPass(inputs, ids)) == [10, 10]
            && !NumbersMatch(inputs, ids)
  {
    hide Distinct, AcquireOrder;
    var inputs, ids := [Variable(10), Variable(10), Variable(20)], [0, 1, 2];
    DistinctOfDistinct([Variable(10)]);
    DistinctOneMore([Variable(10)], Variable(10));
    DistinctOneMore([Variable(10), Variable(10)], Variable(20));
    assert [Variable(10)] + [Variable(10)] == [Variable(10), Variable(10)];
    assert Named(inputs, ids) == inputs == [Variable(10), Variable(10)] + [Variable(20)];
    var order := AcquireOrder([10, 20]);
    assert order[0] < 2 && order[1] < 2 && [10, 20][order[0]] < [10, 20][order[1]];
    assert order == [0, 1];
    assert Mutexes(Named(inputs, order)) == [10, 10];
  }

  /******* The call *******/

  /** What the caller gets back: references to variables, and locks of one of the two kinds. */
  datatype Holder = Holder(vars: seq<nat>, locks: seq<nat>, sharedLocks: seq<nat>)

  /** The variables among some inputs, with repetitions. */
  function Variables(items: seq<Input>): (r: seq<nat>)
  {
    if items == [] then []
    else
      var r, last := Variables(items[..|items| - 1]), items[|items| - 1];
      if last.Variable? then r + [last.address] else r
  }

  lemma VariablesStep(items: seq<Input>, k: nat)
    requires k < |items|
    ensures var vars := Variables(items[..k]);
            Variables(items[..k + 1]) == if items[k].Variable? then vars + [items[k].address] else vars
  {
    assert items[..k + 1][..k] == items[..k];
  }

  lemma DistinctStep(items: seq<Input>, k: nat)
    requires k < |items|
    ensures var ms := Distinct(items[..k]);
            Distinct(items[..k + 1]) == if Mutex(items[k]) in ms then ms else ms + [Mutex(items[k])]
  {
    assert items[..k + 1][..k] == items[..k];
  }

  lemma NonNullStep(s: seq<nat>, k: nat)
    requires k < |s|
    ensures NonNull(s[..k + 1]) == if s[k] == 0 then NonNull(s[..k]) else NonNull(s[..k]) + [s[k]]
  {
    assert s[..k + 1][..k] == s[..k];
  }

  /** The variables that a pass puts in copy-on-read mode. */
  function Settled(sparse: bool, vars: seq<nat>): (r: set<nat>)
  {
    if sparse then set m | m in vars else {}
  }

  lemma NothingYet(sparse: bool, items: seq<Input>)
    ensures Settled(sparse, []) == {} && Variables(items[..0]) == []
    ensures Distinct(items[..0]) == [] && NonNull(Mutexes(items)[..0]) == []
  {
  }

  lemma SettledStep(sparse: bool, vars: seq<nat>, m: nat)
    ensures Settled(sparse, vars + [m]) == Settled(sparse, vars) + if sparse then {m} else {}
  {
  }

  /** Only reference inputs, and no lock asked for. */
  predicate NothingToLock(doLock: bool, items: seq<Input>) {
    !doLock && forall i :: 0 <= i < |items| ==> !IsResource(items[i])
  }

  /** The mutexes that a call locks, in the order in which it locks them. */
  function Locked(inputs: seq<Input>, ids: seq<nat>, doLock: bool): (r: seq<nat>)
    requires InRange(inputs, ids)
  {
    if NothingToLock(doLock, Named(inputs, ids)) then [] else NonNull(Mutexes(SecondPass(inputs, ids)))
  }

  class Kernel {
    const inputs: seq<Input>
    // The variables that are in copy-on-read mode.
    var copyOnRead: set<nat>
    // The references to variables that lookups have added and nobody has given back.
    var references: multiset<nat>

    constructor (inputs: seq<Input>, copyOnRead: set<nat>, references: multiset<nat>)
      ensures this.inputs == inputs && this.copyOnRead == copyOnRead && this.references == references
    {
      this.inputs, this.copyOnRead, this.references := inputs, copyOnRead, references;
    }

    /** The mutex of an input; a variable gets one more reference and, in sparse mode, copy-on-read. */
    method GetTrainingVariableMutex(input: nat, sparse: bool) returns (mutex: nat, variable: bool)
      requires input < |inputs|
      modifies this
      ensures mutex == Mutex(inputs[input]) && variable == inputs[input].Variable?
      ensures references == old(references) + if variable then multiset{mutex} else multiset{}
      ensures copyOnRead == old(copyOnRead) + if variable && sparse then {mutex} else {}
    {
      mutex, variable := 0, false;
      match inputs[input] {
        case Variable(address) =>
          references := references + multiset{address};
          if sparse {
            copyOnRead := copyOnRead + {address};
          }
          mutex, variable := address, true;
        case Dangling =>
        case Reference(address) =>
          mutex := address;
      }
    }

    /** One round of the first pass. */
    method CollectMutex(input: nat, sparse: bool, before: seq<nat>, met: seq<nat>)
      returns (vars: seq<nat>, mutexes: seq<nat>)
      requires input < |inputs|
      modifies this
      ensures vars == if inputs[input].Variable? then before + [Mutex(inputs[input])] else before
      ensures mutexes == if Mutex(inputs[input]) in met then met else met + [Mutex(inputs[input])]
      ensures references ==
              old(references) + if inputs[input].Variable? then multiset{Mutex(inputs[input])} else multiset{}
      ensures copyOnRead == old(copyOnRead) + if inputs[input].Variable? && sparse then {Mutex(inputs[input])} else {}
    {
      vars, mutexes := before, met;
      var mutex, variable := GetTrainingVariableMutex(input, sparse);
      if variable {
        vars := vars + [mutex];
      }
      if mutex !in mutexes {
        mutexes := mutexes + [mutex];
      }
    }

    /** The first pass: which mutexes there are, and the variables with their new references. */
    method CollectMutexes(ids: seq<nat>, sparse: bool) returns (vars: seq<nat>, mutexes: seq<nat>)
      requires InRange(inputs, ids)
      modifies this
      ensures vars == Variables(Named(inputs, ids)) && mutexes == Distinct(Named(inputs, ids))
      ensures references == old(references) + multiset(vars)
      ensures copyOnRead == old(copyOnRead) + Settled(sparse, vars)
    {
      hide Distinct, Settled, Variables;
      vars, mutexes := [], [];
      ghost var items := Named(inputs, ids);
      NothingYet(sparse, items);
      for k := 0 to |ids|
        invariant vars == Variables(items[..k]) && mutexes == Distinct(items[..k])
        invariant references == old(references) + multiset(vars)
        invariant copyOnRead == old(copyOnRead) + Settled(sparse, vars)
      {
        VariablesStep(items, k);
        DistinctStep(items, k);
        SettledStep(sparse, vars, Mutex(items[k]));
        vars, mutexes := CollectMutex(ids[k], sparse, vars, mutexes);
      }
      assert items[..|ids|] == items;
    }

    /** A lookup whose reference is given back at once. */
    method LookUpAgain(input: nat, sparse: bool) returns (mutex: nat)
      requires input < |inputs|
      modifies this
      ensures mutex == Mutex(inputs[input]) && references == old(references)
      ensures copyOnRead == old(copyOnRead) + if inputs[input].Variable? && sparse then {mutex} else {}
    {
      var variable;
      mutex, variable := GetTrainingVariableMutex(input, sparse);
      if variable {
        references := references - multiset{mutex};
      }
    }

    /** The second pass: look up and lock the input that each position names. */
    method LockPositions(order: seq<nat>, sparse: bool) returns (locks: seq<nat>)
      requires InRange(inputs, order)
      modifies this
      ensures locks == NonNull(Mutexes(Named(inputs, order)))
      ensures references == old(references)
      ensures copyOnRead == old(copyOnRead) + Settled(sparse, Variables(Named(inputs, order)))
    {
      hide NonNull, Settled, Variables, Distinct;
      locks := [];
      ghost var items := Named(inputs, order);
      NothingYet(sparse, items);
      for k := 0 to |order|
        invariant locks == NonNull(Mutexes(items)[..k])
        invariant references == old(references)
        invariant copyOnRead == old(copyOnRead) + Settled(sparse, Variables(items[..k]))
      {
        VariablesStep(items, k);
        NonNullStep(Mutexes(items), k);
        SettledStep(sparse, Variables(items[..k]), Mutex(items[k]));
        var mutex := LookUpAgain(order[k], sparse);
        if mutex != 0 {
          locks := locks + [mutex];
        }
      }
      assert items[..|order|] == items && Mutexes(items)[..|order|] == Mutexes(items);
    }

    method LockInputs(doLock: bool, sparse: bool, ids: seq<nat>) returns (holder: Holder)
      requires InRange(inputs, ids)
      modifies this
      ensures holder.locks == (if doLock then Locked(inputs, ids, doLock) else [])
      ensures holder.sharedLocks == (if doLock then [] else Locked(inputs, ids, doLock))
      ensures holder.vars == if NothingToLock(doLock, Named(inputs, ids)) then [] else Variables(Named(inputs, ids))
      ensures references == old(references) + multiset(holder.vars)
      ensures old(copyOnRead) <= copyOnRead
      ensures NothingToLock(doLock, Named(inputs, ids)) || !sparse ==> copyOnRead == old(copyOnRead)
      ensures sparse ==> forall m :: m in holder.vars ==> m in copyOnRead
      ensures NumbersMatch(inputs, ids) && !NothingToLock(doLock, Named(inputs, ids)) ==>
                LocksAll(Named(inputs, ids), holder.locks + holder.sharedLocks)
    {
      var anyResource := false;
      for k := 0 to |ids|
        invariant anyResource == exists i :: 0 <= i < k && IsResource(Named(inputs, ids)[i])
      {
        if IsResource(inputs[ids[k]]) {
          anyResource := true;
          break;
        }
      }
      if !doLock && !anyResource {
        return Holder([], [], []);
      }
      var vars, mutexes := CollectMutexes(ids, sparse);
      PositionsAreInputs(inputs, ids);
      LocksAllExactlyWhen(inputs, ids);
      var order := AcquireOrder(mutexes);
      var locks := LockPositions(order, sparse);
      holder := if doLock then Holder(vars, locks, []) else Holder(vars, [], locks);
      assert [] + locks == locks == locks + [];
    }

    /** TF_ReleaseVariableInputLockHolder: every reference that the call added is given back. */
    method Release(holder: Holder)
      requires multiset(holder.vars) <= references
      modifies this`references
      ensures references == old(references) - multiset(holder.vars)
    {
      for k := 0 to |holder.vars|
        invariant references == old(references) - multiset(holder.vars[..k])
      {
        assert holder.vars[..k + 1] == holder.vars[..k] + [holder.vars[k]];
        references := references - multiset{holder.vars[k]};
      }
      assert holder.vars[..|holder.vars|] == holder.vars;
    }
  }
}
