/**
 The order of feeds in the Go binding (tensorflow/go/session.go).

 A Go map yields its entries in any order. newCRunArgs sorts them, so that the C library sees one
 order for one set of feeds.
 */
module FeedSort {

  /** A TF_Output: the address of its operation's name, and the output index. */
  datatype Output = Output(name: nat, index: int)

  /** A feed and its tensor. */
  datatype Feed = Feed(output: Output, tensor: int)

  /** feedsort.Less on outputs. */
  predicate Less(a: Output, b: Output) {
    if a.name == b.name then a.index < b.index else a.name < b.name
  }

  /** The two parallel lists, as pairs. */
  function Paired(feeds: seq<Output>, tensors: seq<int>): (r: seq<Feed>)
    requires |feeds| == |tensors|
    ensures |r| == |feeds| && forall i :: 0 <= i < |r| ==> r[i] == Feed(feeds[i], tensors[i])
  {
    seq(|feeds|, i requires 0 <= i < |feeds| => Feed(feeds[i], tensors[i]))
  }

  ghost predicate SortedUpTo(feeds: seq<Feed>, n: nat) {
    forall i, j :: 0 <= i < j < n && j < |feeds| ==> !Less(feeds[j].output, feeds[i].output)
  }

  ghost predicate Sorted(feeds: seq<Feed>) { SortedUpTo(feeds, |feeds|) }

  function Swapped(s: seq<Feed>, i: nat, j: nat): (r: seq<Feed>)
    requires i < j < |s|
    ensures multiset(r) == multiset(s)
  {
    assert s == s[..i] + [s[i]] + s[i + 1..j] + [s[j]] + s[j + 1..];
    var r := s[i := s[j]][j := s[i]];
    assert r == s[..i] + [s[j]] + s[i + 1..j] + [s[i]] + s[j + 1..];
    r
  }

  /** The first entries up to `i` are sorted, except that entry `j` may belong further down. */
  ghost predicate SortedBut(s: seq<Feed>, i: nat, j: nat) {
    forall k, l :: 0 <= k < l <= i && l < |s| && l != j ==> !Less(s[l].output, s[k].output)
  }

  lemma SwapMovesDown(s: seq<Feed>, i: nat, j: nat)
    requires 0 < j <= i < |s| && SortedBut(s, i, j) && Less(s[j].output, s[j - 1].output)
    ensures SortedBut(Swapped(s, j - 1, j), i, j - 1)
  {
    var r := Swapped(s, j - 1, j);
    assert r[j - 1] == s[j] && r[j] == s[j - 1] && forall k :: 0 <= k < |s| && k != j && k != j - 1 ==> r[k] == s[k];
    forall k, l | 0 <= k < l <= i && l != j - 1
      ensures !Less(r[l].output, r[k].output)
    {
      assert l != j && k != j && k != j - 1 ==> !Less(s[l].output, s[k].output);
      assert l > j ==> !Less(s[l].output, s[j].output) && !Less(s[l].output, s[j - 1].output);
      assert k < j - 1 ==> !Less(s[j - 1].output, s[k].output);
    }
  }

  lemma InPlace(s: seq<Feed>, i: nat, j: nat)
    requires j <= i < |s| && SortedBut(s, i, j) && (j == 0 || !Less(s[j].output, s[j - 1].output))
    ensures SortedUpTo(s, i + 1)
  {
    forall k | 0 <= k < j
      ensures !Less(s[j].output, s[k].output)
    {
      assert k < j - 1 ==> !Less(s[j - 1].output, s[k].output);
    }
  }

  class FeedSorter {
    var feeds: seq<Output>
    var feedTensors: seq<int>

    ghost predicate Valid()
      reads this
    {
      |feeds| == |feedTensors|
    }

    ghost function Pairs(): seq<Feed>
      requires Valid()
      reads this
    {
      Paired(feeds, feedTensors)
    }

    constructor (feeds: seq<Output>, feedTensors: seq<int>)
      requires |feeds| == |feedTensors|
      ensures Valid() && Pairs() == Paired(feeds, feedTensors)
    {
      this.feeds, this.feedTensors := feeds, feedTensors;
    }

    /** Swaps two entries of both lists. */
    method Swap(i: nat, j: nat)
      requires Valid() && i < j < |feeds|
      modifies this
      ensures Valid() && Pairs() == Swapped(old(Pairs()), i, j)
    {
      feeds := feeds[i := feeds[j]][j := feeds[i]];
      feedTensors := feedTensors[i := feedTensors[j]][j := feedTensors[i]];
      assert Pairs() == Swapped(old(Pairs()), i, j);
    }

    /** A sort that, like sort.Sort, only uses Less and Swap. */
    method Sort()
      requires Valid()
      modifies this
      ensures Valid() && Sorted(Pairs()) && multiset(Pairs()) == multiset(old(Pairs()))
    {
      for i := 0 to |feeds|
        invariant Valid() && |feeds| == |old(feeds)|
        invariant SortedUpTo(Pairs(), i) && multiset(Pairs()) == multiset(old(Pairs()))
      {
        SiftDown(i);
      }
    }

    /** Moves entry `i` down to its place among the sorted entries below it. */
    method SiftDown(i: nat)
      requires Valid() && i < |feeds| && SortedUpTo(Pairs(), i)
      modifies this
      ensures Valid() && |feeds| == |old(feeds)| && SortedUpTo(Pairs(), i + 1)
      ensures multiset(Pairs()) == multiset(old(Pairs()))
    {
      hide Less, SortedBut, SortedUpTo, Swapped;
      var j := i;
      assert SortedBut(Pairs(), i, j) by { UnsortedEnd(Pairs(), i); }
      while j > 0 && Less(feeds[j], feeds[j - 1])
        invariant Valid() && |feeds| == |old(feeds)| && 0 <= j <= i
        invariant SortedBut(Pairs(), i, j) && multiset(Pairs()) == multiset(old(Pairs()))
      {
        SwapMovesDown(Pairs(), i, j);
        Swap(j - 1, j);
        j := j - 1;
      }
      InPlace(Pairs(), i, j);
    }
  }

  lemma UnsortedEnd(s: seq<Feed>, i: nat)
    requires SortedUpTo(s, i)
    ensures SortedBut(s, i, i)
  {
  }

  /** The feeds part of newCRunArgs; `entries` is the map in the order in which it is iterated. */
  method NewCRunArgs(entries: seq<Feed>) returns (feeds: seq<Output>, feedTensors: seq<int>)
    ensures |feeds| == |feedTensors|
    ensures Sorted(Paired(feeds, feedTensors)) && multiset(Paired(feeds, feedTensors)) == multiset(entries)
  {
    feeds, feedTensors := [], [];
    for i := 0 to |entries|
      invariant |feeds| == |feedTensors| == i && Paired(feeds, feedTensors) == entries[..i]
    {
      feeds := feeds + [entries[i].output];
      feedTensors := feedTensors + [entries[i].tensor];
    }
    assert entries[..|entries|] == entries;
    if |feeds| > 1 {
      var sorter := new FeedSorter(feeds, feedTensors);
      sorter.Sort();
      feeds, feedTensors := sorter.feeds, sorter.feedTensors;
    }
  }

  /******* One order for one set of feeds *******/

  /** No C output is fed twice with different tensors. */
  ghost predicate Consistent(feeds: multiset<Feed>) {
    forall a, b :: a in feeds && b in feeds && a.output == b.output ==> a == b
  }

  lemma {:induction false} SortedIsUnique(a: seq<Feed>, b: seq<Feed>)
    requires Sorted(a) && Sorted(b) && multiset(a) == multiset(b) && Consistent(multiset(a))
    ensures a == b
    decreases |a|
  {
    hide Sorted, Consistent;
    assert |multiset(a)| == |a| && |multiset(b)| == |b|;
    if a != [] {
      FirstAgrees(a, b);
      WithoutFirst(a);
      WithoutFirst(b);
      assert Consistent(multiset(a[1..])) by { FewerStayConsistent(multiset(a), a[0]); }
      SortedIsUnique(a[1..], b[1..]);
      assert a == [a[0]] + a[1..] && b == [b[0]] + b[1..];
    }
  }

  lemma WithoutFirst(a: seq<Feed>)
    requires a != [] && Sorted(a)
    ensures Sorted(a[1..]) && multiset(a[1..]) == multiset(a) - multiset{a[0]}
  {
    assert a == [a[0]] + a[1..];
  }

  lemma FewerStayConsistent(feeds: multiset<Feed>, x: Feed)
    requires Consistent(feeds)
    ensures Consistent(feeds - multiset{x})
  {
  }

  lemma FirstAgrees(a: seq<Feed>, b: seq<Feed>)
    requires a != [] && b != [] && Sorted(a) && Sorted(b) && multiset(a) == multiset(b) && Consistent(multiset(a))
    ensures a[0] == b[0]
  {
    assert a[0] in multiset(a) && b[0] in multiset(b);
    assert a[0] in b && b[0] in a;
  }

  /** Sorting settles the order exactly when no output is fed twice with different tensors. */
  lemma OrderSettledExactlyWhen(a: seq<Feed>)
    requires Sorted(a)
    ensures (forall b :: Sorted(b) && multiset(b) == multiset(a) ==> b == a) <==> Consistent(multiset(a))
  {
    hide Sorted, Consistent;
    if Consistent(multiset(a)) {
      forall b | Sorted(b) && multiset(b) == multiset(a)
        ensures b == a
      {
        SortedIsUnique(a, b);
      }
    } else {
      var b := AnotherOrder(a);
      assert Sorted(b) && multiset(b) == multiset(a) && b != a;
    }
  }

  /** Two tensors for one output can stand in either order. */
  lemma AnotherOrder(a: seq<Feed>) returns (b: seq<Feed>)
    requires Sorted(a) && !Consistent(multiset(a))
    ensures Sorted(b) && multiset(b) == multiset(a) && b != a
  {
    var x, y :| x in multiset(a) && y in multiset(a) && x.output == y.output && x != y;
    assert x in a && y in a;
    var k, l :| 0 <= k < |a| && 0 <= l < |a| && a[k] == x && a[l] == y;
    var i, j := if k < l then k else l, if k < l then l else k;
    b := Swapped(a, i, j);
    SwappingEqualsKeepsSorted(a, i, j);
    assert b[i] != a[i];
  }

  lemma SwappingEqualsKeepsSorted(a: seq<Feed>, i: nat, j: nat)
    requires Sorted(a) && i < j < |a| && a[i].output == a[j].output
    ensures Sorted(Swapped(a, i, j))
  {
    var b := Swapped(a, i, j);
    assert forall k :: 0 <= k < |a| ==> b[k].output == a[k].output;
  }

  /** However the map is iterated, the C library gets the same two lists. */
  lemma IterationOrderDoesNotMatter(entries: seq<Feed>, others: seq<Feed>, feeds: seq<Output>, tensors: seq<int>,
                                    feeds': seq<Output>, tensors': seq<int>)
    requires multiset(entries) == multiset(others) && Consistent(multiset(entries))
    requires |feeds| == |tensors| && |feeds'| == |tensors'|
    requires Sorted(Paired(feeds, tensors)) && multiset(Paired(feeds, tensors)) == multiset(entries)
    requires Sorted(Paired(feeds', tensors')) && multiset(Paired(feeds', tensors')) == multiset(others)
    ensures feeds == feeds' && tensors == tensors'
  {
    var a, b := Paired(feeds, tensors), Paired(feeds', tensors');
    SortedIsUnique(a, b);
    assert forall i :: 0 <= i < |a| ==> a[i] == b[i];
    assert |a| == |feeds| && |b| == |feeds'|;
    assert forall i :: 0 <= i < |feeds| ==> feeds[i] == a[i].output && tensors[i] == a[i].tensor;
    assert forall i :: 0 <= i < |feeds'| ==> feeds'[i] == b[i].output && tensors'[i] == b[i].tensor;
  }
}
