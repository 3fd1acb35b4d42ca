/**
 Partial tensor shapes (tensorflow/core/framework/tensor_shape.cc).

 A shape keeps its dimensions in 16 or in 32 bits as long as they fit, otherwise out of line. In the
 two small forms there is one code for every negative size, so it comes back as -1. Out of line a size
 is kept as it is.
 */
module PartialShape {

  /** kMaxRep16 and kMaxRep32: sizes must be less. */
  const MAX_REP16: int := 65534
  const MAX_REP32: int := 4294967294

  /** MaxDimensions() */
  const MAX_DIMENSIONS: nat := 254

  const INT64_MAX: int := 0x7FFF_FFFF_FFFF_FFFF

  /** The largest size for which InitDims takes its short cuts. */
  const MAX_SMALL: int := 0xd744

  datatype Rep = Rep16 | Rep32 | OutOfLine

  /** `numElements` is -1 if some size is not known. */
  datatype Stored = Stored(rep: Rep, dims: seq<int>, numElements: int)

  const EMPTY := Stored(Rep16, [], 1)

  /** What a small form gives back for a size. */
  function Coded(size: int): int { if size < 0 then -1 else size }

  function AllCoded(sizes: seq<int>): (r: seq<int>)
    ensures |r| == |sizes| && forall i :: 0 <= i < |r| ==> r[i] == Coded(sizes[i])
  {
    seq(|sizes|, i requires 0 <= i < |sizes| => Coded(sizes[i]))
  }

  predicate AllBelow(sizes: seq<int>, bound: int) {
    forall i :: 0 <= i < |sizes| ==> sizes[i] < bound
  }

  function Multiplied(n: int, size: int): int { if n < 0 || size < 0 then -1 else n * size }

  /** The shape with one more dimension. */
  function Added(x: Stored, size: int): Stored {
    var n, vals := Multiplied(x.numElements, size), x.dims + [size];
    if x.rep.Rep16? && |x.dims| < 6 && size < MAX_REP16 then Stored(Rep16, x.dims + [Coded(size)], n)
    else if x.rep.Rep32? && |x.dims| < 3 && size < MAX_REP32 then Stored(Rep32, x.dims + [Coded(size)], n)
    else if x.rep.OutOfLine? then Stored(OutOfLine, vals, n)
    else if |vals| <= 3 && AllBelow(vals, MAX_REP32) then Stored(Rep32, AllCoded(vals), n)
    else Stored(OutOfLine, vals, n)
  }

  /** The shape with these dimensions. */
  function Built(sizes: seq<int>): Stored {
    if sizes == [] then EMPTY else Added(Built(sizes[..|sizes| - 1]), sizes[|sizes| - 1])
  }

  /** Not too many dimensions, and at no point too many elements. */
  predicate Storable(sizes: seq<int>) {
    sizes == [] ||
    (Storable(sizes[..|sizes| - 1]) && |sizes| <= MAX_DIMENSIONS && Built(sizes).numElements <= INT64_MAX)
  }

  class TensorShape {
    var rep: Rep
    var dims: seq<int>
    var numElements: int

    ghost function Contents(): Stored
      reads this
    {
      Stored(rep, dims, numElements)
    }

    constructor ()
      ensures Contents() == EMPTY
    {
      rep, dims, numElements := Rep16, [], 1;
    }

    method AddDimWithStatus(size: int) returns (ok: bool)
      modifies this
      ensures ok <==> |old(dims)| < MAX_DIMENSIONS && Added(old(Contents()), size).numElements <= INT64_MAX
      ensures Contents() == if ok then Added(old(Contents()), size) else old(Contents())
    {
      if |dims| >= MAX_DIMENSIONS {
        return false;
      }
      var newNumElements := -1;
      if numElements >= 0 && size >= 0 {
        newNumElements := numElements * size;
        if newNumElements > INT64_MAX {
          return false;
        }
      }
      UnsafeAddDim(size, newNumElements);
      ok := true;
    }

    method UnsafeAddDim(size: int, newNumElements: int)
      requires newNumElements == Multiplied(numElements, size)
      modifies this
      ensures Contents() == Added(old(Contents()), size)
    {
      numElements := newNumElements;
      if (rep.Rep16? && |dims| < 6 && size < MAX_REP16) || (rep.Rep32? && |dims| < 3 && size < MAX_REP32) {
        dims := dims + [Coded(size)];
      } else if rep.OutOfLine? {
        dims := dims + [size];
      } else {
        var vals := dims + [size];
        var canBeRep32 := |vals| <= 3;
        if canBeRep32 {
          for i := 0 to |vals|
            invariant canBeRep32 <==> forall k :: 0 <= k < i ==> vals[k] < MAX_REP32
          {
            if vals[i] >= MAX_REP32 {
              canBeRep32 := false;
              break;
            }
          }
        }
        if canBeRep32 {
          rep, dims := Rep32, AllCoded(vals);
        } else {
          rep, dims := OutOfLine, vals;
        }
      }
    }

    /** InitDims: up to four small sizes are stored at once, others one by one. */
    method InitDims(sizes: seq<int>) returns (ok: bool)
      requires Contents() == EMPTY
      modifies this
      ensures ok <==> Storable(sizes)
      ensures ok ==> Contents() == Built(sizes)
    {
      var large := false;
      for i := 0 to |sizes|
        invariant !large <==> forall k :: 0 <= k < i ==> sizes[k] <= MAX_SMALL
      {
        if sizes[i] > MAX_SMALL {
          large := true;
          break;
        }
      }
      if !large && 1 <= |sizes| <= 4 {
        SmallIsBuilt(sizes);
        dims, numElements := AllCoded(sizes), Elements(sizes);
        return true;
      }
      for i := 0 to |sizes|
        invariant Contents() == Built(sizes[..i]) && Storable(sizes[..i])
      {
        assert sizes[..i + 1][..i] == sizes[..i];
        BuiltIsAsLong(sizes[..i]);
        ok := AddDimWithStatus(sizes[i]);
        if !ok {
          if Storable(sizes) {
            StorablePrefix(sizes, i + 1);
          }
          return;
        }
      }
      assert sizes[..|sizes|] == sizes;
      ok := true;
    }
  }

  /** The number of elements, -1 if some size is not known. */
  function Elements(sizes: seq<int>): int {
    if sizes == [] then 1 else Multiplied(Elements(sizes[..|sizes| - 1]), sizes[|sizes| - 1])
  }

  lemma {:induction false} StorablePrefix(sizes: seq<int>, n: nat)
    requires n <= |sizes| && Storable(sizes)
    ensures Storable(sizes[..n])
  {
    if n < |sizes| {
      StorablePrefix(sizes[..|sizes| - 1], n);
      assert sizes[..|sizes| - 1][..n] == sizes[..n];
    } else {
      assert sizes[..n] == sizes;
    }
  }

  /******* What is kept *******/

  /** So many or so large dimensions that they are kept out of line. */
  predicate Outside(sizes: seq<int>) {
    |sizes| > 6 || !AllBelow(sizes, MAX_REP32) || (|sizes| > 3 && !AllBelow(sizes, MAX_REP16))
  }

  function RepOf(sizes: seq<int>): Rep {
    if Outside(sizes) then OutOfLine else if AllBelow(sizes, MAX_REP16) then Rep16 else Rep32
  }

  /** Size `i` is kept as it is: it says a size or -1, or by then the shape is out of line. */
  predicate KeptAt(sizes: seq<int>, i: nat)
    requires i < |sizes|
  {
    sizes[i] >= -1 || Outside(sizes[..i + 1])
  }

  lemma InsideBefore(sizes: seq<int>, n: nat)
    requires n <= |sizes| && !Outside(sizes)
    ensures !Outside(sizes[..n])
  {
    assert forall i :: 0 <= i < n ==> sizes[..n][i] == sizes[i];
  }

  /** The form and the dimensions of a shape, in terms of the sizes it was made from. */
  lemma {:induction false} BuiltIs(sizes: seq<int>)
    ensures |Built(sizes).dims| == |sizes| && Built(sizes).numElements == Elements(sizes)
    ensures Built(sizes).rep == RepOf(sizes)
    ensures forall i :: 0 <= i < |sizes| ==>
              Built(sizes).dims[i] == if KeptAt(sizes, i) then sizes[i] else -1
  {
    if sizes != [] {
      var init, size := sizes[..|sizes| - 1], sizes[|sizes| - 1];
      BuiltIs(init);
      BuiltStep(init, size);
      assert sizes == init + [size];
    }
  }

  /** The sizes that were added so far determine what one more size does. */
  lemma BuiltStep(init: seq<int>, size: int)
    requires |Built(init).dims| == |init| && Built(init).rep == RepOf(init)
    requires forall i :: 0 <= i < |init| ==> Built(init).dims[i] == if KeptAt(init, i) then init[i] else -1
    ensures var (sizes, x) := (init + [size], Added(Built(init), size));
            && |x.dims| == |sizes| && x.rep == RepOf(sizes)
            && forall i :: 0 <= i < |sizes| ==> x.dims[i] == if KeptAt(sizes, i) then sizes[i] else -1
  {
    hide Built;
    var sizes, before, x := init + [size], Built(init), Added(Built(init), size);
    BoundsAgree(init, before.dims, MAX_REP32);
    BoundsAgree(init, before.dims, MAX_REP16);
    BelowOneMore(init, size, MAX_REP32);
    BelowOneMore(init, size, MAX_REP16);
    BelowOneMore(before.dims, size, MAX_REP32);
    assert sizes[..|sizes|] == sizes;
    forall i | 0 <= i < |init|
      ensures KeptAt(sizes, i) == KeptAt(init, i)
    {
      assert sizes[..i + 1] == init[..i + 1];
    }
    if !Outside(sizes) {
      forall i | 0 <= i < |sizes|
        ensures KeptAt(sizes, i) <==> sizes[i] >= -1
      {
        InsideBefore(sizes, i + 1);
      }
    }
  }

  lemma BelowOneMore(sizes: seq<int>, size: int, bound: int)
    ensures AllBelow(sizes + [size], bound) <==> AllBelow(sizes, bound) && size < bound
  {
    var longer := sizes + [size];
    assert longer[|sizes|] == size;
    assert forall i :: 0 <= i < |sizes| ==> longer[i] == sizes[i];
  }

  /** Negative sizes do not matter for the form. */
  lemma BoundsAgree(sizes: seq<int>, dims: seq<int>, bound: int)
    requires |sizes| == |dims| && bound > 0
    requires forall i :: 0 <= i < |sizes| ==> dims[i] == sizes[i] || (dims[i] < 0 && sizes[i] < 0)
    ensures AllBelow(sizes, bound) == AllBelow(dims, bound)
  {
  }

  lemma BuiltIsAsLong(sizes: seq<int>)
    ensures |Built(sizes).dims| == |sizes|
  {
    BuiltIs(sizes);
  }

  /** Making a shape keeps the sizes exactly if each is at least -1 or comes when the shape is out of line. */
  lemma KeptExactlyWhen(sizes: seq<int>)
    ensures Built(sizes).dims == sizes <==> forall i :: 0 <= i < |sizes| ==> KeptAt(sizes, i)
  {
    BuiltIs(sizes);
    if Built(sizes).dims == sizes {
      forall i | 0 <= i < |sizes|
        ensures KeptAt(sizes, i)
      {
        assert Built(sizes).dims[i] == sizes[i];
      }
    }
  }

  /** A shape made from the dimensions of a shape has the same dimensions. */
  lemma {:induction false} BuiltTwice(sizes: seq<int>)
    ensures Built(Built(sizes).dims).dims == Built(sizes).dims
    ensures Storable(sizes) ==> Storable(Built(sizes).dims)
  {
    var dims := Built(sizes).dims;
    BuiltIs(sizes);
    forall i | 0 <= i < |dims|
      ensures KeptAt(dims, i)
    {
      OutsideAgrees(sizes, dims, i + 1);
    }
    KeptExactlyWhen(dims);
    if Storable(sizes) {
      CodedIsStorable(sizes, dims);
    }
  }

  lemma OutsideAgrees(sizes: seq<int>, dims: seq<int>, n: nat)
    requires |sizes| == |dims| && n <= |sizes|
    requires forall i :: 0 <= i < |sizes| ==> dims[i] == sizes[i] || (dims[i] < 0 && sizes[i] < 0)
    ensures Outside(dims[..n]) == Outside(sizes[..n])
  {
    BoundsAgree(sizes[..n], dims[..n], MAX_REP32);
    BoundsAgree(sizes[..n], dims[..n], MAX_REP16);
  }

  lemma {:induction false} CodedIsStorable(sizes: seq<int>, dims: seq<int>)
    requires |sizes| == |dims| && Storable(sizes)
    requires forall i :: 0 <= i < |sizes| ==> dims[i] == sizes[i] || (dims[i] < 0 && sizes[i] < 0)
    ensures Storable(dims) && Elements(dims) == Elements(sizes)
  {
    if sizes != [] {
      CodedIsStorable(sizes[..|sizes| - 1], dims[..|dims| - 1]);
      BuiltIs(sizes);
      BuiltIs(dims);
    }
  }

  /******* The short cuts *******/

  lemma MulAtMost(a: int, b: int, c: int, d: int)
    requires 0 <= a <= c && 0 <= b <= d
    ensures a * b <= c * d
  {
    assert a * b <= c * b;
    assert c * b <= c * d;
  }

  function SmallPower(n: nat): int
    requires n <= 4
  {
    if n == 0 then 1 else SmallPower(n - 1) * MAX_SMALL
  }

  lemma {:induction false} SmallElements(sizes: seq<int>)
    requires |sizes| <= 4 && forall i :: 0 <= i < |sizes| ==> sizes[i] <= MAX_SMALL
    ensures 0 < SmallPower(|sizes|) <= INT64_MAX && Elements(sizes) <= SmallPower(|sizes|)
  {
    assert SmallPower(1) == 55108 && SmallPower(2) == 55108 * 55108;
    assert SmallPower(3) == 55108 * 55108 * 55108 && SmallPower(4) == 55108 * 55108 * 55108 * 55108;
    if sizes != [] {
      var init, size := sizes[..|sizes| - 1], sizes[|sizes| - 1];
      SmallElements(init);
      if Elements(init) >= 0 && size >= 0 {
        MulAtMost(Elements(init), size, SmallPower(|init|), MAX_SMALL);
      }
    }
  }

  /** Up to four small sizes: the short cuts store what adding them one by one would store. */
  lemma {:induction false} SmallIsBuilt(sizes: seq<int>)
    requires |sizes| <= 4 && forall i :: 0 <= i < |sizes| ==> sizes[i] <= MAX_SMALL
    ensures Built(sizes) == Stored(Rep16, AllCoded(sizes), Elements(sizes)) && Storable(sizes)
  {
    if sizes != [] {
      var init := sizes[..|sizes| - 1];
      SmallIsBuilt(init);
      SmallElements(sizes);
      assert AllCoded(sizes) == AllCoded(init) + [Coded(sizes[|sizes| - 1])];
    }
  }

  /******* What can be read back *******/

  /** At no point too many elements. */
  predicate FewElements(sizes: seq<int>) {
    sizes == [] || (FewElements(sizes[..|sizes| - 1]) && Elements(sizes) <= INT64_MAX)
  }

  /** What IsValidShape accepts: not too many dimensions, no size below -1, at no point too many elements. */
  ghost predicate ValidSizes(sizes: seq<int>) {
    |sizes| <= MAX_DIMENSIONS && (forall i :: 0 <= i < |sizes| ==> sizes[i] >= -1) && FewElements(sizes)
  }

  lemma {:induction false} FewElementsBefore(sizes: seq<int>, n: nat)
    requires n <= |sizes| && FewElements(sizes)
    ensures FewElements(sizes[..n])
  {
    if n < |sizes| {
      FewElementsBefore(sizes[..|sizes| - 1], n);
      assert sizes[..|sizes| - 1][..n] == sizes[..n];
    } else {
      assert sizes[..n] == sizes;
    }
  }

  /** IsValidShape for a shape of known rank. */
  method IsValidShape(sizes: seq<int>) returns (ok: bool)
    ensures ok <==> ValidSizes(sizes)
  {
    if |sizes| > MAX_DIMENSIONS {
      return false;
    }
    var numElements := 1;
    for i := 0 to |sizes|
      invariant numElements == Elements(sizes[..i]) && FewElements(sizes[..i])
      invariant forall k :: 0 <= k < i ==> sizes[k] >= -1
    {
      assert sizes[..i + 1][..i] == sizes[..i];
      if sizes[i] < -1 {
        return false;
      }
      if sizes[i] == -1 {
        numElements := -1;
      } else if numElements >= 0 {
        numElements := numElements * sizes[i];
        if numElements > INT64_MAX {
          if FewElements(sizes) {
            FewElementsBefore(sizes, i + 1);
          }
          return false;
        }
      }
    }
    assert sizes[..|sizes|] == sizes;
    ok := true;
  }

  lemma {:induction false} StorableMeans(sizes: seq<int>)
    ensures Storable(sizes) <==> |sizes| <= MAX_DIMENSIONS && FewElements(sizes)
  {
    if sizes != [] {
      StorableMeans(sizes[..|sizes| - 1]);
      BuiltIs(sizes);
    }
  }

  /** A valid shape can be stored, and what can be stored is valid if it has no size below -1. */
  lemma ValidIsStorable(sizes: seq<int>)
    ensures ValidSizes(sizes) <==> Storable(sizes) && forall i :: 0 <= i < |sizes| ==> sizes[i] >= -1
  {
    StorableMeans(sizes);
  }

  /** A size below -1 that is not coded as -1, because the shape is out of line when it comes. */
  predicate LeftAt(sizes: seq<int>, i: nat)
    requires i < |sizes|
  {
    sizes[i] < -1 && Outside(sizes[..i + 1])
  }

  /** A stored shape can be read exactly if no size below -1 came when it was out of line. */
  lemma ReadableExactlyWhen(sizes: seq<int>)
    requires Storable(sizes)
    ensures ValidSizes(Built(sizes).dims) <==> forall i :: 0 <= i < |sizes| ==> !LeftAt(sizes, i)
  {
    hide Storable, Built, Outside;
    var dims := Built(sizes).dims;
    BuiltIs(sizes);
    BuiltTwice(sizes);
    ValidIsStorable(dims);
    forall i | 0 <= i < |sizes|
      ensures dims[i] >= -1 <==> !LeftAt(sizes, i)
    {
      assert dims[i] == if KeptAt(sizes, i) then sizes[i] else -1;
    }
  }

  /** A stored shape is read back as it was exactly if it has no size below -1. */
  lemma ReadBackExactlyWhen(sizes: seq<int>)
    requires Storable(sizes)
    ensures ValidSizes(Built(sizes).dims) && Built(sizes).dims == sizes <==>
            forall i :: 0 <= i < |sizes| ==> sizes[i] >= -1
  {
    hide Storable, Built, Outside;
    ReadableExactlyWhen(sizes);
    KeptExactlyWhen(sizes);
    if ValidSizes(Built(sizes).dims) && Built(sizes).dims == sizes {
      forall i | 0 <= i < |sizes|
        ensures sizes[i] >= -1
      {
        assert KeptAt(sizes, i) && !LeftAt(sizes, i);
      }
    }
  }

  /** Two sizes of which the first puts the shape out of line: the second is stored and cannot be read. */
  lemma StoredButUnreadable()
    ensures var sizes := [MAX_REP32, -7];
            Storable(sizes) && Built(sizes).dims == sizes && !ValidSizes(Built(sizes).dims)
  {
    var sizes := [MAX_REP32, -7];
    assert sizes[..1] == [MAX_REP32] && sizes[..1][..0] == [];
    assert Built([MAX_REP32]) == Added(EMPTY, MAX_REP32);
    assert Built(sizes) == Added(Built(sizes[..1]), -7);
    assert sizes[1] < -1;
  }

  /** A small shape with a size below -1 is read back with -1. */
  lemma ComesBackChanged()
    ensures Storable([-7]) && Built([-7]).dims == [-1] && ValidSizes([-1])
  {
    assert [-7][..0] == [];
    assert [-1][..0] == [] && [-1][..1] == [-1];
    assert Elements([-1]) == -1;
  }
}
