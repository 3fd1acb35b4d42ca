/**
 Attributes that are lists of shapes, between Go and C
 (tensorflow/go/graph.go, tensorflow/go/attrs.go, tensorflow/c/c_api.cc).

 Going to C, all dimensions are put into one flat list and each shape is a pointer into it. Coming
 back, the C library fills storage of the size that the metadata announced. A pointer is an offset.
 */
module ShapeList {
  import opened PartialShape

  /** A shape of unknown rank, or the sizes of its dimensions, -1 for one that is not known. */
  datatype Shape = Unknown | Known(dims: seq<int>)

  function NumDims(s: Shape): int { if s.Unknown? then -1 else |s.dims| }

  function Dims(s: Shape): seq<int> { if s.Unknown? then [] else s.dims }

  /** What a PartialTensorShape makes of a shape, and whether it can be made at all. */
  function Kept(s: Shape): Shape { if s.Unknown? then Unknown else Known(Built(s.dims).dims) }

  predicate CanStore(s: Shape) { s.Unknown? || Storable(s.dims) }

  function AllKept(shapes: seq<Shape>): (r: seq<Shape>)
    ensures |r| == |shapes| && forall i :: 0 <= i < |r| ==> r[i] == Kept(shapes[i])
  {
    seq(|shapes|, i requires 0 <= i < |shapes| => Kept(shapes[i]))
  }

  ghost predicate CanStoreAll(shapes: seq<Shape>) {
    forall i :: 0 <= i < |shapes| ==> CanStore(shapes[i])
  }

  /** Every size is kept as it is. */
  ghost predicate Exact(s: Shape) {
    s.Known? ==> forall i :: 0 <= i < |s.dims| ==> KeptAt(s.dims, i)
  }

  lemma KeptIsExact(s: Shape)
    ensures Kept(s) == s <==> Exact(s)
  {
    if s.Known? {
      KeptExactlyWhen(s.dims);
    }
  }

  lemma KeptTwice(s: Shape)
    ensures Kept(Kept(s)) == Kept(s) && (CanStore(s) ==> CanStore(Kept(s)))
  {
    if s.Known? {
      BuiltTwice(s.dims);
    }
  }

  /** The dimensions of all shapes, one after the other. */
  function Flat(shapes: seq<Shape>): seq<int> {
    if shapes == [] then [] else Flat(shapes[..|shapes| - 1]) + Dims(shapes[|shapes| - 1])
  }

  /** The dimensions of shape `i` lie in the flat list where those of the shapes before it end. */
  lemma {:induction false} FlatHolds(shapes: seq<Shape>, i: nat)
    requires i < |shapes|
    ensures var lo := |Flat(shapes[..i])|;
            lo + |Dims(shapes[i])| <= |Flat(shapes)| && Flat(shapes)[lo..lo + |Dims(shapes[i])|] == Dims(shapes[i])
    decreases |shapes|
  {
    var init, n := shapes[..|shapes| - 1], |shapes| - 1;
    if i < n {
      FlatHolds(init, i);
      assert init[..i] == shapes[..i];
      PrefixSlice(Flat(init), Flat(shapes), |Flat(shapes[..i])|, |Flat(shapes[..i])| + |Dims(shapes[i])|);
    }
  }

  lemma FlatStep(shapes: seq<Shape>, i: nat)
    requires i < |shapes|
    ensures Flat(shapes[..i + 1]) == Flat(shapes[..i]) + Dims(shapes[i])
  {
    assert shapes[..i + 1][..i] == shapes[..i];
  }

  /******* From Go to C *******/

  /** The `[]Shape` case of setAttr. */
  method Flatten(value: seq<Shape>) returns (flatDims: seq<int>, ndims: seq<int>)
    ensures flatDims == Flat(value)
    ensures |ndims| == |value| && forall i :: 0 <= i < |value| ==> ndims[i] == NumDims(value[i])
  {
    flatDims, ndims := [], [];
    for i := 0 to |value|
      invariant flatDims == Flat(value[..i])
      invariant |ndims| == i && forall k :: 0 <= k < i ==> ndims[k] == NumDims(value[k])
    {
      FlatStep(value, i);
      ndims := ndims + [NumDims(value[i])];
      var dims := Dims(value[i]);
      ghost var before := flatDims;
      for j := 0 to |dims|
        invariant flatDims == before + dims[..j]
      {
        flatDims := flatDims + [dims[j]];
      }
      assert dims[..|dims|] == dims;
    }
    assert value[..|value|] == value;
  }

  /** Where the dimensions of shape `i` start if every shape takes as many as its rank says. */
  function Offset(numDims: seq<int>, i: nat): nat
    requires i <= |numDims|
  {
    if i == 0 then 0 else Offset(numDims, i - 1) + if numDims[i - 1] > 0 then numDims[i - 1] else 0
  }

  /** The shape that `n` dimensions at a pointer stand for. */
  function Pointed(memory: seq<int>, pointer: nat, n: int): Shape
    requires pointer + n <= |memory|
  {
    if n < 0 then Unknown else Known(memory[pointer..pointer + n])
  }

  lemma {:induction false} OffsetGrows(numDims: seq<int>, i: nat, j: nat)
    requires i <= j <= |numDims|
    ensures Offset(numDims, i) <= Offset(numDims, j)
    decreases j
  {
    if i < j {
      OffsetGrows(numDims, i, j - 1);
    }
  }

  lemma PointersFit(numDims: seq<int>, i: nat)
    requires i < |numDims|
    ensures Offset(numDims, i) + numDims[i] <= Offset(numDims, |numDims|)
  {
    OffsetGrows(numDims, i, |numDims|);
    OffsetGrows(numDims, i + 1, |numDims|);
  }

  /** The loop of TF_SetAttrShapeList_Helper: the pointer moves on by the rank of every shape that has one. */
  method MakePointers(numDims: seq<int>) returns (dims: seq<nat>)
    ensures |dims| == |numDims| && forall i :: 0 <= i < |numDims| ==> dims[i] == Offset(numDims, i)
  {
    dims := [];
    var pointer := 0;
    for i := 0 to |numDims|
      invariant |dims| == i && pointer == Offset(numDims, i)
      invariant forall k :: 0 <= k < i ==> dims[k] == Offset(numDims, k)
    {
      dims := dims + [pointer];
      if numDims[i] > 0 {
        pointer := pointer + numDims[i];
      }
    }
  }

  /** TF_SetAttrShapeList_Helper */
  method SetAttrShapeListHelper(flatDims: seq<int>, numDims: seq<int>) returns (ok: bool, stored: seq<Shape>)
    requires Offset(numDims, |numDims|) <= |flatDims|
    ensures forall i :: 0 <= i < |numDims| ==> Offset(numDims, i) + numDims[i] <= |flatDims|
    ensures ok <==> forall i :: 0 <= i < |numDims| ==> CanStore(Pointed(flatDims, Offset(numDims, i), numDims[i]))
    ensures ok ==> |stored| == |numDims|
    ensures ok ==> forall i :: 0 <= i < |numDims| ==>
                     stored[i] == Kept(Pointed(flatDims, Offset(numDims, i), numDims[i]))
  {
    hide Offset, Pointed, CanStore, Kept;
    var dims := MakePointers(numDims);
    forall i | 0 <= i < |numDims|
      ensures Offset(numDims, i) + numDims[i] <= |flatDims|
    {
      PointersFit(numDims, i);
    }
    ok, stored := SetAttrShapeList(flatDims, dims, numDims);
  }

  /** A PartialTensorShape of known rank; the process ends if it cannot be made. */
  method MakePartialShape(dims: seq<int>) returns (ok: bool, shape: Shape)
    ensures ok <==> CanStore(Known(dims))
    ensures ok ==> shape == Kept(Known(dims))
  {
    var made := new TensorShape();
    ok := made.InitDims(dims);
    shape := Known(made.dims);
  }

  /** TF_SetAttrShapeList: reads each shape through its pointer. */
  method SetAttrShapeList(memory: seq<int>, dims: seq<nat>, numDims: seq<int>) returns (ok: bool, shapes: seq<Shape>)
    requires |dims| == |numDims| && forall i :: 0 <= i < |dims| ==> dims[i] + numDims[i] <= |memory|
    ensures ok <==> forall i :: 0 <= i < |numDims| ==> CanStore(Pointed(memory, dims[i], numDims[i]))
    ensures ok ==> |shapes| == |numDims|
    ensures ok ==> forall i :: 0 <= i < |numDims| ==> shapes[i] == Kept(Pointed(memory, dims[i], numDims[i]))
  {
    hide Storable, Built;
    shapes := [];
    for i := 0 to |numDims|
      invariant |shapes| == i
      invariant forall k :: 0 <= k < i ==> CanStore(Pointed(memory, dims[k], numDims[k]))
      invariant forall k :: 0 <= k < i ==> shapes[k] == Kept(Pointed(memory, dims[k], numDims[k]))
    {
      var shape := Unknown;
      if numDims[i] >= 0 {
        ok, shape := MakePartialShape(memory[dims[i]..dims[i] + numDims[i]]);
        if !ok {
          return;
        }
      }
      shapes := shapes + [shape];
    }
    ok := true;
  }

  /** The pointer of each shape is where its dimensions lie in the flat list. */
  lemma {:induction false} OffsetsMatch(value: seq<Shape>, ndims: seq<int>, i: nat)
    requires |ndims| == |value| && forall k :: 0 <= k < |value| ==> ndims[k] == NumDims(value[k])
    requires i <= |value|
    ensures Offset(ndims, i) == |Flat(value[..i])|
    decreases i
  {
    if i > 0 {
      OffsetsMatch(value, ndims, i - 1);
      FlatStep(value, i - 1);
    }
  }

  /** Setting an attribute stores what partial shapes keep of the list that the caller gave. */
  method SetAttr(value: seq<Shape>) returns (ok: bool, stored: seq<Shape>)
    ensures ok <==> CanStoreAll(value)
    ensures ok ==> stored == AllKept(value)
  {
    hide Flat, Offset, Kept, CanStore;
    if |value| == 0 {
      ok, stored := SetAttrShapeList([], [], []);
    } else {
      var flatDims, ndims := Flatten(value);
      OffsetsMatch(value, ndims, |value|);
      assert value[..|value|] == value;
      ok, stored := SetAttrShapeListHelper(flatDims, ndims);
      forall i | 0 <= i < |value|
        ensures Pointed(flatDims, Offset(ndims, i), ndims[i]) == value[i]
      {
        OffsetsMatch(value, ndims, i);
        FlatHolds(value, i);
      }
    }
  }

  /******* From C to Go *******/

  /** The shape case of TF_OperationGetAttrMetadata. */
  method GetAttrMetadata(shapes: seq<Shape>) returns (listSize: nat, totalSize: nat)
    ensures listSize == |shapes| && totalSize == |Flat(shapes)|
  {
    listSize, totalSize := |shapes|, 0;
    for i := 0 to |shapes|
      invariant totalSize == |Flat(shapes[..i])|
    {
      FlatStep(shapes, i);
      totalSize := totalSize + if shapes[i].Unknown? then 0 else |shapes[i].dims|;
    }
    assert shapes[..|shapes|] == shapes;
  }

  function Min(a: nat, b: nat): nat { if a < b then a else b }

  lemma {:induction false} FlatGrows(shapes: seq<Shape>, i: nat)
    requires i <= |shapes|
    ensures |Flat(shapes[..i])| <= |Flat(shapes)|
    decreases |shapes|
  {
    if i < |shapes| {
      FlatGrows(shapes[..|shapes| - 1], i);
      assert shapes[..|shapes| - 1][..i] == shapes[..i];
    } else {
      assert shapes[..i] == shapes;
    }
  }

  /** The first `n` shapes are described by their ranks and by pointers into gapless storage. */
  ghost predicate Described(shapes: seq<Shape>, n: nat, dims: seq<int>, numDims: seq<int>) {
    n <= |shapes| && n <= |dims| && n <= |numDims| &&
    forall i :: 0 <= i < n ==> numDims[i] == NumDims(shapes[i]) && dims[i] == |Flat(shapes[..i])|
  }

  /**
   TF_OperationGetAttrShapeList: fills the storage from its start, without a gap, and never past
   its end. It succeeds exactly when the storage is large enough for the shapes asked for.
   */
  method GetAttrShapeList(shapes: seq<Shape>, dims: array<int>, numDims: array<int>, numShapes: nat,
                          storage: array<int>, storageSize: nat) returns (ok: bool)
    requires dims.Length >= numShapes && numDims.Length >= numShapes && storage.Length >= storageSize
    requires dims != numDims && dims != storage && numDims != storage
    modifies dims, numDims, storage
    ensures var asked := shapes[..Min(|shapes|, numShapes)];
            && (ok <==> |Flat(asked)| <= storageSize)
            && (ok ==> storage[..|Flat(asked)|] == Flat(asked))
            && (ok ==> Described(asked, |asked|, dims[..], numDims[..]))
    ensures storage[storageSize..] == old(storage[storageSize..])
  {
    hide Flat;
    var len := Min(|shapes|, numShapes);
    ghost var asked := shapes[..len];
    FlatOfNothing(asked);
    var p, storageLeft := 0, storageSize;
    for i := 0 to len
      invariant 0 <= storageLeft && p == |Flat(asked[..i])| && p + storageLeft == storageSize
      invariant storage[..p] == Flat(asked[..i])
      invariant Described(asked, i, dims[..], numDims[..])
      invariant storage[storageSize..] == old(storage[storageSize..])
    {
      FlatStep(asked, i);
      var n := NumDims(shapes[i]);
      numDims[i] := n;
      dims[i] := p;
      if n < 0 {
        continue;
      }
      if storageLeft < n {
        FlatGrows(asked, i + 1);
        return false;
      }
      storageLeft := storageLeft - n;
      p := CopyDims(shapes[i].dims, storage, p);
    }
    assert asked[..len] == asked;
    ok := true;
  }

  lemma FlatOfNothing(shapes: seq<Shape>)
    ensures Flat(shapes[..0]) == []
  {
  }

  /** The inner loop that copies the dimensions of one shape and moves the pointer. */
  method CopyDims(shape: seq<int>, storage: array<int>, start: nat) returns (p: nat)
    requires start + |shape| <= storage.Length
    modifies storage
    ensures p == start + |shape| && storage[..p] == old(storage[..start]) + shape
    ensures storage[p..] == old(storage[start + |shape|..])
  {
    p := start;
    for j := 0 to |shape|
      invariant p == start + j
      invariant storage[..p] == old(storage[..start]) + shape[..j]
      invariant storage[start + |shape|..] == old(storage[start + |shape|..])
    {
      storage[p] := shape[j];
      assert storage[..p] == old(storage[..start]) + shape[..j];
      p := p + 1;
      assert storage[..p] == storage[..p - 1] + [shape[j]];
    }
  }

  /** makeCShape */
  method MakeCShape(slice: seq<int>) returns (s: Shape)
    ensures s == Known(slice)
  {
    var dims := [];
    for i := 0 to |slice|
      invariant dims == slice[..i]
    {
      dims := dims + [slice[i]];
    }
    assert slice[..|slice|] == slice;
    s := Known(dims);
  }

  /** Reading accepts the shape. */
  ghost predicate CanRead(s: Shape) { s.Unknown? || ValidSizes(s.dims) }

  ghost predicate CanReadAll(shapes: seq<Shape>) {
    forall i :: 0 <= i < |shapes| ==> CanRead(shapes[i])
  }

  /** A shape that reading accepts is made without loss. */
  lemma ReadIsKept(s: Shape)
    requires CanRead(s)
    ensures CanStore(s) && Kept(s) == s
  {
    if s.Known? {
      ValidIsStorable(s.dims);
      KeptExactlyWhen(s.dims);
    }
  }

  /** GetNodeAttr: checks each shape of an attribute, then makes it; an invalid one is an error. */
  method GetNodeAttr(attr: seq<Shape>) returns (ok: bool, shapes: seq<Shape>)
    ensures ok <==> CanReadAll(attr)
    ensures ok ==> shapes == attr
  {
    hide Storable, Built, ValidSizes;
    shapes := [];
    for i := 0 to |attr|
      invariant shapes == attr[..i] && forall k :: 0 <= k < i ==> CanRead(attr[k])
    {
      var shape := Unknown;
      if attr[i].Known? {
        ok := IsValidShape(attr[i].dims);
        if !ok {
          return;
        }
        ReadIsKept(attr[i]);
        ok, shape := MakePartialShape(attr[i].dims);
      }
      shapes := shapes + [shape];
    }
    ok := true;
  }

  lemma {:induction false} KeptIsAsLong(attr: seq<Shape>)
    ensures |Flat(AllKept(attr))| == |Flat(attr)|
  {
    if attr != [] {
      var init, last := attr[..|attr| - 1], attr[|attr| - 1];
      KeptIsAsLong(init);
      assert AllKept(attr)[..|attr| - 1] == AllKept(init);
      if last.Known? {
        BuiltIsAsLong(last.dims);
      }
    }
  }

  /** Reading an attribute gives back what is stored, if it is valid; the announced storage is exactly filled. */
  method ListAttribute(attr: seq<Shape>) returns (ok: bool, list: seq<Shape>)
    ensures ok <==> CanReadAll(attr)
    ensures ok ==> list == attr
  {
    hide CanRead, Flat;
    var listSize, totalSize := GetAttrMetadata(attr);
    if listSize == 0 {
      return true, [];
    }
    var dims := new int[listSize];
    var numDims := new int[listSize];
    var storage := new int[totalSize + 1];
    var shapes;
    ok, shapes := GetNodeAttr(attr);
    if !ok {
      return false, [];
    }
    assert shapes[..Min(|shapes|, listSize)] == shapes;
    ok := GetAttrShapeList(shapes, dims, numDims, listSize, storage, totalSize);
    list := ReadShapes(shapes, dims[..], numDims[..], storage[..]);
  }

  /** No size below -1 comes when the shape is out of line. */
  ghost predicate Readable(s: Shape) {
    s.Known? ==> forall i :: 0 <= i < |s.dims| ==> !LeftAt(s.dims, i)
  }

  /** Every size is known or -1. */
  ghost predicate Proper(s: Shape) {
    s.Known? ==> forall i :: 0 <= i < |s.dims| ==> s.dims[i] >= -1
  }

  lemma KeptIsReadable(s: Shape)
    requires CanStore(s)
    ensures CanRead(Kept(s)) <==> Readable(s)
    ensures CanRead(Kept(s)) && Kept(s) == s <==> Proper(s)
  {
    if s.Known? {
      ReadableExactlyWhen(s.dims);
      ReadBackExactlyWhen(s.dims);
    }
  }

  /**
   Setting an attribute and reading it. Setting works exactly if all shapes can be stored; it is kept as
   it was exactly if no size below -1 is lost to a small form. Reading then works exactly if none is
   left out of line, and the list comes back as it was exactly if there was no size below -1.
   */
  method SetAndList(value: seq<Shape>) returns (wasSet: bool, stored: seq<Shape>, read: bool, list: seq<Shape>)
    ensures wasSet <==> CanStoreAll(value)
    ensures wasSet ==> stored == AllKept(value)
    ensures wasSet ==> (stored == value <==> forall i :: 0 <= i < |value| ==> Exact(value[i]))
    ensures read <==> wasSet && forall i :: 0 <= i < |value| ==> Readable(value[i])
    ensures read ==> list == AllKept(value)
    ensures wasSet ==> (read && list == value <==> forall i :: 0 <= i < |value| ==> Proper(value[i]))
  {
    hide Kept, CanStore, CanRead, Exact, Readable, Proper;
    read, list := false, [];
    wasSet, stored := SetAttr(value);
    if !wasSet {
      return;
    }
    forall i | 0 <= i < |value|
      ensures stored[i] == value[i] <==> Exact(value[i])
      ensures CanRead(stored[i]) <==> Readable(value[i])
      ensures CanRead(stored[i]) && stored[i] == value[i] <==> Proper(value[i])
    {
      KeptIsExact(value[i]);
      KeptIsReadable(value[i]);
    }
    read, list := ListAttribute(stored);
  }

  /** The loop that turns ranks and pointers into shapes; an unknown rank leaves the zero value. */
  method ReadShapes(ghost stored: seq<Shape>, dims: seq<int>, numDims: seq<int>, storage: seq<int>)
    returns (list: seq<Shape>)
    requires |dims| == |numDims| == |stored| && Described(stored, |stored|, dims, numDims)
    requires Flat(stored) <= storage
    ensures list == stored
  {
    hide Flat;
    list := [];
    for i := 0 to |dims|
      invariant list == stored[..i]
    {
      FlatHolds(stored, i);
      var shape := Unknown;
      if numDims[i] >= 0 {
        PrefixSlice(Flat(stored), storage, dims[i], dims[i] + numDims[i]);
        shape := MakeCShape(storage[dims[i]..dims[i] + numDims[i]]);
      }
      list := list + [shape];
    }
    assert stored[..|stored|] == stored;
  }

  lemma PrefixSlice(a: seq<int>, b: seq<int>, lo: int, hi: int)
    requires a <= b && 0 <= lo <= hi <= |a|
    ensures b[lo..hi] == a[lo..hi]
  {
  }
}
