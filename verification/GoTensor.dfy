/**
 Go values and tensor bytes (tensorflow/go/tensor.go).

 NewTensor writes nested slices and arrays to a flat buffer, one element after the other. Value()
 cuts the buffer up again, from the innermost dimension outwards.
 */
module GoTensor {

  type Byte = bv8

  /** A Go value: an element with its bytes, or a slice or array of values. */
  datatype Value = Leaf(bytes: seq<Byte>) | List(elems: seq<Value>)

  /** The static type of a value. Strings are elements made of the bytes of a TF_TString. */
  datatype GoType = Elem(size: nat, isString: bool) | SliceOf(elem: GoType) | ArrayOf(length: nat, elem: GoType)

  function Rank(ty: GoType): nat {
    if ty.Elem? then 0 else 1 + Rank(ty.elem)
  }

  function Scalar(ty: GoType): (r: GoType)
    ensures r.Elem?
  {
    if ty.Elem? then ty else Scalar(ty.elem)
  }

  ghost predicate HasType(v: Value, ty: GoType)
    decreases ty
  {
    match ty
    case Elem(size, _) => v.Leaf? && |v.bytes| == size
    case SliceOf(elem) => v.List? && forall i :: 0 <= i < |v.elems| ==> HasType(v.elems[i], elem)
    case ArrayOf(length, elem) =>
      v.List? && |v.elems| == length && forall i :: 0 <= i < |v.elems| ==> HasType(v.elems[i], elem)
  }

  /** Every list at depth `d` has length `shape[d]`. */
  ghost predicate Rectangular(v: Value, shape: seq<nat>)
    decreases |shape|
  {
    if shape == [] then v.Leaf?
    else v.List? && |v.elems| == shape[0] && forall i :: 0 <= i < |v.elems| ==> Rectangular(v.elems[i], shape[1..])
  }

  /******* Shapes *******/

  function Prod(shape: seq<nat>): nat {
    if shape == [] then 1 else Prod(shape[..|shape| - 1]) * shape[|shape| - 1]
  }

  method NumElements(shape: seq<nat>) returns (n: nat)
    ensures n == Prod(shape)
  {
    n := 1;
    for i := 0 to |shape|
      invariant n == Prod(shape[..i])
    {
      assert shape[..i + 1][..i] == shape[..i];
      n := n * shape[i];
    }
    assert shape[..|shape|] == shape;
  }

  /** The lengths along the elements with index zero; zero from the first empty list on. */
  function ShapeOf(v: Value, ty: GoType): (shape: seq<nat>)
    requires HasType(v, ty)
    ensures |shape| == Rank(ty)
    decreases ty
  {
    if ty.Elem? then []
    else [|v.elems|] + if v.elems == [] then seq(Rank(ty.elem), _ => 0) else ShapeOf(v.elems[0], ty.elem)
  }

  function Zeros(n: nat): seq<nat> { seq(n, _ => 0) }

  /** The lengths still to come when the walk is at `val` in the type `typ`. */
  ghost function RestOfShape(val: Value, typ: GoType): seq<nat>
    requires HasType(val, typ) || val == List([])
    ensures |RestOfShape(val, typ)| == Rank(typ)
  {
    if val == List([]) then Zeros(Rank(typ)) else ShapeOf(val, typ)
  }

  lemma RestOfShapeStep(val: Value, typ: GoType)
    requires !typ.Elem? && (HasType(val, typ) || val == List([]))
    ensures val.List?
    ensures var next := if val.elems == [] then val else val.elems[0];
            && (HasType(next, typ.elem) || next == List([]))
            && RestOfShape(val, typ) == [|val.elems|] + RestOfShape(next, typ.elem)
  {
    if val.elems == [] {
      assert Zeros(Rank(typ)) == [0] + Zeros(Rank(typ.elem));
    } else if val.elems[0] == List([]) {
      EmptyShape(typ.elem);
    }
  }

  lemma EmptyShape(ty: GoType)
    requires HasType(List([]), ty)
    ensures ShapeOf(List([]), ty) == Zeros(Rank(ty))
  {
  }

  lemma WholeShape(v: Value, ty: GoType)
    requires HasType(v, ty)
    ensures RestOfShape(v, ty) == ShapeOf(v, ty)
  {
    if v == List([]) {
      EmptyShape(ty);
    }
  }

  /** The loop of shapeAndDataTypeOf, which stays at an empty value while it walks down the type. */
  method ShapeAndScalarOf(v: Value, ty: GoType) returns (shape: seq<nat>, scalar: GoType)
    requires HasType(v, ty)
    ensures shape == ShapeOf(v, ty) && scalar == Scalar(ty)
  {
    hide HasType, ShapeOf, RestOfShape;
    shape := [];
    var typ, val := ty, v;
    WholeShape(v, ty);
    while !typ.Elem?
      invariant Scalar(typ) == Scalar(ty)
      invariant HasType(val, typ) || val == List([])
      invariant ShapeOf(v, ty) == shape + RestOfShape(val, typ)
      decreases typ
    {
      RestOfShapeStep(val, typ);
      shape := shape + [|val.elems|];
      if |val.elems| > 0 {
        val := val.elems[0];
      }
      typ := typ.elem;
    }
    scalar := typ;
  }

  /******* Encoding *******/

  /** The elements of a value, in row-major order. */
  function Cells(v: Value): seq<Value> {
    match v
    case Leaf(_) => [v]
    case List(elems) => AllCells(elems)
  }

  function AllCells(vs: seq<Value>): seq<Value> {
    if vs == [] then [] else AllCells(vs[..|vs| - 1]) + Cells(vs[|vs| - 1])
  }

  /** The bytes of a list of elements. */
  function Join(cells: seq<Value>): seq<Byte> {
    if cells == [] then []
    else Join(cells[..|cells| - 1]) + if cells[|cells| - 1].Leaf? then cells[|cells| - 1].bytes else []
  }

  lemma {:induction false} JoinAppends(a: seq<Value>, b: seq<Value>)
    ensures Join(a + b) == Join(a) + Join(b)
  {
    if b == [] {
      assert a + b == a;
    } else {
      assert (a + b)[..|a + b| - 1] == a + b[..|b| - 1];
      JoinAppends(a, b[..|b| - 1]);
    }
  }

  lemma JoinOfNothing()
    ensures Join([]) == []
  {
  }

  class Buffer {
    var data: seq<Byte>

    constructor ()
      ensures data == []
    {
      data := [];
    }

    /** copyPtr: appends bytes and tells how many. */
    method Write(bytes: seq<Byte>) returns (n: nat)
      modifies this
      ensures data == old(data) + bytes && n == |bytes|
    {
      data := data + bytes;
      n := |bytes|;
    }
  }

  /** Every slice that encoding meets has the length that the shape asks for; array lengths are not compared. */
  ghost predicate SlicesFit(v: Value, ty: GoType, shape: seq<nat>)
    requires HasType(v, ty) && |shape| == Rank(ty)
    decreases ty
  {
    match ty
    case Elem(_, _) => true
    case SliceOf(elem) =>
      |v.elems| == shape[0] && forall i :: 0 <= i < |v.elems| ==> SlicesFit(v.elems[i], elem, shape[1..])
    case ArrayOf(_, elem) => forall i :: 0 <= i < |v.elems| ==> SlicesFit(v.elems[i], elem, shape[1..])
  }

  /** Elements in a row need no further descent. */
  lemma {:induction false} CellsOfRow(elems: seq<Value>)
    requires forall i :: 0 <= i < |elems| ==> elems[i].Leaf?
    ensures AllCells(elems) == elems
  {
    if elems != [] {
      CellsOfRow(elems[..|elems| - 1]);
      assert elems == elems[..|elems| - 1] + [elems[|elems| - 1]];
    }
  }

  /** A type that encodeTensorWithSlices has no case for: an element that is not a string. */
  predicate Unsupported(ty: GoType) { ty.Elem? && !ty.isString }

  /** encodeTensorWithSlices: writes all elements in order, or stops at the first slice of a wrong length. */
  method EncodeTensorWithSlices(w: Buffer, v: Value, ty: GoType, shape: seq<nat>) returns (ok: bool, n: nat)
    requires HasType(v, ty) && |shape| == Rank(ty)
    modifies w
    ensures ok <==> SlicesFit(v, ty, shape) && !Unsupported(ty)
    ensures |w.data| == |old(w.data)| + n && w.data[..|old(w.data)|] == old(w.data)
    ensures ok ==> w.data == old(w.data) + Join(Cells(v))
    decreases ty, 0
  {
    if Unsupported(ty) {
      return false, 0;
    }
    if ty.Elem? {
      n := w.Write(v.bytes);
      assert Join([v]) == v.bytes;
      return true, n;
    }
    if ty.SliceOf? && |v.elems| != shape[0] {
      return false, 0;
    }
    if |shape| == 1 && |v.elems| > 0 && !ty.elem.isString {
      CellsOfRow(v.elems);
      n := w.Write(Join(v.elems));
      return true, n;
    }
    ok, n := EncodeElements(w, v.elems, ty.elem, shape[1..]);
  }

  /** The loop of encodeTensorWithSlices over the elements of a slice or array. */
  method EncodeElements(w: Buffer, elems: seq<Value>, ty: GoType, shape: seq<nat>) returns (ok: bool, n: nat)
    requires forall i :: 0 <= i < |elems| ==> HasType(elems[i], ty)
    requires |shape| == Rank(ty)
    modifies w
    ensures ok <==> forall i :: 0 <= i < |elems| ==> SlicesFit(elems[i], ty, shape) && !Unsupported(ty)
    ensures |w.data| == |old(w.data)| + n && w.data[..|old(w.data)|] == old(w.data)
    ensures ok ==> w.data == old(w.data) + Join(AllCells(elems))
    decreases ty, 1
  {
    hide SlicesFit, HasType, Cells, Join;
    n := 0;
    JoinOfNothing();
    for i := 0 to |elems|
      invariant forall k :: 0 <= k < i ==> SlicesFit(elems[k], ty, shape) && !Unsupported(ty)
      invariant |w.data| == |old(w.data)| + n
      invariant w.data == old(w.data) + Join(AllCells(elems[..i]))
    {
      assert elems[..i + 1][..i] == elems[..i];
      JoinAppends(AllCells(elems[..i]), Cells(elems[i]));
      ghost var before := w.data;
      var j;
      ok, j := EncodeTensorWithSlices(w, elems[i], ty, shape);
      n := n + j;
      if !ok {
        assert w.data[..|old(w.data)|] == before[..|old(w.data)|];
        return;
      }
    }
    assert elems[..|elems|] == elems;
    ok := true;
  }

  /******* What is encoded *******/

  /** Arrays of one type have one length, so a shape taken from one value fits the arrays of all. */
  lemma {:induction false} FittingIsRectangular(x: Value, y: Value, ty: GoType)
    requires HasType(x, ty) && HasType(y, ty)
    ensures SlicesFit(x, ty, ShapeOf(y, ty)) <==> Rectangular(x, ShapeOf(y, ty))
    decreases ty
  {
    if !ty.Elem? && x.elems != [] && |x.elems| == |y.elems| {
      assert ShapeOf(y, ty)[1..] == ShapeOf(y.elems[0], ty.elem);
      forall i | 0 <= i < |x.elems|
        ensures SlicesFit(x.elems[i], ty.elem, ShapeOf(y, ty)[1..]) <==> Rectangular(x.elems[i], ShapeOf(y, ty)[1..])
      {
        FittingIsRectangular(x.elems[i], y.elems[0], ty.elem);
      }
    }
  }

  predicate IsAllArray(ty: GoType) {
    match ty
    case Elem(_, isString) => !isString
    case SliceOf(_) => false
    case ArrayOf(_, elem) => IsAllArray(elem)
  }

  lemma {:induction false} ArraysFit(v: Value, ty: GoType, shape: seq<nat>)
    requires HasType(v, ty) && IsAllArray(ty) && |shape| == Rank(ty)
    ensures SlicesFit(v, ty, shape)
    decreases ty
  {
    if !ty.Elem? {
      forall i | 0 <= i < |v.elems|
        ensures SlicesFit(v.elems[i], ty.elem, shape[1..])
      {
        ArraysFit(v.elems[i], ty.elem, shape[1..]);
      }
    }
  }

  lemma {:induction false} ProdHead(shape: seq<nat>)
    requires shape != []
    ensures Prod(shape) == shape[0] * Prod(shape[1..])
  {
    if |shape| == 1 {
      assert shape[..0] == [] && shape[1..] == [];
    } else {
      var init, last := shape[..|shape| - 1], shape[|shape| - 1];
      ProdHead(init);
      assert init[1..] == shape[1..][..|shape| - 2];
      assert Prod(shape[1..]) == Prod(init[1..]) * last;
      MulAssoc(shape[0], Prod(init[1..]), last);
    }
  }

  lemma MulAssoc(a: nat, b: nat, c: nat)
    ensures a * b * c == a * (b * c)
  {
  }

  ghost predicate AllLeaves(cells: seq<Value>, size: nat) {
    forall i :: 0 <= i < |cells| ==> cells[i].Leaf? && |cells[i].bytes| == size
  }

  /** A rectangular value has as many elements as its shape says, all of the element size. */
  lemma {:induction false} CellsOfRectangular(v: Value, ty: GoType, shape: seq<nat>)
    requires HasType(v, ty) && |shape| == Rank(ty) && Rectangular(v, shape)
    ensures |Cells(v)| == Prod(shape) && AllLeaves(Cells(v), Scalar(ty).size)
    decreases ty, 0
  {
    if !ty.Elem? {
      ProdHead(shape);
      CellsOfElements(v.elems, ty.elem, shape[1..]);
    }
  }

  lemma {:induction false} CellsOfElements(elems: seq<Value>, ty: GoType, shape: seq<nat>)
    requires |shape| == Rank(ty)
    requires forall i :: 0 <= i < |elems| ==> HasType(elems[i], ty) && Rectangular(elems[i], shape)
    ensures |AllCells(elems)| == |elems| * Prod(shape) && AllLeaves(AllCells(elems), Scalar(ty).size)
    decreases ty, 1, |elems|
  {
    if elems != [] {
      CellsOfElements(elems[..|elems| - 1], ty, shape);
      CellsOfRectangular(elems[|elems| - 1], ty, shape);
      assert |elems| * Prod(shape) == (|elems| - 1) * Prod(shape) + Prod(shape);
    }
  }

  lemma {:induction false} JoinedSize(cells: seq<Value>, size: nat)
    requires AllLeaves(cells, size)
    ensures |Join(cells)| == |cells| * size
  {
    if cells != [] {
      JoinedSize(cells[..|cells| - 1], size);
      assert |cells| * size == (|cells| - 1) * size + size;
    }
  }

  /** NewTensor: succeeds exactly on rectangular values and never finds a wrong size. */
  method NewTensor(v: Value, ty: GoType) returns (ok: bool, shape: seq<nat>, data: seq<Byte>)
    requires HasType(v, ty)
    ensures shape == ShapeOf(v, ty)
    ensures ok <==> Rectangular(v, shape)
    ensures ok ==> data == Join(Cells(v)) && |data| == Prod(shape) * Scalar(ty).size
  {
    hide HasType, ShapeOf, SlicesFit, Rectangular, Join;
    var scalar;
    shape, scalar := ShapeAndScalarOf(v, ty);
    var n := NumElements(shape);
    FittingIsRectangular(v, v, ty);
    if IsAllArray(ty) {
      ArraysFit(v, ty, shape);
      ok, data := true, Join(Cells(v));
    } else {
      var w := new Buffer();
      var written;
      ok, written := EncodeTensorWithSlices(w, v, ty, shape);
      data := w.data;
    }
    if ok {
      CellsOfRectangular(v, ty, shape);
      JoinedSize(Cells(v), scalar.size);
      if |data| != n * scalar.size {
        ok := false;
      }
    }
  }

  /******* Row-major order *******/

  /** An index for every dimension, each within its bound. */
  ghost predicate InBounds(index: seq<nat>, shape: seq<nat>) {
    |index| == |shape| && forall d :: 0 <= d < |shape| ==> index[d] < shape[d]
  }

  function At(v: Value, index: seq<nat>): Value
    decreases |index|
  {
    if index == [] || v.Leaf? || index[0] >= |v.elems| then v else At(v.elems[index[0]], index[1..])
  }

  /** The position of an element when the last index varies fastest. */
  function RowMajor(index: seq<nat>, shape: seq<nat>): nat
    requires |index| == |shape|
  {
    if index == [] then 0 else index[0] * Prod(shape[1..]) + RowMajor(index[1..], shape[1..])
  }

  /** The elements of one list follow each other, each list taking the same room. */
  lemma {:induction false} CellsInElement(elems: seq<Value>, p: nat, i: nat)
    requires i < |elems| && forall k :: 0 <= k < |elems| ==> |Cells(elems[k])| == p
    ensures var lo := i * p;
            lo + p <= |AllCells(elems)| && AllCells(elems)[lo..lo + p] == Cells(elems[i])
    decreases |elems|
  {
    hide Cells;
    var init, n, lo := elems[..|elems| - 1], |elems| - 1, i * p;
    var head, last := AllCells(init), Cells(elems[n]);
    assert AllCells(elems) == head + last;
    if i < n {
      CellsInElement(init, p, i);
      SliceOfPrefix(head, last, lo, p);
    } else {
      CellCount(init, p);
      assert (head + last)[|head|..|head| + p] == last;
    }
  }

  lemma {:induction false} CellCount(elems: seq<Value>, p: nat)
    requires forall k :: 0 <= k < |elems| ==> |Cells(elems[k])| == p
    ensures |AllCells(elems)| == |elems| * p
  {
    if elems != [] {
      CellCount(elems[..|elems| - 1], p);
      assert |elems| * p == (|elems| - 1) * p + p;
    }
  }

  lemma {:induction false} CellCountOf(v: Value, shape: seq<nat>)
    requires Rectangular(v, shape)
    ensures |Cells(v)| == Prod(shape)
    decreases |shape|
  {
    if shape != [] {
      forall k | 0 <= k < |v.elems|
        ensures |Cells(v.elems[k])| == Prod(shape[1..])
      {
        CellCountOf(v.elems[k], shape[1..]);
      }
      CellCount(v.elems, Prod(shape[1..]));
      ProdHead(shape);
    }
  }

  /** The element at an index is written at its row-major position. */
  lemma {:induction false} EncodedRowMajor(v: Value, shape: seq<nat>, index: seq<nat>)
    requires Rectangular(v, shape) && InBounds(index, shape)
    ensures RowMajor(index, shape) < |Cells(v)| && Cells(v)[RowMajor(index, shape)] == At(v, index)
    decreases |shape|
  {
    hide Prod, AllCells;
    if shape != [] {
      var i, p := index[0], Prod(shape[1..]);
      forall k | 0 <= k < |v.elems|
        ensures |Cells(v.elems[k])| == p
      {
        CellCountOf(v.elems[k], shape[1..]);
      }
      CellsInElement(v.elems, p, i);
      EncodedRowMajor(v.elems[i], shape[1..], index[1..]);
      SliceAt(AllCells(v.elems), i * p, p, RowMajor(index[1..], shape[1..]));
    }
  }

  lemma SliceAt<T>(s: seq<T>, lo: nat, n: nat, r: nat)
    requires lo + n <= |s| && r < n
    ensures lo + r < |s| && s[lo..lo + n][r] == s[lo + r]
  {
  }

  /******* Decoding *******/

  /** The `i`-th run of `p` elements. */
  function Cut<T>(s: seq<T>, i: nat, p: nat): seq<T> {
    if i * p + p <= |s| then s[i * p..i * p + p] else []
  }

  /** The elements of the base slice, made from the raw bytes. */
  function Split(raw: seq<Byte>, size: nat, n: nat): seq<Value> {
    seq(n, i requires 0 <= i => Leaf(Cut(raw, i, size)))
  }

  /** The value of a shape that has these elements, from the outside in. */
  function Nest(cells: seq<Value>, shape: seq<nat>): Value
    decreases |shape|
  {
    if shape == [] then (if cells == [] then Leaf([]) else cells[0])
    else List(seq(shape[0], i requires 0 <= i => Nest(Cut(cells, i, Prod(shape[1..])), shape[1..])))
  }

  /** All values at depth `d`, one after the other. */
  function Level(cells: seq<Value>, shape: seq<nat>, d: nat): seq<Value>
    requires d <= |shape|
  {
    seq(Prod(shape[..d]), k requires 0 <= k => Nest(Cut(cells, k, Prod(shape[d..])), shape[d..]))
  }

  /** `n` slices of `sub` consecutive values each. */
  function Grouped(slice: seq<Value>, n: nat, sub: nat): seq<Value> {
    seq(n, j requires 0 <= j => List(Cut(slice, j, sub)))
  }

  /** The loop that fills the next slice with slice headers into the current one. */
  method Group(slice: seq<Value>, n: nat, sub: nat) returns (next: seq<Value>)
    requires n * sub <= |slice|
    ensures next == Grouped(slice, n, sub)
  {
    next := [];
    for j := 0 to n
      invariant next == Grouped(slice, j, sub)
    {
      CutFits(j, n, sub);
      next := next + [List(slice[j * sub..j * sub + sub])];
    }
  }

  lemma MulMonotone(a: nat, b: nat, c: nat)
    requires a <= b
    ensures a * c <= b * c
  {
  }

  lemma CutFits(j: nat, n: nat, p: nat)
    requires j < n
    ensures j * p + p <= n * p
  {
    MulMonotone(j + 1, n, p);
    assert (j + 1) * p == j * p + p;
  }

  lemma CutOfCut<T>(s: seq<T>, q: nat, sub: nat, p: nat, k: nat, j: nat)
    requires |s| == q * (sub * p) && k < q && j < sub
    ensures Cut(Cut(s, k, sub * p), j, p) == Cut(s, k * sub + j, p)
  {
    CutFits(k, q, sub * p);
    CutFits(j, sub, p);
    Distribute(k, sub, p, j);
    SliceOfSlice(s, k * (sub * p), sub * p, j * p, p);
  }

  lemma SliceOfSlice<T>(s: seq<T>, lo: nat, n: nat, at: nat, p: nat)
    requires lo + n <= |s| && at + p <= n
    ensures s[lo..lo + n][at..at + p] == s[lo + at..lo + at + p]
  {
    var inner, outer := s[lo..lo + n][at..at + p], s[lo + at..lo + at + p];
    assert |inner| == |outer| == p;
    assert forall i :: 0 <= i < p ==> inner[i] == outer[i];
  }

  lemma Distribute(k: nat, sub: nat, p: nat, j: nat)
    ensures (k * sub + j) * p == k * (sub * p) + j * p
  {
    MulAssoc(k, sub, p);
  }

  lemma {:induction false} ProdSplit(shape: seq<nat>, d: nat)
    requires d <= |shape|
    ensures Prod(shape) == Prod(shape[..d]) * Prod(shape[d..])
    decreases |shape| - d
  {
    if d == |shape| {
      assert shape[..d] == shape && shape[d..] == [];
    } else {
      ProdSplit(shape, d + 1);
      assert shape[..d + 1][..d] == shape[..d];
      ProdHead(shape[d..]);
      assert shape[d..][1..] == shape[d + 1..];
      MulAssoc(Prod(shape[..d]), shape[d], Prod(shape[d + 1..]));
    }
  }

  lemma LevelAtEnd(cells: seq<Value>, shape: seq<nat>)
    requires |cells| == Prod(shape)
    ensures Level(cells, shape, |shape|) == cells
  {
    assert shape[..|shape|] == shape && shape[|shape|..] == [];
    forall k | 0 <= k < |cells|
      ensures Level(cells, shape, |shape|)[k] == cells[k]
    {
      assert Cut(cells, k, 1) == [cells[k]];
    }
  }

  /** Grouping the values of one depth gives the values of the next one out. */
  lemma LevelStep(cells: seq<Value>, shape: seq<nat>, d: nat)
    requires 0 < d <= |shape| && |cells| == Prod(shape)
    ensures var (q, sub) := (Prod(shape[..d - 1]), shape[d - 1]);
            && |Level(cells, shape, d)| == q * sub
            && Level(cells, shape, d - 1) == Grouped(Level(cells, shape, d), q, sub)
  {
    hide Prod;
    var q, sub, p := Prod(shape[..d - 1]), shape[d - 1], Prod(shape[d..]);
    StepSizes(shape, d);
    var level, next := Level(cells, shape, d), Level(cells, shape, d - 1);
    forall k | 0 <= k < q
      ensures next[k] == List(Cut(level, k, sub))
    {
      assert shape[d - 1..][1..] == shape[d..];
      CutFits(k, q, sub);
      forall j | 0 <= j < sub
        ensures next[k].elems[j] == Cut(level, k, sub)[j]
      {
        CutOfCut(cells, q, sub, p, k, j);
        SliceAt(level, k * sub, sub, j);
      }
      assert next[k].elems == Cut(level, k, sub);
    }
  }

  lemma StepSizes(shape: seq<nat>, d: nat)
    requires 0 < d <= |shape|
    ensures Prod(shape[..d]) == Prod(shape[..d - 1]) * shape[d - 1]
    ensures Prod(shape[d - 1..]) == shape[d - 1] * Prod(shape[d..])
    ensures Prod(shape) == Prod(shape[..d - 1]) * (shape[d - 1] * Prod(shape[d..]))
  {
    assert shape[..d][..d - 1] == shape[..d - 1];
    ProdHead(shape[d - 1..]);
    assert shape[d - 1..][1..] == shape[d..];
    ProdSplit(shape, d - 1);
  }

  /** All dimensions but the last are positive. */
  predicate PositiveButLast(shape: seq<nat>) {
    forall d :: 0 <= d < |shape| - 1 ==> shape[d] > 0
  }

  /** The shapes that decodeTensor rebuilds. */
  predicate Decodable(shape: seq<nat>) {
    |shape| <= 1 || shape[0] == 0 || PositiveButLast(shape)
  }

  /** What decodeTensor makes of raw bytes. */
  function Decoded(raw: seq<Byte>, shape: seq<nat>, size: nat): Value {
    if Decodable(shape) then Nest(Split(raw, size, Prod(shape)), shape) else List([])
  }

  lemma {:induction false} ProdZero(shape: seq<nat>)
    ensures Prod(shape) == 0 <==> exists d :: 0 <= d < |shape| && shape[d] == 0
  {
    if shape != [] {
      ProdZero(shape[..|shape| - 1]);
      if Prod(shape[..|shape| - 1]) > 0 && shape[|shape| - 1] > 0 {
        MulMonotone(1, Prod(shape[..|shape| - 1]), shape[|shape| - 1]);
      }
    }
  }

  lemma DivExact(q: nat, sub: nat)
    requires sub > 0
    ensures (q * sub) / sub == q
  {
    var d, r := (q * sub) / sub, (q * sub) % sub;
    assert sub * q == sub * d + r;
    assert q > d ==> sub * q >= sub * (d + 1);
    assert q < d ==> sub * d >= sub * (q + 1);
  }

  /** The number of values at depth `d - 1`, computed from the number at depth `d`. */
  lemma NextCount(shape: seq<nat>, d: nat, n: nat)
    requires 0 < d <= |shape|
    requires n == if shape[d - 1] == 0 then Prod(shape[..d - 1]) else Prod(shape[..d])
    ensures (if shape[d - 1] != 0 then n / shape[d - 1] else n) == Prod(shape[..d - 1])
  {
    assert shape[..d][..d - 1] == shape[..d - 1];
    if shape[d - 1] != 0 {
      DivExact(Prod(shape[..d - 1]), shape[d - 1]);
    }
  }

  /** decodeTensor, from the base slice on: groups the elements dimension by dimension. */
  method DecodeTensor(raw: seq<Byte>, shape: seq<nat>, size: nat) returns (v: Value)
    requires |raw| == Prod(shape) * size
    ensures v == Decoded(raw, shape, size)
  {
    hide Prod, Nest;
    var n := NumElements(shape);
    var slice := Split(raw, size, n);
    NestSmall(slice, shape);
    if |shape| == 0 {
      return slice[0];
    }
    if |shape| == 1 {
      return List(slice);
    }
    if n == 0 {
      n := NumElements(shape[..|shape| - 1]);
    }
    v := GroupDimensions(slice, shape, n);
    if shape[0] == 0 {
      NestOfEmpty(slice, shape);
    }
  }

  lemma NestSmall(cells: seq<Value>, shape: seq<nat>)
    requires |cells| == Prod(shape)
    ensures shape == [] ==> |cells| == 1 && Nest(cells, shape) == cells[0]
    ensures |shape| == 1 ==> Nest(cells, shape) == List(cells)
  {
    if |shape| == 1 {
      assert shape[1..] == [] && shape[..0] == [];
      forall k | 0 <= k < |cells|
        ensures Nest(cells, shape).elems[k] == cells[k]
      {
        assert Cut(cells, k, 1) == [cells[k]];
      }
      assert Nest(cells, shape).elems == cells;
    }
  }

  lemma NestOfEmpty(cells: seq<Value>, shape: seq<nat>)
    requires shape != [] && shape[0] == 0
    ensures Nest(cells, shape) == List([])
  {
  }

  lemma SomeOuterZero(shape: seq<nat>)
    requires !PositiveButLast(shape)
    ensures Prod(shape) == 0 && Prod(shape[..|shape| - 1]) == 0
  {
    var d :| 0 <= d < |shape| - 1 && shape[d] == 0;
    assert shape[..|shape| - 1][d] == 0;
    ProdZero(shape);
    ProdZero(shape[..|shape| - 1]);
  }

  lemma StartCount(shape: seq<nat>)
    requires shape != [] && PositiveButLast(shape)
    ensures Prod(shape) == 0 <==> shape[|shape| - 1] == 0
  {
    ProdZero(shape);
  }

  lemma OuterLevel(cells: seq<Value>, shape: seq<nat>)
    requires shape != []
    ensures List(Level(cells, shape, 1)) == Nest(cells, shape)
  {
    assert shape[..1][..0] == [];
    assert Prod(shape[..1]) == shape[0];
    var level := Level(cells, shape, 1);
    assert forall k :: 0 <= k < shape[0] ==> level[k] == Nest(cells, shape).elems[k];
    assert level == Nest(cells, shape).elems;
  }

  /** The loop over the dimensions; an empty outer dimension leaves nothing to group. */
  method GroupDimensions(cells: seq<Value>, shape: seq<nat>, count: nat) returns (v: Value)
    requires |shape| > 1 && |cells| == Prod(shape)
    requires count == if Prod(shape) == 0 then Prod(shape[..|shape| - 1]) else Prod(shape)
    ensures v == if PositiveButLast(shape) then Nest(cells, shape) else List([])
  {
    hide Prod, Nest, Level, Grouped;
    var slice, n := cells, count;
    ghost var good := PositiveButLast(shape);
    LevelAtEnd(cells, shape);
    if good {
      StartCount(shape);
    } else {
      SomeOuterZero(shape);
    }
    assert shape[..|shape|] == shape;
    for i := |shape| - 1 downto 0
      invariant good ==> slice == Level(cells, shape, i + 1)
      invariant good ==> n == if shape[i] == 0 then Prod(shape[..i]) else Prod(shape[..i + 1])
      invariant !good ==> n == 0 && slice == []
    {
      var sub := shape[i + 1];
      if good {
        NextCount(shape, i + 2, n);
        LevelStep(cells, shape, i + 2);
      }
      if sub != 0 {
        n := n / sub;
      }
      slice := Group(slice, n, sub);
      NothingGrouped(slice, sub);
    }
    OuterLevel(cells, shape);
    v := List(slice);
  }

  lemma NothingGrouped(slice: seq<Value>, sub: nat)
    ensures forall s :: Grouped(s, 0, sub) == []
  {
  }

  /******* The round trip *******/

  /** Nesting the elements of a rectangular value gives the value back. */
  lemma {:induction false} NestOfCells(v: Value, shape: seq<nat>)
    requires Rectangular(v, shape)
    ensures Nest(Cells(v), shape) == v
    decreases |shape|
  {
    if shape != [] {
      var p := Prod(shape[1..]);
      forall k | 0 <= k < |v.elems|
        ensures |Cells(v.elems[k])| == p
      {
        CellCountOf(v.elems[k], shape[1..]);
      }
      forall k | 0 <= k < |v.elems|
        ensures Nest(Cut(Cells(v), k, p), shape[1..]) == v.elems[k]
      {
        CellsInElement(v.elems, p, k);
        NestOfCells(v.elems[k], shape[1..]);
      }
      assert Nest(Cells(v), shape).elems == v.elems;
    }
  }

  /** Cutting the joined bytes at the element size gives the elements back. */
  lemma SplitOfJoin(cells: seq<Value>, size: nat)
    requires AllLeaves(cells, size)
    ensures Split(Join(cells), size, |cells|) == cells
  {
    forall i | 0 <= i < |cells|
      ensures Leaf(Cut(Join(cells), i, size)) == cells[i]
    {
      CellBytes(cells, size, i);
    }
  }

  lemma {:induction false} CellBytes(cells: seq<Value>, size: nat, i: nat)
    requires AllLeaves(cells, size) && i < |cells|
    ensures var lo := i * size;
            lo + size <= |Join(cells)| && Join(cells)[lo..lo + size] == cells[i].bytes
    decreases |cells|
  {
    var init, lo := cells[..|cells| - 1], i * size;
    var head, last := Join(init), cells[|cells| - 1].bytes;
    assert Join(cells) == head + last;
    if i < |init| {
      CellBytes(init, size, i);
      SliceOfPrefix(head, last, lo, size);
    } else {
      JoinedSize(init, size);
      assert (head + last)[|head|..|head| + size] == last;
    }
  }

  lemma SliceOfPrefix<T>(s: seq<T>, rest: seq<T>, lo: nat, n: nat)
    requires lo + n <= |s|
    ensures (s + rest)[lo..lo + n] == s[lo..lo + n]
  {
  }

  /** Decoding gives back what was encoded exactly for the shapes that decodeTensor rebuilds. */
  lemma RoundTrip(v: Value, ty: GoType)
    requires HasType(v, ty) && Rectangular(v, ShapeOf(v, ty))
    ensures Decoded(Join(Cells(v)), ShapeOf(v, ty), Scalar(ty).size) == v <==> Decodable(ShapeOf(v, ty))
  {
    hide HasType, ShapeOf, Rectangular, Prod, Nest, Split;
    var shape := ShapeOf(v, ty);
    CellsOfRectangular(v, ty, shape);
    SplitOfJoin(Cells(v), Scalar(ty).size);
    NestOfCells(v, shape);
    if !Decodable(shape) {
      OuterLength(v, shape);
    }
  }

  lemma OuterLength(v: Value, shape: seq<nat>)
    requires Rectangular(v, shape) && shape != []
    ensures v.List? && |v.elems| == shape[0]
  {
  }

  /** A slice of two slices of slices that hold nothing comes back as an empty slice. */
  lemma EmptyMiddleIsLost(size: nat)
    ensures var (v, ty) := (List([List([]), List([])]), SliceOf(SliceOf(SliceOf(Elem(size, false)))));
            && HasType(v, ty) && ShapeOf(v, ty) == [2, 0, 0] && Rectangular(v, ShapeOf(v, ty))
            && Decoded(Join(Cells(v)), ShapeOf(v, ty), Scalar(ty).size) == List([]) != v
  {
    var v, ty := List([List([]), List([])]), SliceOf(SliceOf(SliceOf(Elem(size, false))));
    var shape: seq<nat> := [2, 0, 0];
    assert shape[1..] == [0, 0];
    assert HasType(List([]), ty.elem) && HasType(v, ty);
    assert ShapeOf(v, ty) == [2] + ShapeOf(List([]), ty.elem);
    EmptyShape(ty.elem);
    assert Rank(ty.elem.elem) == 1 && Rank(ty.elem) == 2 && Zeros(2) == [0, 0];
    assert Rectangular(List([]), shape[1..]) && Rectangular(v, shape);
    assert !Decodable(shape);
  }
}
