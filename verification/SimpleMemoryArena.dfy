/**
 The offset-based arena of TensorFlow Lite (tensorflow/lite/simple_memory_arena.cc).

 An allocation carries a byte range and the interval of plan nodes during which it is in use.
 Two allocations may share bytes exactly when their intervals do not meet.
 */
module SimpleMemoryArena {

  type Byte = bv8

  /** ArenaAllocWithUsageInterval: a byte range used by nodes `first..last` (both inclusive). */
  datatype Alloc = Alloc(offset: nat, size: nat, tensor: int, first: int, last: int) {
    function End(): nat { offset + size }

    predicate Meets(lo: int, hi: int) { !(last < lo || first > hi) }
  }

  /** The state that ArenaAllocWithUsageInterval::reset() establishes. */
  const UNUSED := Alloc(0, 0, -1, -1, -1)

  predicate Apart(a: Alloc, b: Alloc) { a.End() <= b.offset || b.End() <= a.offset }

  ghost predicate Ordered(s: seq<Alloc>) {
    forall i, j :: 0 <= i < j < |s| ==> s[i].offset <= s[j].offset
  }

  /** Allocations whose usage intervals meet never share a byte. */
  ghost predicate NoClash(s: seq<Alloc>) {
    forall i, j :: 0 <= i < j < |s| && s[i].Meets(s[j].first, s[j].last) ==> Apart(s[i], s[j])
  }

  ghost predicate OnePerTensor(s: seq<Alloc>) {
    forall i, j :: 0 <= i < j < |s| ==> s[i].tensor != s[j].tensor
  }

  /** The range `[offset, offset + size)` is unused by every allocation that meets `lo..hi`. */
  ghost predicate FreeAt(s: seq<Alloc>, offset: nat, size: nat, lo: int, hi: int) {
    forall a :: a in s && a.Meets(lo, hi) ==> offset + size <= a.offset || a.End() <= offset
  }

  function Max(a: nat, b: nat): nat { if a < b then b else a }

  function Min(a: nat, b: nat): nat { if a < b then a else b }

  /** The bytes of `before` below `n` are still there in `after`. */
  ghost predicate SameUpTo(before: seq<Byte>, after: seq<Byte>, n: nat) {
    Min(|before|, n) <= |after| && forall k :: 0 <= k < |before| && k < n ==> after[k] == before[k]
  }

  function AlignTo(alignment: nat, offset: nat): (r: nat)
    requires alignment > 0
    ensures offset <= r < offset + alignment
    ensures r % alignment == 0
  {
    if offset % alignment == 0 then offset
    else
      var r := offset + (alignment - offset % alignment);
      assert r == alignment * (offset / alignment + 1);
      DivisionIsUnique(r, alignment, offset / alignment + 1, 0);
      r
  }

  lemma DivisionIsUnique(x: nat, m: nat, q: nat, r: nat)
    requires m > 0 && r < m && x == m * q + r
    ensures x % m == r
  {
    var q', r' := x / m, x % m;
    assert m * q + r == m * q' + r';
    assert q > q' ==> m * q >= m * (q' + 1);
    assert q < q' ==> m * q' >= m * (q + 1);
  }

  /******* The gap search of Allocate *******/

  datatype Best = NotAssigned | At(offset: nat, fit: nat)

  /** The best gap after looking at the one below `a`, above `current`. */
  function Better(a: Alloc, alignment: nat, size: nat, lo: int, hi: int, current: nat, best: Best): Best
    requires alignment > 0
  {
    var aligned := AlignTo(alignment, current);
    if a.Meets(lo, hi) && aligned + size <= a.offset && (best.NotAssigned? || a.offset - aligned < best.fit)
    then At(aligned, a.offset - current) else best
  }

  /** The gap search over the allocations `s` still to visit; yields the best gap and the top. */
  function Scan(s: seq<Alloc>, alignment: nat, size: nat, lo: int, hi: int, current: nat, best: Best)
    : (Best, nat)
    requires alignment > 0
  {
    if s == [] then (best, current)
    else
      Scan(s[1..], alignment, size, lo, hi, if s[0].Meets(lo, hi) then Max(current, s[0].End()) else current,
           Better(s[0], alignment, size, lo, hi, current, best))
  }

  /** The offset Allocate gives to a block of `size > 0` bytes used by nodes `lo..hi`. */
  function Placement(s: seq<Alloc>, alignment: nat, size: nat, lo: int, hi: int): nat
    requires alignment > 0
  {
    var (best, top) := Scan(s, alignment, size, lo, hi, 0, NotAssigned);
    if best.At? then best.offset else AlignTo(alignment, top)
  }

  /** What holds of a search that has visited `done` and still has to visit `s`. */
  ghost predicate SearchInv(done: seq<Alloc>, s: seq<Alloc>, alignment: nat, size: nat, lo: int, hi: int,
                            bound: nat, current: nat, best: Best)
    requires alignment > 0
  {
    && current <= bound
    && (forall a :: a in done && a.Meets(lo, hi) ==> a.End() <= current)
    && (best.At? ==> FreeAt(done + s, best.offset, size, lo, hi))
    && (best.At? ==> best.offset % alignment == 0 && best.offset + size <= bound)
  }

  lemma {:induction false} ScanKeepsInv(done: seq<Alloc>, s: seq<Alloc>, alignment: nat, size: nat,
                                        lo: int, hi: int, bound: nat, current: nat, best: Best)
    requires alignment > 0
    requires Ordered(done + s)
    requires forall a :: a in s ==> a.End() <= bound
    requires SearchInv(done, s, alignment, size, lo, hi, bound, current, best)
    ensures var (best', top) := Scan(s, alignment, size, lo, hi, current, best);
            SearchInv(done + s, [], alignment, size, lo, hi, bound, top, best')
    decreases |s|
  {
    if s == [] {
      assert done + s == done;
      assert done + [] == done;
    } else {
      var done' := done + [s[0]];
      assert done' + s[1..] == done + s;
      assert s[0] in s;
      var aligned := AlignTo(alignment, current);
      if s[0].Meets(lo, hi) && aligned + size <= s[0].offset {
        forall a | a in done + s && a.Meets(lo, hi)
          ensures aligned + size <= a.offset || a.End() <= aligned
        {
          var k :| 0 <= k < |done + s| && (done + s)[k] == a;
          if k > |done| {
            assert (done + s)[|done|] == s[0];
          }
        }
      }
      var best' := Better(s[0], alignment, size, lo, hi, current, best);
      var current' := if s[0].Meets(lo, hi) then Max(current, s[0].End()) else current;
      ScanKeepsInv(done', s[1..], alignment, size, lo, hi, bound, current', best');
    }
  }

  /** Allocate never hands out a byte that an allocation with a meeting interval uses. */
  lemma PlacementIsFree(s: seq<Alloc>, alignment: nat, size: nat, lo: int, hi: int, bound: nat)
    requires alignment > 0
    requires Ordered(s)
    requires forall a :: a in s ==> a.End() <= bound
    ensures var p := Placement(s, alignment, size, lo, hi);
            && FreeAt(s, p, size, lo, hi)
            && p % alignment == 0
            && p + size <= bound + (alignment - 1) + size
  {
    assert [] + s == s;
    ScanKeepsInv([], s, alignment, size, lo, hi, bound, 0, NotAssigned);
    assert s + [] == s;
  }

  /** The top of the allocations in `s` that meet `lo..hi`. */
  function Top(s: seq<Alloc>, lo: int, hi: int): nat {
    if s == [] then 0
    else
      var a := s[|s| - 1];
      if a.Meets(lo, hi) then Max(Top(s[..|s| - 1], lo, hi), a.End()) else Top(s[..|s| - 1], lo, hi)
  }

  /** Below `s[k]` there is room, above everything that lies before it, for `size` aligned bytes. */
  ghost predicate GapBelow(s: seq<Alloc>, k: nat, alignment: nat, size: nat, lo: int, hi: int)
    requires alignment > 0 && k < |s|
  {
    s[k].Meets(lo, hi) && AlignTo(alignment, Top(s[..k], lo, hi)) + size <= s[k].offset
  }

  /** A gap is known exactly if there is one, and it ends below some allocation. */
  ghost predicate KnowsGap(s: seq<Alloc>, alignment: nat, size: nat, lo: int, hi: int, best: Best)
    requires alignment > 0
  {
    && (best.At? <==> exists k :: 0 <= k < |s| && GapBelow(s, k, alignment, size, lo, hi))
    && (best.At? ==> EndsBelow(s, best.offset + size))
  }

  ghost predicate EndsBelow(s: seq<Alloc>, end: nat) {
    exists k :: 0 <= k < |s| && end <= s[k].offset
  }

  lemma GapBelowExtended(s: seq<Alloc>, a: Alloc, k: nat, alignment: nat, size: nat, lo: int, hi: int)
    requires alignment > 0 && k < |s|
    ensures GapBelow(s + [a], k, alignment, size, lo, hi) == GapBelow(s, k, alignment, size, lo, hi)
  {
    assert (s + [a])[..k] == s[..k];
  }

  lemma EndsBelowExtended(s: seq<Alloc>, a: Alloc, end: nat)
    requires EndsBelow(s, end) || end <= a.offset
    ensures EndsBelow(s + [a], end)
  {
    if EndsBelow(s, end) {
      var k :| 0 <= k < |s| && end <= s[k].offset;
      assert (s + [a])[k] == s[k];
    } else {
      assert (s + [a])[|s|] == a;
    }
  }

  lemma BetterKnowsGap(s: seq<Alloc>, a: Alloc, alignment: nat, size: nat, lo: int, hi: int, best: Best)
    requires alignment > 0 && KnowsGap(s, alignment, size, lo, hi, best)
    ensures KnowsGap(s + [a], alignment, size, lo, hi, Better(a, alignment, size, lo, hi, Top(s, lo, hi), best))
  {
    hide AlignTo, Top;
    var n, best' := s + [a], Better(a, alignment, size, lo, hi, Top(s, lo, hi), best);
    assert n[..|s|] == s && n[|s|] == a;
    if GapBelow(n, |s|, alignment, size, lo, hi) {
      assert best'.At?;
    }
    if best.At? {
      var k :| 0 <= k < |s| && GapBelow(s, k, alignment, size, lo, hi);
      GapBelowExtended(s, a, k, alignment, size, lo, hi);
    }
    if k :| 0 <= k < |s| && GapBelow(n, k, alignment, size, lo, hi) {
      GapBelowExtended(s, a, k, alignment, size, lo, hi);
    }
    if best'.At? {
      EndsBelowExtended(s, a, best'.offset + size);
    }
  }

  lemma {:induction false} ScanFindsGap(done: seq<Alloc>, s: seq<Alloc>, alignment: nat, size: nat,
                                        lo: int, hi: int, best: Best)
    requires alignment > 0 && KnowsGap(done, alignment, size, lo, hi, best)
    ensures var (best', top) := Scan(s, alignment, size, lo, hi, Top(done, lo, hi), best);
            top == Top(done + s, lo, hi) && KnowsGap(done + s, alignment, size, lo, hi, best')
    decreases |s|
  {
    hide KnowsGap, AlignTo, Better;
    if s == [] {
      assert done + s == done;
    } else {
      var done' := done + [s[0]];
      assert done' + s[1..] == done + s;
      assert done'[..|done|] == done;
      BetterKnowsGap(done, s[0], alignment, size, lo, hi, best);
      ScanFindsGap(done', s[1..], alignment, size, lo, hi,
                   Better(s[0], alignment, size, lo, hi, Top(done, lo, hi), best));
    }
  }

  /** The arena grows past the allocations it must avoid only if no gap between them is wide enough. */
  lemma PlacementPrefersGaps(s: seq<Alloc>, alignment: nat, size: nat, lo: int, hi: int)
    requires alignment > 0
    ensures var p := Placement(s, alignment, size, lo, hi);
            if exists k :: 0 <= k < |s| && GapBelow(s, k, alignment, size, lo, hi)
            then exists k :: 0 <= k < |s| && p + size <= s[k].offset
            else p == AlignTo(alignment, Top(s, lo, hi))
  {
    ScanFindsGap([], s, alignment, size, lo, hi, NotAssigned);
    assert [] + s == s;
  }

  /** std::upper_bound on offsets. */
  function UpperBound(s: seq<Alloc>, offset: nat): (k: nat)
    requires Ordered(s)
    ensures k <= |s|
    ensures forall i :: 0 <= i < k ==> s[i].offset <= offset
    ensures forall i :: k <= i < |s| ==> offset < s[i].offset
  {
    if s == [] || s[|s| - 1].offset <= offset then |s|
    else UpperBound(s[..|s| - 1], offset)
  }

  function Inserted(s: seq<Alloc>, a: Alloc): (r: seq<Alloc>)
    requires Ordered(s)
    ensures |r| == |s| + 1
    ensures forall x :: x in r <==> x in s || x == a
  {
    var k := UpperBound(s, a.offset);
    assert s == s[..k] + s[k..];
    s[..k] + [a] + s[k..]
  }

  /** An element of `Inserted(s, a)` is `a` itself or an element of `s`, in the same order. */
  lemma InsertedAt(s: seq<Alloc>, a: Alloc, i: nat, j: nat)
    requires Ordered(s) && i < j <= |s|
    ensures var (r, k) := (Inserted(s, a), UpperBound(s, a.offset));
            && r[i] == (if i < k then s[i] else if i == k then a else s[i - 1])
            && r[j] == (if j < k then s[j] else if j == k then a else s[j - 1])
  {
  }

  lemma InsertedKeepsOrder(s: seq<Alloc>, a: Alloc)
    requires Ordered(s)
    ensures Ordered(Inserted(s, a))
  {
    var r := Inserted(s, a);
    forall i, j | 0 <= i < j < |r|
      ensures r[i].offset <= r[j].offset
    {
      InsertedAt(s, a, i, j);
    }
  }

  lemma InsertedKeepsApart(s: seq<Alloc>, a: Alloc)
    requires Ordered(s) && NoClash(s)
    requires FreeAt(s, a.offset, a.size, a.first, a.last)
    ensures NoClash(Inserted(s, a))
  {
    var r, k := Inserted(s, a), UpperBound(s, a.offset);
    forall i, j | 0 <= i < j < |r| && r[i].Meets(r[j].first, r[j].last)
      ensures Apart(r[i], r[j])
    {
      InsertedAt(s, a, i, j);
      if i == k {
        assert s[j - 1] in s;
      } else if j == k {
        assert s[i] in s;
      }
    }
  }

  lemma InsertedKeepsTensors(s: seq<Alloc>, a: Alloc)
    requires Ordered(s) && OnePerTensor(s)
    requires forall x :: x in s ==> x.tensor != a.tensor
    ensures OnePerTensor(Inserted(s, a))
  {
    var r := Inserted(s, a);
    forall i, j | 0 <= i < j < |r|
      ensures r[i].tensor != r[j].tensor
    {
      InsertedAt(s, a, i, j);
    }
  }

  /******* Deallocation *******/

  function Without(s: seq<Alloc>, tensor: int): (r: seq<Alloc>)
    ensures forall x :: x in r <==> x in s && x.tensor != tensor
  {
    if s == [] then []
    else
      var init, x := s[..|s| - 1], s[|s| - 1];
      assert s == init + [x];
      Without(init, tensor) + (if x.tensor == tensor then [] else [x])
  }

  lemma {:induction false} WithoutKeepsInv(s: seq<Alloc>, tensor: int)
    requires Ordered(s) && NoClash(s)
    ensures Ordered(Without(s, tensor)) && NoClash(Without(s, tensor))
  {
    if s != [] {
      var init, x := s[..|s| - 1], s[|s| - 1];
      var w := Without(init, tensor);
      WithoutKeepsInv(init, tensor);
      forall i | 0 <= i < |w|
        ensures w[i].offset <= x.offset && (w[i].Meets(x.first, x.last) ==> Apart(w[i], x))
      {
        assert w[i] in w;
        assert w[i] in init;
      }
    }
  }

  lemma {:induction false} WithoutKeepsTensors(s: seq<Alloc>, tensor: int)
    requires OnePerTensor(s)
    ensures OnePerTensor(Without(s, tensor))
    ensures |s| - 1 <= |Without(s, tensor)| <= |s|
    ensures (exists x :: x in s && x.tensor == tensor) <==> |Without(s, tensor)| < |s|
  {
    if s != [] {
      var init, x := s[..|s| - 1], s[|s| - 1];
      assert s == init + [x];
      var w := Without(init, tensor);
      WithoutKeepsTensors(init, tensor);
      forall i | 0 <= i < |w|
        ensures w[i].tensor != x.tensor
      {
        assert w[i] in w;
        assert w[i] in init;
      }
      if x.tensor == tensor {
        forall y | y in init
          ensures y.tensor != tensor
        {
        }
      }
    }
  }

  class Arena {
    const alignment: nat
    var committed: bool
    var highWaterMark: nat
    var orderedAllocs: seq<Alloc>
    // The underlying buffer: its address and size, and its bytes from the first aligned address on.
    var bufferAddress: nat
    var bufferSize: nat
    var data: seq<Byte>

    ghost predicate Valid()
      reads this
    {
      alignment > 0 && ValidPlan() && ValidBuffer()
    }

    ghost predicate ValidPlan()
      reads this`orderedAllocs, this`highWaterMark
    {
      && Ordered(orderedAllocs)
      && NoClash(orderedAllocs)
      && (forall a :: a in orderedAllocs ==> a.size > 0 && a.End() <= highWaterMark)
    }

    ghost predicate ValidBuffer()
      requires alignment > 0
      reads this`bufferAddress, this`bufferSize, this`data
    {
      && (bufferSize == 0 ==> data == [])
      && (bufferSize > 0 ==> bufferSize >= 2 * alignment && |data| == bufferAddress + bufferSize - Base())
    }

    /** BasePointer(): the first aligned address of the buffer. */
    function Base(): nat
      requires alignment > 0
      reads this`bufferAddress
    {
      AlignTo(alignment, bufferAddress)
    }

    constructor (alignment: nat)
      requires alignment > 0
      ensures Valid() && this.alignment == alignment
      ensures orderedAllocs == [] && highWaterMark == 0 && bufferSize == 0 && !committed
    {
      this.alignment := alignment;
      committed, highWaterMark, orderedAllocs := false, 0, [];
      bufferAddress, bufferSize, data := 0, 0, [];
    }

    /** The loop of Allocate over the allocations in offset order. */
    method FindOffset(alignment: nat, size: nat, first: int, last: int) returns (offset: nat)
      requires alignment > 0
      ensures offset == Placement(orderedAllocs, alignment, size, first, last)
    {
      var best := NotAssigned;
      var current := 0;
      for k := 0 to |orderedAllocs|
        invariant Scan(orderedAllocs, alignment, size, first, last, 0, NotAssigned)
               == Scan(orderedAllocs[k..], alignment, size, first, last, current, best)
      {
        var alloc := orderedAllocs[k];
        assert orderedAllocs[k..][1..] == orderedAllocs[k + 1..];
        if alloc.last < first || alloc.first > last {
          continue;
        }
        var aligned := AlignTo(alignment, current);
        if aligned + size <= alloc.offset && (best.NotAssigned? || alloc.offset - aligned < best.fit) {
          best := At(aligned, alloc.offset - current);
        }
        current := Max(current, alloc.offset + alloc.size);
      }
      offset := if best.NotAssigned? then AlignTo(alignment, current) else best.offset;
    }

    method Allocate(alignment: nat, size: nat, tensor: int, first: int, last: int)
      returns (ok: bool, newAlloc: Alloc)
      requires Valid() && alignment > 0
      modifies this`highWaterMark, this`orderedAllocs
      ensures Valid()
      ensures ok <==> alignment <= this.alignment
      ensures !ok || size == 0 ==> highWaterMark == old(highWaterMark) && orderedAllocs == old(orderedAllocs)
      ensures ok ==> newAlloc == Alloc(newAlloc.offset, size, tensor, first, last)
      ensures ok && size == 0 ==> newAlloc.offset == 0
      ensures ok && size > 0 ==>
                && newAlloc.offset == Placement(old(orderedAllocs), alignment, size, first, last)
                && newAlloc.offset % alignment == 0
                && FreeAt(old(orderedAllocs), newAlloc.offset, size, first, last)
                && orderedAllocs == Inserted(old(orderedAllocs), newAlloc)
                && highWaterMark == Max(old(highWaterMark), newAlloc.End())
                && highWaterMark <= old(highWaterMark) + (alignment - 1) + size
    {
      if alignment > this.alignment {
        return false, UNUSED;
      }
      if size == 0 {
        return true, Alloc(0, 0, tensor, first, last);
      }
      var offset := FindOffset(alignment, size, first, last);
      PlacementIsFree(orderedAllocs, alignment, size, first, last, highWaterMark);
      ok, newAlloc := true, Alloc(offset, size, tensor, first, last);
      highWaterMark := Max(highWaterMark, offset + size);
      InsertedKeepsOrder(orderedAllocs, newAlloc);
      InsertedKeepsApart(orderedAllocs, newAlloc);
      orderedAllocs := Inserted(orderedAllocs, newAlloc);
    }

    /** The erasing loop of Deallocate. */
    static method EraseTensor(s: seq<Alloc>, tensor: int) returns (kept: seq<Alloc>, erased: nat)
      ensures kept == Without(s, tensor) && erased == |s| - |kept|
    {
      kept, erased := [], 0;
      for k := 0 to |s|
        invariant kept == Without(s[..k], tensor)
        invariant erased + |kept| == k
      {
        assert s[..k + 1][..k] == s[..k];
        if s[k].tensor == tensor {
          erased := erased + 1;
        } else {
          kept := kept + [s[k]];
        }
      }
      assert s[..|s|] == s;
    }

    method Deallocate(alloc: Alloc) returns (ok: bool)
      requires Valid()
      modifies this`orderedAllocs
      ensures Valid()
      ensures alloc.size == 0 ==> ok && orderedAllocs == old(orderedAllocs)
      ensures alloc.size > 0 ==> orderedAllocs == Without(old(orderedAllocs), alloc.tensor)
      ensures alloc.size > 0 ==> (ok <==> |old(orderedAllocs)| <= |orderedAllocs| + 1)
    {
      if alloc.size == 0 {
        return true;
      }
      WithoutKeepsInv(orderedAllocs, alloc.tensor);
      var kept, erased := EraseTensor(orderedAllocs, alloc.tensor);
      ok := erased <= 1;
      orderedAllocs := kept;
    }

    /** RequiredBufferSize() */
    function RequiredBufferSize(): nat
      reads this
    {
      alignment + highWaterMark + alignment
    }

    /** `new char[size]`: callers rely on neither the address nor the contents. */
    static method NewBlock(size: nat) returns (address: nat, block: seq<Byte>)
      ensures |block| == size
    {
      address, block := 0, seq(size, _ => 0);
    }

    method Commit() returns (ok: bool)
      requires Valid()
      modifies this`committed, this`bufferAddress, this`bufferSize, this`data
      ensures Valid() && ok && committed
      ensures bufferSize == Max(old(bufferSize), RequiredBufferSize())
      ensures old(bufferSize) >= RequiredBufferSize() ==> data == old(data) && bufferAddress == old(bufferAddress)
      ensures |data| >= highWaterMark + alignment
      // Offsets stay valid: every byte below the high-water mark that existed is still there.
      ensures SameUpTo(old(data), data, highWaterMark)
    {
      var required := RequiredBufferSize();
      if required > bufferSize {
        var address, block := NewBlock(required);
        var usable := address + required - AlignTo(alignment, address);
        var copy := if highWaterMark > 0 && bufferSize > 0 then Min(|data|, usable) else 0;
        data := data[..copy] + block[copy..usable];
        bufferAddress, bufferSize := address, required;
      }
      committed := true;
      ok := bufferSize > 0;
    }

    method ResolveAlloc(alloc: Alloc) returns (ok: bool, pointer: int)
      requires Valid()
      ensures ok <==> committed && bufferSize >= alloc.End()
      ensures ok ==> pointer == if alloc.size == 0 then 0 else Base() + alloc.offset
    {
      if !committed || bufferSize < alloc.offset + alloc.size {
        return false, 0;
      }
      return true, if alloc.size == 0 then 0 else Base() + alloc.offset;
    }

    method ClearPlan()
      requires Valid()
      modifies this`committed, this`highWaterMark, this`orderedAllocs
      ensures Valid()
      ensures orderedAllocs == [] && highWaterMark == 0 && !committed
    {
      committed, highWaterMark, orderedAllocs := false, 0, [];
    }

    method ReleaseBuffer()
      requires Valid()
      modifies this`committed, this`bufferAddress, this`bufferSize, this`data
      ensures Valid()
      ensures !committed && bufferSize == 0
    {
      committed, bufferAddress, bufferSize, data := false, 0, 0, [];
    }
  }
}
