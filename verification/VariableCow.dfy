/**
 Assigning to resource variables (tensorflow/c/kernels_experimental.cc).

 Tensors share buffers and count references. A variable may share its buffer with tensors that were
 read from it or assigned to it, so it is copied before it is changed in place. In copy-on-read mode
 nothing shares the variable's buffer, and reads copy instead.
 */
module VariableCow {

  datatype Option<T> = None | Some(value: T)

  datatype Status = Ok | Failed | Aborted

  /** What a buffer holds, with the shape of the tensors that use it. */
  datatype Data = Data(shape: seq<nat>, elems: seq<int>)

  /** The tensors whose buffer is `b`. */
  function Holders(tensors: map<nat, nat>, b: nat): set<nat> {
    set h | h in tensors && tensors[h] == b
  }

  /** The number of references to buffer `b`. */
  function Count(tensors: map<nat, nat>, variable: Option<nat>, b: nat): nat {
    |Holders(tensors, b)| + if variable == Some(b) then 1 else 0
  }

  lemma HoldersAdded(tensors: map<nat, nat>, h: nat, b: nat, x: nat)
    requires h !in tensors
    ensures |Holders(tensors[h := b], x)| == |Holders(tensors, x)| + if x == b then 1 else 0
  {
    if x == b {
      assert Holders(tensors[h := b], x) == Holders(tensors, x) + {h};
    } else {
      assert Holders(tensors[h := b], x) == Holders(tensors, x);
    }
  }

  lemma HoldersRemoved(tensors: map<nat, nat>, h: nat, x: nat)
    requires h in tensors
    ensures |Holders(tensors - {h}, x)| + (if x == tensors[h] then 1 else 0) == |Holders(tensors, x)|
  {
    if x == tensors[h] {
      assert Holders(tensors, x) == Holders(tensors - {h}, x) + {h};
    } else {
      assert Holders(tensors, x) == Holders(tensors - {h}, x);
    }
  }

  /** Some tensor uses buffer `b`. */
  ghost predicate Used(tensors: map<nat, nat>, b: nat) {
    exists h :: h in tensors && tensors[h] == b
  }

  /** One reference less; a buffer without references is freed. */
  function Dropped(refs: map<nat, nat>, b: nat): map<nat, nat>
    requires b in refs
  {
    if refs[b] <= 1 then refs - {b} else refs[b := refs[b] - 1]
  }

  /** Every buffer that is referred to exists. */
  ghost predicate Covered(refs: map<nat, nat>, tensors: map<nat, nat>, variable: Option<nat>) {
    && (forall h :: h in tensors ==> tensors[h] in refs)
    && (variable.Some? ==> variable.value in refs)
  }

  /** Every reference is counted, and only buffers with references exist. */
  ghost predicate Counted(refs: map<nat, nat>, tensors: map<nat, nat>, variable: Option<nat>) {
    Covered(refs, tensors, variable) && forall b :: b in refs ==> refs[b] > 0 && refs[b] == Count(tensors, variable, b)
  }

  lemma CountedNew(refs: map<nat, nat>, tensors: map<nat, nat>, variable: Option<nat>, h: nat, b: nat)
    requires Counted(refs, tensors, variable) && h !in tensors && b !in refs
    ensures Counted(refs[b := 1], tensors[h := b], variable)
    ensures Covered(refs[b := 1], tensors[h := b], variable)
  {
    var refs' := refs[b := 1];
    forall x | x in refs'
      ensures refs'[x] == Count(tensors[h := b], variable, x)
    {
      HoldersAdded(tensors, h, b, x);
    }
    assert Holders(tensors, b) == {};
  }

  lemma CountedShared(refs: map<nat, nat>, tensors: map<nat, nat>, variable: Option<nat>, h: nat, b: nat)
    requires Counted(refs, tensors, variable) && h !in tensors && b in refs
    ensures Counted(refs[b := refs[b] + 1], tensors[h := b], variable)
    ensures Covered(refs[b := refs[b] + 1], tensors[h := b], variable)
  {
    forall x | x in refs
      ensures refs[b := refs[b] + 1][x] == Count(tensors[h := b], variable, x)
    {
      HoldersAdded(tensors, h, b, x);
    }
  }

  lemma CountedReleased(refs: map<nat, nat>, tensors: map<nat, nat>, variable: Option<nat>, h: nat)
    requires Counted(refs, tensors, variable) && h in tensors
    ensures Counted(Dropped(refs, tensors[h]), tensors - {h}, variable)
    ensures Covered(Dropped(refs, tensors[h]), tensors - {h}, variable)
  {
    forall x
      ensures |Holders(tensors - {h}, x)| + (if x == tensors[h] then 1 else 0) == |Holders(tensors, x)|
    {
      HoldersRemoved(tensors, h, x);
    }
    var refs' := Dropped(refs, tensors[h]);
    forall g | g in tensors - {h}
      ensures tensors[g] in refs'
    {
      assert g in Holders(tensors - {h}, tensors[g]);
    }
  }

  /** The reference counts after the variable's tensor is made to share buffer `b`. */
  function Moved(refs: map<nat, nat>, variable: Option<nat>, b: nat): map<nat, nat>
    requires b in refs && (variable.Some? ==> variable.value in refs)
  {
    var more := refs[b := refs[b] + 1];
    if variable.Some? then Dropped(more, variable.value) else more
  }

  lemma CountedMoved(refs: map<nat, nat>, tensors: map<nat, nat>, variable: Option<nat>, b: nat)
    requires Counted(refs, tensors, variable) && b in refs
    ensures Counted(Moved(refs, variable, b), tensors, Some(b))
    ensures Covered(Moved(refs, variable, b), tensors, Some(b))
  {
    var refs' := Moved(refs, variable, b);
    forall h | h in tensors
      ensures tensors[h] in refs'
    {
      assert h in Holders(tensors, tensors[h]);
    }
  }

  /** RefCountIsOne of the variable's tensor means that no other tensor shares its buffer. */
  lemma OneReferenceMeansUnshared(refs: map<nat, nat>, tensors: map<nat, nat>, variable: Option<nat>)
    requires Counted(refs, tensors, variable) && variable.Some?
    ensures refs[variable.value] == 1 <==> !Used(tensors, variable.value)
  {
    var b := variable.value;
    if h :| h in tensors && tensors[h] == b {
      assert h in Holders(tensors, b);
    } else {
      assert Holders(tensors, b) == {};
    }
  }

  /** Every tensor still holds what it held when it was made. */
  ghost predicate Agree(contents: map<nat, Data>, tensors: map<nat, nat>, seen: map<nat, Data>) {
    && seen.Keys == tensors.Keys
    && forall h :: h in tensors ==> tensors[h] in contents && contents[tensors[h]] == seen[h]
  }

  lemma AgreeNew(contents: map<nat, Data>, tensors: map<nat, nat>, seen: map<nat, Data>, h: nat, b: nat, data: Data)
    requires Agree(contents, tensors, seen) && h !in tensors && b !in contents
    ensures h !in seen && Agree(contents[b := data], tensors[h := b], seen[h := data])
  {
  }

  lemma NewestHolds(contents: map<nat, Data>, tensors: map<nat, nat>, seen: map<nat, Data>, h: nat)
    requires Agree(contents, tensors, seen) && h in tensors
    ensures h in seen && tensors[h] in contents && contents[tensors[h]] == seen[h]
  {
  }

  lemma AgreeReleased(contents: map<nat, Data>, tensors: map<nat, nat>, seen: map<nat, Data>,
                      contents': map<nat, Data>, h: nat)
    requires Agree(contents, tensors, seen)
    requires forall g :: g in tensors - {h} ==>
               tensors[g] in contents' && tensors[g] in contents && contents'[tensors[g]] == contents[tensors[g]]
    ensures Agree(contents', tensors - {h}, seen - {h})
  {
  }

  class Runtime {
    // Buffers and their reference counts.
    var contents: map<nat, Data>
    var refs: map<nat, nat>
    var nextBuffer: nat
    // The tensors that are outside the variable: results of reads, inputs of kernels.
    var tensors: map<nat, nat>
    var nextTensor: nat
    // The variable's tensor, if the variable exists, and its mode.
    var variable: Option<nat>
    var copyOnRead: bool

    // A variable that is a plain value, and what each tensor held when it was made.
    ghost var plain: Option<Data>
    ghost var seen: map<nat, Data>

    /** References are counted, the variable holds the plain value and tensors hold what they held. */
    ghost predicate Core()
      reads this
    {
      && Counted(refs, tensors, variable) && Covered(refs, tensors, variable) && contents.Keys == refs.Keys
      && (forall b :: b in refs ==> b < nextBuffer)
      && (forall h :: h in tensors ==> h < nextTensor)
      && (variable.None? <==> plain.None?)
      && (variable.Some? ==> variable.value in contents && contents[variable.value] == plain.value)
      && Agree(contents, tensors, seen)
    }

    /** In copy-on-read mode, moreover, nothing shares the variable's buffer. */
    ghost predicate Valid()
      reads this
    {
      Core() && (copyOnRead ==> variable.Some? && !Used(tensors, variable.value))
    }

    constructor ()
      ensures Valid() && variable.None? && tensors == map[] && !copyOnRead
    {
      contents, refs, nextBuffer, tensors, nextTensor := map[], map[], 0, map[], 0;
      variable, copyOnRead, plain, seen := None, false, None, map[];
    }

    /** A tensor with a buffer of its own. */
    method NewTensor(data: Data) returns (h: nat)
      requires Core()
      modifies this`contents, this`refs, this`nextBuffer, this`tensors, this`nextTensor, this`seen
      ensures Core() && h !in old(tensors) && h in tensors && tensors == old(tensors)[h := tensors[h]]
      ensures h !in old(seen) && seen == old(seen)[h := data] && tensors[h] !in old(refs)
      ensures old(Valid()) ==> Valid()
    {
      hide Counted, Agree, Covered;
      var b := nextBuffer;
      h, nextBuffer, nextTensor := nextTensor, nextBuffer + 1, nextTensor + 1;
      CountedNew(refs, tensors, variable, h, b);
      AgreeNew(contents, tensors, seen, h, b, data);
      contents, refs, tensors, seen := contents[b := data], refs[b := 1], tensors[h := b], seen[h := data];
    }

    /** A tensor that shares the variable's buffer. */
    method ShareVariable() returns (h: nat)
      requires Core() && variable.Some?
      modifies this`refs, this`tensors, this`nextTensor, this`seen
      ensures Core() && h !in old(tensors) && h in tensors && tensors == old(tensors)[h := tensors[h]]
      ensures seen == old(seen)[h := plain.value]
    {
      hide Counted;
      var b := variable.value;
      h, nextTensor := nextTensor, nextTensor + 1;
      CountedShared(refs, tensors, variable, h, b);
      refs, tensors, seen := refs[b := refs[b] + 1], tensors[h := b], seen[h := plain.value];
    }

    /** Gives up a tensor; a buffer without references is freed. */
    method Release(h: nat)
      requires Core() && h in tensors
      modifies this`contents, this`refs, this`tensors, this`seen
      ensures Core() && tensors == old(tensors) - {h} && seen == old(seen) - {h}
      ensures old(Valid()) ==> Valid()
    {
      hide Counted, Agree;
      CountedReleased(refs, tensors, variable, h);
      refs := Dropped(refs, tensors[h]);
      contents := map b | b in refs && b in contents :: contents[b];
      AgreeReleased(old(contents), tensors, seen, contents, h);
      tensors, seen := tensors - {h}, seen - {h};
    }

    /** Makes the variable's tensor share buffer `b`, as assigning one Tensor to another does. */
    method PointVariableAt(b: nat)
      requires Core() && b in refs
      modifies this`contents, this`refs, this`variable, this`plain
      ensures Core() && variable == Some(b) && plain == Some(old(contents)[b])
    {
      hide Counted;
      CountedMoved(refs, tensors, variable, b);
      plain := Some(contents[b]);
      refs := Moved(refs, variable, b);
      variable := Some(b);
      contents := map x | x in refs && x in contents :: contents[x];
    }

    /** Puts the variable into a new buffer: a temporary is filled, assigned and given up. */
    method ReplaceBy(data: Data)
      requires Core()
      modifies this
      ensures Core() && copyOnRead == old(copyOnRead)
      ensures plain == Some(data) && tensors == old(tensors) && seen == old(seen)
      ensures variable.Some? && !Used(tensors, variable.value)
    {
      hide Counted, Agree;
      var tmp := NewTensor(data);
      NewestHolds(contents, tensors, seen, tmp);
      PointVariableAt(tensors[tmp]);
      Release(tmp);
      assert tensors == old(tensors) && seen == old(seen);
    }

    /** A dense read that keeps a reference: it shares the buffer, or copies in copy-on-read mode. */
    method Read() returns (status: Status, h: nat)
      requires Valid()
      modifies this
      ensures Valid() && plain == old(plain)
      ensures status == if plain.Some? then Ok else Failed
      ensures status.Ok? ==> h !in old(tensors) && seen == old(seen)[h := plain.value]
      ensures !status.Ok? ==> seen == old(seen)
    {
      hide Counted, Agree;
      if variable.None? {
        return Failed, 0;
      }
      if !copyOnRead {
        h := ShareVariable();
      } else {
        h := NewTensor(contents[variable.value]);
      }
      status := Ok;
    }

    /** EnsureSparseVariableAccess: switches to copy-on-read mode. */
    method EnsureSparseVariableAccess(allocates: bool) returns (status: Status)
      requires Valid() && variable.Some?
      modifies this
      ensures Valid() && plain == old(plain) && seen == old(seen) && tensors == old(tensors)
      ensures status.Ok? <==> copyOnRead
      ensures !status.Ok? ==> status.Failed? && !allocates
    {
      hide Counted, Agree, Covered;
      if copyOnRead {
        return Ok;
      }
      OneReferenceMeansUnshared(refs, tensors, variable);
      if refs[variable.value] == 1 {
        copyOnRead := true;
        return Ok;
      }
      if !allocates {
        return Failed;
      }
      ReplaceBy(contents[variable.value]);
      copyOnRead := true;
      status := Ok;
    }

    /** PrepareToUpdateVariable: afterwards the buffer may be changed in place. */
    method PrepareToUpdateVariable(allocates: bool) returns (status: Status)
      requires Valid() && variable.Some?
      modifies this
      ensures Valid() && plain == old(plain) && seen == old(seen) && tensors == old(tensors)
      ensures copyOnRead == old(copyOnRead) && variable.Some?
      ensures status.Ok? ==> !Used(tensors, variable.value)
      ensures !status.Ok? ==> status.Failed? && !allocates
    {
      hide Counted, Agree, Covered;
      OneReferenceMeansUnshared(refs, tensors, variable);
      if copyOnRead || refs[variable.value] != 1 {
        if !allocates {
          return Failed;
        }
        ReplaceBy(contents[variable.value]);
      }
      status := Ok;
    }

    /** TF_AssignVariable: afterwards the variable has the value of tensor `h`, whose buffer it may share. */
    method AssignVariable(h: nat, allocates: bool) returns (status: Status)
      requires Valid() && h in tensors
      modifies this
      ensures Valid() && seen == old(seen) && tensors == old(tensors) && copyOnRead == old(copyOnRead)
      ensures plain == if status.Ok? then Some(seen[h]) else old(plain)
      ensures !status.Ok? ==> status.Failed? && copyOnRead && !allocates
    {
      hide Counted;
      if variable.None? {
        PointVariableAt(tensors[h]);
      }
      if copyOnRead {
        if !allocates {
          return Failed;
        }
        ReplaceBy(contents[tensors[h]]);
      } else {
        PointVariableAt(tensors[h]);
      }
      status := Ok;
    }

    /** TF_AssignUpdateVariable: changes the variable as a plain variable would be, and no tensor. */
    method AssignUpdateVariable(h: nat, op: int, allocates: bool, update: (seq<int>, seq<int>, int) -> seq<int>)
      returns (status: Status)
      requires Valid() && h in tensors
      modifies this
      ensures Valid() && seen == old(seen) && tensors == old(tensors) && copyOnRead == old(copyOnRead)
      ensures status.Aborted? <==> old(plain).None?
      ensures status.Ok? ==> old(plain.value).shape == seen[h].shape
      ensures status.Ok? ==>
                plain == Some(Data(seen[h].shape, update(old(plain.value).elems, seen[h].elems, op)))
      ensures !status.Ok? ==> plain == old(plain)
      ensures old(plain).Some? && old(plain.value).shape == seen[h].shape && allocates ==> status.Ok?
    {
      hide Counted;
      if variable.None? {
        return Aborted;
      }
      if contents[variable.value].shape != contents[tensors[h]].shape {
        return Failed;
      }
      status := PrepareToUpdateVariable(allocates);
      if status.Ok? {
        var b := variable.value;
        var updated := update(contents[b].elems, contents[tensors[h]].elems, op);
        contents := contents[b := contents[b].(elems := updated)];
        plain := Some(contents[b]);
      }
    }
  }
}
