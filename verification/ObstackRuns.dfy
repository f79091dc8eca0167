/**
  Whole runs of an obstack: any sequence of operations by a client that keeps
  the pointers `obstack_finish` returned.  A run is described by the sequence
  of its states (live objects and growing bytes), and what the allocator
  promises is proved of every such sequence.
 */
module ObstackRuns {
  import opened Bits
  import opened Obstacks

  /** `Store` writes one character into a live object; `Free` names a live object, or the growing one. */
  datatype Op =
    | Grow(data: seq<char>)
    | OneGrow(c: char)
    | Blank(n: nat)
    | Finish
    | Free(k: nat)
    | Store(k: nat, off: nat, c: char)

  datatype State = State(objects: seq<Obj>, growing: seq<char>)

  /** What one operation may do to the state. */
  ghost predicate Step(s: State, op: Op, t: State) {
    match op
    case Grow(data) => t == s.(growing := s.growing + data)
    case OneGrow(c) => t == s.(growing := s.growing + [c])
    case Blank(n) => t.objects == s.objects && s.growing <= t.growing && |t.growing| == |s.growing| + n
    case Finish =>
      && t.growing == []
      && |t.objects| == |s.objects| + 1
      && t.objects[..|s.objects|] == s.objects
      && t.objects[|s.objects|].data == s.growing
    case Free(k) => k <= |s.objects| && t == State(s.objects[..k], [])
    case Store(k, off, c) =>
      && k < |s.objects|
      && off < |s.objects[k].data|
      && t == s.(objects := s.objects[k := Overwritten(s.objects[k], s.objects[k].addr + off, [c])])
  }

  ghost predicate IsRun(trace: seq<State>, ops: seq<Op>) {
    |trace| == |ops| + 1 && forall i | 0 <= i < |ops| :: Step(trace[i], ops[i], trace[i + 1])
  }

  ghost function Snapshot(ob: Obstack): State
    reads ob
  {
    State(ob.objects, ob.growing)
  }

  /** What the client remembers of a finished object. */
  datatype Handle = Handle(addr: nat, len: nat)

  ghost predicate Tracks(handles: seq<Handle>, objects: seq<Obj>) {
    |handles| == |objects| && forall i | 0 <= i < |handles| :: handles[i] == Handle(objects[i].addr, |objects[i].data|)
  }

  /** The client can see from its handles whether an operation names a live object. */
  predicate Legal(handles: seq<Handle>, op: Op) {
    match op
    case Grow(data) => |data| < SPACE
    case Blank(n) => n < SPACE
    case Free(k) => k <= |handles|
    case Store(k, off, c) => k < |handles| && off < handles[k].len
    case _ => true
  }

  /** No object is there for the operation, or more bytes are asked for than addresses exist. */
  ghost predicate Impossible(objects: seq<Obj>, op: Op) {
    match op
    case Grow(data) => |data| >= SPACE
    case Blank(n) => n >= SPACE
    case Free(k) => k > |objects|
    case Store(k, off, c) => k >= |objects| || off >= |objects[k].data|
    case _ => false
  }

  lemma LegalIff(handles: seq<Handle>, objects: seq<Obj>, op: Op)
    requires Tracks(handles, objects)
    ensures Legal(handles, op) <==> !Impossible(objects, op)
  {
  }

  /** Perform one operation through the obstack's interface. */
  method Perform(ob: Obstack, handles: seq<Handle>, op: Op) returns (ok: bool, handles': seq<Handle>)
    requires ob.Valid() && Tracks(handles, ob.objects) && Legal(handles, op)
    modifies ob, ob.mem, ob.allocator
    ensures ob.Valid() && Tracks(handles', ob.objects)
    ensures ok ==> Step(old(Snapshot(ob)), op, Snapshot(ob))
    ensures !ok ==> Snapshot(ob) == old(Snapshot(ob))
    ensures ok <==> ob.failures == old(ob.failures)
  {
    ok, handles' := true, handles;
    match op {
      case Grow(data) => ok := ob.Grow(data);
      case OneGrow(c) => ok := ob.OneGrow(c);
      case Blank(n) => ok := ob.Blank(n);
      case Finish =>
        var len := ob.ObjectSize();
        var p := ob.Finish();
        handles' := handles + [Handle(p, len)];
      case Free(k) =>
        ob.Free(if k < |handles| then handles[k].addr else ob.objectBase, k);
        handles' := handles[..k];
      case Store(k, off, c) => ob.StoreObject(handles[k].addr + off, [c], k);
    }
  }

  /**
    Perform operations until one is impossible or the allocator refuses.  The
    obstack is valid after each, so by `Obstack.Apart` its live objects are
    disjoint and inside the chain, and by `Obstack.ChunksConserved` no chunk is
    lost or given back twice.
   */
  method Run(ob: Obstack, ops: seq<Op>) returns (done: nat, handles: seq<Handle>, ghost trace: seq<State>)
    requires ob.Valid() && ob.objects == []
    modifies ob, ob.mem, ob.allocator
    ensures ob.Valid() && Tracks(handles, ob.objects)
    ensures done <= |ops| && IsRun(trace, ops[..done])
    ensures done < |ops| ==> Impossible(ob.objects, ops[done]) || ob.failures != old(ob.failures)
    ensures trace[0] == old(Snapshot(ob)) && trace[done] == Snapshot(ob)
  {
    done := 0;
    handles := [];
    trace := [Snapshot(ob)];
    while done < |ops| && Legal(handles, ops[done])
      invariant done <= |ops|
      invariant ob.Valid() && Tracks(handles, ob.objects) && ob.failures == old(ob.failures)
      invariant IsRun(trace, ops[..done])
      invariant trace[0] == old(Snapshot(ob)) && trace[done] == Snapshot(ob)
      decreases |ops| - done
    {
      var ok;
      ghost var before := Snapshot(ob);
      ok, handles := Perform(ob, handles, ops[done]);
      if !ok {
        return;
      }
      RunExtend(trace, ops[..done], ops[done], Snapshot(ob));
      assert ops[..done + 1] == ops[..done] + [ops[done]];
      trace := trace + [Snapshot(ob)];
      done := done + 1;
    }
    if done < |ops| {
      LegalIff(handles, ob.objects, ops[done]);
    }
  }

  lemma RunExtend(trace: seq<State>, ops: seq<Op>, op: Op, t: State)
    requires IsRun(trace, ops) && Step(trace[|ops|], op, t)
    ensures IsRun(trace + [t], ops + [op])
  {
  }

  /** A finished object stays where it is, and keeps its bytes, until it is freed or its own bytes are stored to. */
  lemma {:induction false} Immovable(trace: seq<State>, ops: seq<Op>, i: nat, j: nat, k: nat)
    requires IsRun(trace, ops) && i <= j < |trace|
    requires forall t | i <= t <= j :: k < |trace[t].objects|
    ensures trace[i].objects[k].addr == trace[j].objects[k].addr
    ensures |trace[i].objects[k].data| == |trace[j].objects[k].data|
    ensures (forall t | i <= t < j :: !(ops[t].Store? && ops[t].k == k)) ==> trace[i].objects[k] == trace[j].objects[k]
    decreases j - i
  {
    if i < j {
      Immovable(trace, ops, i, j - 1, k);
      StepKeeps(trace[j - 1], ops[j - 1], trace[j], k);
    }
  }

  lemma StepKeeps(s: State, op: Op, t: State, k: nat)
    requires Step(s, op, t) && k < |s.objects| && k < |t.objects|
    ensures s.objects[k].addr == t.objects[k].addr
    ensures |s.objects[k].data| == |t.objects[k].data|
    ensures !(op.Store? && op.k == k) ==> s.objects[k] == t.objects[k]
  {
    if op.Finish? {
      assert s.objects[k] == t.objects[..|s.objects|][k];
    }
  }

  /** Freeing the object begun in state `i` brings back exactly the objects of state `i`, whatever came between. */
  lemma Unwinding(trace: seq<State>, ops: seq<Op>, i: nat, j: nat)
    requires IsRun(trace, ops) && i <= j < |ops|
    requires forall t | i <= t <= j :: |trace[i].objects| <= |trace[t].objects|
    requires forall t | i <= t < j :: ops[t].Store? ==> ops[t].k >= |trace[i].objects|
    requires ops[j] == Free(|trace[i].objects|)
    ensures trace[j + 1] == State(trace[i].objects, [])
  {
    var n := |trace[i].objects|;
    assert Step(trace[j], ops[j], trace[j + 1]);
    forall k | 0 <= k < n ensures trace[i].objects[k] == trace[j].objects[k] {
      Immovable(trace, ops, i, j, k);
    }
    assert trace[j].objects[..n] == trace[i].objects;
  }
}
