/**
  Reading files of `/proc` onto an obstack: `obstack_printf`, `proc_pid_file`
  and `read_file` of os/Cygwin.c and os/Linux.c.

  Methods answer `ok == false` when the chunk allocator refused; the handler of
  the obstack then ends the process, so nothing more happens.
 */
module ProcFiles {
  import opened Memory
  import opened Obstacks

  const READ_SIZE: nat := 1024
  const PRINTF_SIZE: nat := 1024

  /** What the kernel answers: the file cannot be opened, or reads give these blocks and then end or fail. */
  datatype File = Missing | Reads(blocks: seq<seq<char>>, fails: bool)

  function Flatten(blocks: seq<seq<char>>): seq<char> {
    if blocks == [] then [] else Flatten(blocks[..|blocks| - 1]) + blocks[|blocks| - 1]
  }

  predicate Readable(file: File) {
    file.Reads? && !file.fails
  }

  function Content(file: File): seq<char>
    requires file.Reads?
  {
    Flatten(file.blocks)
  }

  /** `read` gives at least one byte and at most what was asked for, until it ends or fails. */
  predicate Sensible(file: File) {
    file.Reads? ==> forall i | 0 <= i < |file.blocks| :: 0 < |file.blocks[i]| <= READ_SIZE
  }

  /** One more object on the stack, at `p`. */
  ghost predicate Pushed(before: seq<Obj>, after: seq<Obj>, p: nat) {
    |after| == |before| + 1 && after[..|before|] == before && after[|before|].addr == p
  }

  /** `obstack_printf`, for output that fits its buffer. */
  method ObstackPrintf(ob: Obstack, text: seq<char>) returns (ok: bool)
    requires ob.Valid() && |text| < PRINTF_SIZE
    modifies ob, ob.mem, ob.allocator
    ensures ok <==> ob.failures == old(ob.failures)
    ensures ob.Valid() && ob.objects == old(ob.objects)
    ensures ob.growing == if ok then old(ob.growing) + text else old(ob.growing)
  {
    ok := ob.Grow(text);
  }

  /** Finish a C string from text not longer than `obstack_printf` can take. */
  method PrintString(ob: Obstack, text: seq<char>) returns (ok: bool, p: nat)
    requires ob.Valid() && ob.growing == [] && |text| < PRINTF_SIZE
    modifies ob, ob.mem, ob.allocator
    ensures ok <==> ob.failures == old(ob.failures)
    ensures ob.Valid()
    ensures ok ==> p != 0 && ob.growing == [] && Pushed(old(ob.objects), ob.objects, p)
    ensures ok ==> ob.objects[|old(ob.objects)|].data == text + [NUL]
  {
    p := 0;
    ok := ObstackPrintf(ob, text);
    if ok {
      assert ob.growing == text;
      ok := ob.OneGrow(NUL);
      if ok {
        p := FinishText(ob);
      }
    }
  }

  function PidPath(pid: seq<char>, file: Option<seq<char>>): seq<char> {
    "/proc/" + pid + (if file.Some? then "/" + file.value else [])
  }

  predicate PathFits(pid: seq<char>, file: Option<seq<char>>) {
    6 + |pid| < PRINTF_SIZE && (file.Some? ==> 1 + |file.value| < PRINTF_SIZE)
  }

  /** `proc_pid_file`. */
  method ProcPidFile(ob: Obstack, pid: seq<char>, file: Option<seq<char>>) returns (ok: bool, p: nat)
    requires ob.Valid() && ob.growing == [] && PathFits(pid, file)
    modifies ob, ob.mem, ob.allocator
    ensures ok <==> ob.failures == old(ob.failures)
    ensures ob.Valid()
    ensures ok ==> ob.growing == [] && Pushed(old(ob.objects), ob.objects, p)
    ensures ok ==> ob.objects[|old(ob.objects)|].data == PidPath(pid, file) + [NUL]
  {
    p := 0;
    ok := ObstackPrintf(ob, "/proc/" + pid);
    if !ok {
      return;
    }
    assert ob.growing == "/proc/" + pid;
    if file.Some? {
      ok := ObstackPrintf(ob, "/" + file.value);
      if !ok {
        return;
      }
    }
    assert ob.growing == PidPath(pid, file);
    ok := ob.OneGrow(NUL);
    if ok {
      p := ob.Finish();
    }
  }

  /** Build a path, hand it to the kernel, and free it again: the live objects are as before. */
  method TryPath(ob: Obstack, pid: seq<char>, file: Option<seq<char>>) returns (ok: bool)
    requires ob.Valid() && ob.growing == [] && PathFits(pid, file)
    modifies ob, ob.mem, ob.allocator
    ensures ok <==> ob.failures == old(ob.failures)
    ensures ob.Valid()
    ensures ok ==> ob.growing == [] && ob.objects == old(ob.objects)
  {
    var p;
    ok, p := ProcPidFile(ob, pid, file);
    if ok {
      ob.Free(p, |old(ob.objects)|);
    }
  }

  /** The object that starts at `p` holds `content`, closed by a NUL. */
  ghost predicate HoldsText(o: Obj, content: seq<char>) {
    content + [NUL] <= o.data
  }

  /** 1024 bytes of room behind the `len` bytes read so far, and a `read` into it that gets `block`. */
  method ReadBlock(ob: Obstack, len: nat, block: seq<char>) returns (ok: bool)
    requires ob.Valid() && len <= |ob.growing| && |block| <= READ_SIZE
    modifies ob, ob.mem, ob.allocator
    ensures ok <==> ob.failures == old(ob.failures)
    ensures ob.Valid() && ob.objects == old(ob.objects)
    ensures ok ==> len + READ_SIZE <= |ob.growing| && ob.growing[..len + |block|] == old(ob.growing)[..len] + block
  {
    ok := ob.Blank(READ_SIZE);
    if ok {
      ghost var was := ob.growing;
      ob.StoreGrowing(len, block);
      assert ob.growing[..len + |block|] == was[..len] + block;
    }
  }

  lemma FlattenNext(blocks: seq<seq<char>>, i: nat)
    requires i < |blocks|
    ensures Flatten(blocks[..i + 1]) == Flatten(blocks[..i]) + blocks[i]
  {
    assert blocks[..i + 1][..i] == blocks[..i];
  }

  /** The loop of `read_file`: 1024 bytes of room, a read, and again, until the reads end or fail. */
  method ReadLoop(ob: Obstack, blocks: seq<seq<char>>, fails: bool) returns (ok: bool, failed: bool, len: nat)
    requires ob.Valid() && ob.growing == [] && Sensible(Reads(blocks, fails))
    modifies ob, ob.mem, ob.allocator
    ensures ok <==> ob.failures == old(ob.failures)
    ensures ob.Valid() && ob.objects == old(ob.objects)
    ensures ok ==> failed == fails
    ensures ok && !failed ==> len == |Flatten(blocks)| && len + READ_SIZE <= |ob.growing|
    ensures ok && !failed ==> ob.growing[..len] == Flatten(blocks)
  {
    failed, len := false, 0;
    var i := 0;
    var result := -1;
    while result != 0
      invariant ob.Valid() && ob.objects == old(ob.objects) && ob.failures == old(ob.failures)
      invariant 0 <= i <= |blocks| && !failed
      invariant len == |Flatten(blocks[..i])| && len <= |ob.growing| && ob.growing[..len] == Flatten(blocks[..i])
      invariant result == 0 ==> i == |blocks| && !fails && len + READ_SIZE <= |ob.growing|
      decreases |blocks| - i, if result == 0 then 0 else 1
    {
      ok := ReadBlock(ob, len, if i < |blocks| then blocks[i] else []);
      if !ok {
        return;
      }
      if i < |blocks| {
        result := |blocks[i]|;
        FlattenNext(blocks, i);
        i := i + 1;
      } else if fails {
        failed := true;
        return;
      } else {
        result := 0;
      }
      len := len + result;
    }
    assert blocks[..i] == blocks;
    ok := true;
  }

  /**
    `read_file`.  For every file and every way its reads are cut short, the text
    is the file's bytes and a NUL, in one new object; if the file cannot be
    opened or a read fails the answer is null and the live objects are as before.
   */
  method ReadFile(ob: Obstack, pid: seq<char>, file: Option<seq<char>>, script: File)
    returns (ok: bool, text: nat, len: nat)
    requires ob.Valid() && ob.growing == [] && PathFits(pid, file) && Sensible(script)
    modifies ob, ob.mem, ob.allocator
    ensures ok <==> ob.failures == old(ob.failures)
    ensures ob.Valid()
    ensures ok ==> ob.growing == []
    ensures ok && !Readable(script) ==> text == 0 && ob.objects == old(ob.objects)
    ensures ok && Readable(script) ==>
              && text != 0 && len == |Content(script)|
              && Pushed(old(ob.objects), ob.objects, text)
              && HoldsText(ob.objects[|old(ob.objects)|], Content(script))
  {
    text, len := 0, 0;
    ok := TryPath(ob, pid, file);
    if !ok || script.Missing? {
      return;
    }
    var failed;
    ok, failed, len := ReadLoop(ob, script.blocks, script.fails);
    if !ok {
      return;
    }
    if failed {
      var p := ob.Finish();
      ob.Free(p, |old(ob.objects)|);
      return;
    }
    text := CloseText(ob, len, Content(script));
  }

  /** Close the text with a NUL, in the room left behind it, and finish the object. */
  method CloseText(ob: Obstack, len: nat, ghost content: seq<char>) returns (text: nat)
    requires ob.Valid() && len == |content| < |ob.growing| && ob.growing[..len] == content
    modifies ob, ob.mem
    ensures ob.failures == old(ob.failures)
    ensures ob.Valid() && ob.growing == [] && text != 0 && Pushed(old(ob.objects), ob.objects, text)
    ensures HoldsText(ob.objects[|old(ob.objects)|], content)
  {
    ob.StoreGrowing(len, [NUL]);
    assert ob.growing[..len + 1] == content + [NUL];
    text := FinishText(ob);
  }

  /** `obstack_finish`: the address is never null. */
  method FinishText(ob: Obstack) returns (p: nat)
    requires ob.Valid()
    modifies ob
    ensures ob.failures == old(ob.failures)
    ensures ob.Valid() && ob.growing == [] && p != 0
    ensures Pushed(old(ob.objects), ob.objects, p)
    ensures ob.objects[|old(ob.objects)|].data == old(ob.growing)
  {
    assert ChunkFits(ob.chain[|ob.chain| - 1], ob.alignmentMask);
    p := ob.Finish();
  }
}
