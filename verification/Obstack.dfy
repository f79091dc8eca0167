/**
  The obstack of os/obstack.c and os/obstack.h: a stack of objects kept in a
  linked chain of chunks.  Memory is one flat array of characters indexed by
  address, and the struct at the front of each chunk (`limit`, `prev`) is kept
  in `headers`.
 */
module Obstacks {
  import opened Bits
  import opened ChunkAllocator
  import opened Memory

  /** Offset of `contents` in a chunk: after the two pointers `limit` and `prev`. */
  const HEADER: nat := 16
  const DEFAULT_ALIGNMENT: nat := 16
  const DEFAULT_ROUNDING: nat := 16

  /** The least room a chunk must leave above its header and alignment padding. */
  const MIN_ROOM: nat := 112

  /** The default chunk size: 4096 less `MallocOverhead()`. */
  const DEFAULT_SIZE: nat := 4064

  datatype Header = Header(limit: nat, prev: nat)

  /** A chunk of the chain. */
  datatype Chunk = Chunk(addr: nat, limit: nat)

  /** A finished object: where it starts, its bytes, and the index of its chunk in the chain. */
  datatype Obj = Obj(addr: nat, data: seq<char>, depth: nat) {
    function End(): nat { addr + |data| }
  }

  /** The ownership test of `_obstack_free` and `_obstack_allocated_p`. */
  predicate Owns(c: Chunk, p: nat) {
    c.addr < p <= c.limit
  }

  ghost predicate ChunkFits(c: Chunk, mask: nat) {
    0 < c.addr && c.addr + MIN_ROOM + HEADER + mask <= c.limit < SPACE
  }

  ghost predicate ChunksApart(c: Chunk, d: Chunk) {
    c.limit <= d.addr || d.limit <= c.addr
  }

  ghost predicate ChainOk(chain: seq<Chunk>, mask: nat) {
    && (forall i {:trigger ChunkFits(chain[i], mask)} | 0 <= i < |chain| :: ChunkFits(chain[i], mask))
    && (forall i, j {:trigger ChunksApart(chain[i], chain[j])} | 0 <= i < j < |chain| ::
          ChunksApart(chain[i], chain[j]))
  }

  /** The chunk headers link the chain, newest chunk last. */
  ghost predicate Linked(headers: map<nat, Header>, chain: seq<Chunk>) {
    forall i: nat | i < |chain| :: LinkedAt(headers, chain, i)
  }

  ghost predicate LinkedAt(headers: map<nat, Header>, chain: seq<Chunk>, i: nat)
    requires i < |chain|
  {
    chain[i].addr in headers && headers[chain[i].addr] == Header(chain[i].limit, Below(chain, i))
  }

  /** The `prev` pointer of chunk `i`: the chunk below it, or null. */
  function Below(chain: seq<Chunk>, i: nat): nat
    requires i < |chain|
  {
    if i == 0 then 0 else chain[i - 1].addr
  }

  ghost predicate InChain(chain: seq<Chunk>, a: nat, size: nat) {
    exists i | 0 <= i < |chain| :: chain[i] == Chunk(a, a + size)
  }

  ghost predicate InUseAs(live: map<nat, Block>, c: Chunk) {
    c.addr in live && c.addr + live[c.addr].size == c.limit
  }

  /** The blocks in use are exactly the chunks of the chain. */
  ghost predicate Backed(live: map<nat, Block>, chain: seq<Chunk>) {
    && (forall i {:trigger InUseAs(live, chain[i])} | 0 <= i < |chain| :: InUseAs(live, chain[i]))
    && (forall a {:trigger InChain(chain, a, live[a].size)} | a in live :: InChain(chain, a, live[a].size))
  }

  /** A start address an object may have in chunk `c`. */
  ghost predicate StartOk(c: Chunk, p: nat, mask: nat) {
    c.addr + HEADER <= p <= c.limit && (Aligned(p, mask) || p == c.limit)
  }

  /** A finished object lies in its chunk, and what follows it lies above it. */
  ghost predicate Placed(o: Obj, chain: seq<Chunk>, mask: nat) {
    && o.depth < |chain|
    && StartOk(chain[o.depth], o.addr, mask)
    && o.End() <= chain[o.depth].limit
  }

  ghost predicate Before(o: Obj, p: nat, depth: int) {
    o.depth < depth || (o.depth == depth && o.End() <= p)
  }

  ghost predicate AllBefore(objects: seq<Obj>, p: nat, depth: int) {
    forall k {:trigger Before(objects[k], p, depth)} | 0 <= k < |objects| :: Before(objects[k], p, depth)
  }

  /** All objects lie in chunks below the one with this index. */
  ghost predicate AllBelow(objects: seq<Obj>, depth: int) {
    forall k {:trigger objects[k].depth} | 0 <= k < |objects| :: objects[k].depth < depth
  }

  ghost predicate ObjectsOk(objects: seq<Obj>, chain: seq<Chunk>, mask: nat) {
    && (forall k {:trigger Placed(objects[k], chain, mask)} | 0 <= k < |objects| :: Placed(objects[k], chain, mask))
    && (forall j, k {:trigger Before(objects[j], objects[k].addr, objects[k].depth)} | 0 <= j < k < |objects| ::
          Before(objects[j], objects[k].addr, objects[k].depth))
  }

  ghost predicate AllStored(mem: array<char>, objects: seq<Obj>)
    reads mem
  {
    forall k {:trigger Stored(mem, objects[k].addr, objects[k].data)} | 0 <= k < |objects| ::
      Stored(mem, objects[k].addr, objects[k].data)
  }

  /** No zero-length object lies in the chunk with this index. */
  ghost predicate NoneEmpty(objects: seq<Obj>, depth: int) {
    forall k {:trigger HoldsByte(objects[k], depth)} | 0 <= k < |objects| :: HoldsByte(objects[k], depth)
  }

  ghost predicate HoldsByte(o: Obj, depth: int) {
    o.depth == depth ==> o.data != []
  }

  /** Bytes held from the allocator. */
  ghost function TotalSize(chain: seq<Chunk>): int {
    if chain == [] then 0
    else TotalSize(chain[..|chain| - 1]) + (chain[|chain| - 1].limit - chain[|chain| - 1].addr)
  }

  /** What the allocator has given out at these addresses. */
  ghost function SizesAt(live: map<nat, Block>, addrs: seq<nat>): nat
    requires forall a | a in addrs :: a in live
  {
    if addrs == [] then 0 else SizesAt(live, addrs[1..]) + live[addrs[0]].size
  }

  ghost function AddrsOf(chain: seq<Chunk>): (addrs: seq<nat>)
    ensures |addrs| == |chain| && forall i | 0 <= i < |chain| :: addrs[i] == chain[i].addr
  {
    seq(|chain|, i requires 0 <= i < |chain| => chain[i].addr)
  }

  lemma AddrsAreLive(chain: seq<Chunk>, mask: nat, live: map<nat, Block>)
    requires ChainOk(chain, mask) && Backed(live, chain)
    ensures forall i, j | 0 <= i < j < |chain| :: AddrsOf(chain)[i] != AddrsOf(chain)[j]
    ensures forall a :: a in AddrsOf(chain) <==> a in live
  {
    Distinct(chain, mask);
    forall a ensures a in AddrsOf(chain) <==> a in live {
      if a in live {
        assert InChain(chain, a, live[a].size);
        var i :| 0 <= i < |chain| && chain[i] == Chunk(a, a + live[a].size);
        assert AddrsOf(chain)[i] == a;
      }
      if i :| 0 <= i < |chain| && AddrsOf(chain)[i] == a {
        assert InUseAs(live, chain[i]);
      }
    }
  }

  lemma {:induction false} SizesAppend(live: map<nat, Block>, addrs: seq<nat>, a: nat)
    requires a in live && forall b | b in addrs :: b in live
    ensures SizesAt(live, addrs + [a]) == SizesAt(live, addrs) + live[a].size
  {
    if addrs != [] {
      SizesAppend(live, addrs[1..], a);
      assert (addrs + [a])[1..] == addrs[1..] + [a];
    }
  }

  /** The chunks of the chain together are all that the allocator has given out. */
  lemma {:induction false} TotalIsHeld(chain: seq<Chunk>, live: map<nat, Block>)
    requires forall i {:trigger InUseAs(live, chain[i])} | 0 <= i < |chain| :: InUseAs(live, chain[i])
    ensures (forall a | a in AddrsOf(chain) :: a in live) && TotalSize(chain) == SizesAt(live, AddrsOf(chain))
  {
    forall i | 0 <= i < |chain| ensures AddrsOf(chain)[i] in live {
      assert InUseAs(live, chain[i]);
    }
    if chain != [] {
      var front, top := chain[..|chain| - 1], chain[|chain| - 1];
      forall i | 0 <= i < |front| ensures InUseAs(live, front[i]) {
        assert InUseAs(live, chain[i]);
      }
      TotalIsHeld(front, live);
      assert InUseAs(live, top);
      SizesAppend(live, AddrsOf(front), top.addr);
      assert AddrsOf(chain) == AddrsOf(front) + [top.addr];
    }
  }

  /** The two chunks that own an address are the same chunk. */
  lemma OwnerUnique(chain: seq<Chunk>, mask: nat, p: nat, i: nat, j: nat)
    requires ChainOk(chain, mask) && i < |chain| && j < |chain|
    requires Owns(chain[i], p) && Owns(chain[j], p)
    ensures i == j
  {
    forall a, b | 0 <= a < b < |chain| ensures !(Owns(chain[a], p) && Owns(chain[b], p)) {
      assert ChunksApart(chain[a], chain[b]);
    }
  }

  /** A block the allocator makes available lies apart from every chunk of the chain. */
  lemma FreshApart(chain: seq<Chunk>, mask: nat, live: map<nat, Block>, c: Chunk)
    requires ChainOk(chain, mask) && Backed(live, chain)
    requires c.addr < c.limit
    requires forall a | a in live :: a + live[a].size <= c.addr || c.limit <= a
    ensures forall i | 0 <= i < |chain| :: ChunksApart(chain[i], c) && chain[i].addr != c.addr
  {
    forall i | 0 <= i < |chain| ensures ChunksApart(chain[i], c) && chain[i].addr != c.addr {
      assert InUseAs(live, chain[i]) && ChunkFits(chain[i], mask);
    }
  }

  lemma PushBacked(chain: seq<Chunk>, live: map<nat, Block>, c: Chunk, id: nat)
    requires Backed(live, chain) && c.addr <= c.limit
    requires forall i | 0 <= i < |chain| :: chain[i].addr != c.addr
    ensures Backed(live[c.addr := Block(id, c.limit - c.addr)], chain + [c])
  {
    var live' := live[c.addr := Block(id, c.limit - c.addr)];
    var chain' := chain + [c];
    forall i | 0 <= i < |chain'| ensures InUseAs(live', chain'[i]) {
      assert i < |chain| ==> InUseAs(live, chain[i]);
    }
    forall a | a in live' ensures InChain(chain', a, live'[a].size) {
      if a == c.addr {
        assert chain'[|chain|] == Chunk(a, a + live'[a].size);
      } else {
        assert InChain(chain, a, live[a].size);
        var i :| 0 <= i < |chain| && chain[i] == Chunk(a, a + live[a].size);
        assert chain'[i] == chain[i];
      }
    }
  }

  lemma PushLinked(chain: seq<Chunk>, headers: map<nat, Header>, c: Chunk)
    requires Linked(headers, chain) && |chain| > 0
    requires forall i | 0 <= i < |chain| :: chain[i].addr != c.addr
    ensures Linked(headers[c.addr := Header(c.limit, chain[|chain| - 1].addr)], chain + [c])
  {
    var headers' := headers[c.addr := Header(c.limit, chain[|chain| - 1].addr)];
    forall i: nat | i < |chain + [c]| ensures LinkedAt(headers', chain + [c], i) {
      assert i < |chain| ==> LinkedAt(headers, chain, i);
    }
  }

  lemma DropBacked(chain: seq<Chunk>, mask: nat, live: map<nat, Block>, n: nat)
    requires ChainOk(chain, mask) && Backed(live, chain) && n + 1 == |chain|
    ensures Backed(live - {chain[n].addr}, chain[..n])
  {
    Distinct(chain, mask);
    var live' := live - {chain[n].addr};
    forall i | 0 <= i < n ensures InUseAs(live', chain[..n][i]) {
      assert InUseAs(live, chain[i]);
    }
    forall a | a in live' ensures InChain(chain[..n], a, live'[a].size) {
      assert InChain(chain, a, live[a].size);
      var i :| 0 <= i < |chain| && chain[i] == Chunk(a, a + live[a].size);
      assert chain[..n][i] == chain[i];
    }
  }

  lemma DropLinked(chain: seq<Chunk>, mask: nat, headers: map<nat, Header>, n: nat)
    requires ChainOk(chain, mask) && Linked(headers, chain) && n + 1 == |chain|
    ensures Linked(headers - {chain[n].addr}, chain[..n])
  {
    Distinct(chain, mask);
    forall i: nat | i < n ensures LinkedAt(headers - {chain[n].addr}, chain[..n], i) {
      assert LinkedAt(headers, chain, i);
    }
  }

  lemma Distinct(chain: seq<Chunk>, mask: nat)
    requires ChainOk(chain, mask)
    ensures forall i, j | 0 <= i < j < |chain| :: chain[i].addr != chain[j].addr
  {
    forall i, j | 0 <= i < j < |chain| ensures chain[i].addr != chain[j].addr {
      assert ChunksApart(chain[i], chain[j]) && ChunkFits(chain[i], mask) && ChunkFits(chain[j], mask);
    }
  }

  /**
    The size granted is enough.  Where `sum2 + (obj_size >> 3) + 100` wraps, the
    request is within a few bytes of the whole address space, and no such block
    lies apart from the chunk that holds the object now.
   */
  lemma SizeSuffices(old_: Chunk, c: Chunk, objSize: nat, length: nat, mask: nat, chunkSize: nat)
    requires ChunkFits(old_, mask) && ChunksApart(old_, c) && 0 < c.addr && c.limit < SPACE
    requires old_.addr + HEADER + objSize <= old_.limit
    requires c.addr + objSize + length + mask <= c.limit
    requires MIN_ROOM + HEADER + mask <= chunkSize && c.addr + chunkSize <= c.limit
    requires objSize + length + mask + objSize / 8 + 100 < SPACE ==>
               c.addr + objSize + length + mask + objSize / 8 + 100 <= c.limit
    ensures c.addr + HEADER + mask + objSize + objSize / 8 + length + 84 <= c.limit
  {
    if objSize + length + mask + objSize / 8 + 100 >= SPACE {
      assert false;
    }
  }

  /** Unlinking the chunk below the newest one. */
  lemma UnlinkBacked(chain: seq<Chunk>, mask: nat, live: map<nat, Block>, n: nat)
    requires ChainOk(chain, mask) && Backed(live, chain) && n + 2 == |chain|
    ensures Backed(live - {chain[n].addr}, chain[..n] + [chain[n + 1]])
  {
    Distinct(chain, mask);
    var live' := live - {chain[n].addr};
    var chain' := chain[..n] + [chain[n + 1]];
    forall i | 0 <= i < |chain'| ensures InUseAs(live', chain'[i]) {
      assert InUseAs(live, chain[if i < n then i else n + 1]);
    }
    forall a | a in live' ensures InChain(chain', a, live'[a].size) {
      assert InChain(chain, a, live[a].size);
      var i :| 0 <= i < |chain| && chain[i] == Chunk(a, a + live[a].size);
      assert chain'[if i < n then i else n] == chain[i];
    }
  }

  lemma UnlinkLinked(chain: seq<Chunk>, mask: nat, headers: map<nat, Header>, n: nat)
    requires ChainOk(chain, mask) && Linked(headers, chain) && n + 2 == |chain|
    ensures Linked(headers[chain[n + 1].addr := Header(chain[n + 1].limit, Below(chain, n))] - {chain[n].addr},
                   chain[..n] + [chain[n + 1]])
  {
    Distinct(chain, mask);
    var chain' := chain[..n] + [chain[n + 1]];
    var linked := headers[chain[n + 1].addr := Header(chain[n + 1].limit, Below(chain, n))];
    var headers' := linked - {chain[n].addr};
    forall i: nat | i < |chain'| ensures LinkedAt(headers', chain', i) {
      assert i < n ==> LinkedAt(headers, chain, i);
    }
  }

  /** Objects keep their place when a chunk is added, and when the object-free newest chunk is exchanged. */
  lemma ObjectsPush(objects: seq<Obj>, chain: seq<Chunk>, mask: nat, c: Chunk)
    requires ObjectsOk(objects, chain, mask)
    ensures ObjectsOk(objects, chain + [c], mask)
  {
    forall k | 0 <= k < |objects| ensures Placed(objects[k], chain + [c], mask) {
      assert Placed(objects[k], chain, mask);
    }
  }

  lemma ObjectsExchange(objects: seq<Obj>, chain: seq<Chunk>, mask: nat, n: nat, c: Chunk)
    requires ObjectsOk(objects, chain, mask) && n + 1 == |chain|
    requires AllBelow(objects, n)
    ensures ObjectsOk(objects, chain[..n] + [c], mask)
  {
    forall k | 0 <= k < |objects| ensures Placed(objects[k], chain[..n] + [c], mask) {
      assert Placed(objects[k], chain, mask);
    }
  }

  lemma FinishPlaced(objects: seq<Obj>, chain: seq<Chunk>, mask: nat, o: Obj, next: nat)
    requires ObjectsOk(objects, chain, mask) && Placed(o, chain, mask) && o.End() <= next
    requires AllBefore(objects, o.addr, o.depth)
    ensures ObjectsOk(objects + [o], chain, mask)
    ensures AllBefore(objects + [o], next, o.depth)
  {
    var after := objects + [o];
    forall k | 0 <= k < |after| ensures Placed(after[k], chain, mask) && Before(after[k], next, o.depth) {
      assert k < |objects| ==> Placed(objects[k], chain, mask) && Before(objects[k], o.addr, o.depth);
    }
    forall j, k | 0 <= j < k < |after| ensures Before(after[j], after[k].addr, after[k].depth) {
      assert k < |objects| ==> Before(objects[j], objects[k].addr, objects[k].depth);
      assert k == |objects| ==> Before(objects[j], o.addr, o.depth);
    }
  }

  /** The objects before `k`, seen from the chunk that holds object `k`. */
  lemma FreePlaced(objects: seq<Obj>, chain: seq<Chunk>, mask: nat, k: nat, d: nat)
    requires ObjectsOk(objects, chain, mask) && k <= |objects| && d < |chain|
    requires forall j | 0 <= j < k :: objects[j].depth <= d
    ensures ObjectsOk(objects[..k], chain[..d + 1], mask)
  {
    forall j | 0 <= j < k ensures Placed(objects[..k][j], chain[..d + 1], mask) {
      assert Placed(objects[j], chain, mask);
    }
    forall i, j | 0 <= i < j < k ensures Before(objects[..k][i], objects[..k][j].addr, objects[..k][j].depth) {
      assert Before(objects[i], objects[j].addr, objects[j].depth);
    }
  }

  /** Object `o` after a store of `bytes` at address `p` inside it. */
  function Overwritten(o: Obj, p: nat, bytes: seq<char>): (r: Obj)
    requires o.addr <= p && p + |bytes| <= o.End()
    ensures r.addr == o.addr && r.depth == o.depth && |r.data| == |o.data|
  {
    o.(data := Splice(o.data, p - o.addr, bytes))
  }

  lemma BelowNext(objects: seq<Obj>, chain: seq<Chunk>, mask: nat)
    requires ObjectsOk(objects, chain, mask)
    ensures AllBelow(objects, |chain|)
  {
    forall k | 0 <= k < |objects| ensures objects[k].depth < |chain| {
      assert Placed(objects[k], chain, mask);
    }
  }

  lemma UpdatePlaced(objects: seq<Obj>, chain: seq<Chunk>, mask: nat, k: nat, o: Obj)
    requires ObjectsOk(objects, chain, mask) && k < |objects|
    requires o.addr == objects[k].addr && o.depth == objects[k].depth && |o.data| == |objects[k].data|
    ensures ObjectsOk(objects[k := o], chain, mask)
  {
    var after := objects[k := o];
    forall i | 0 <= i < |objects| ensures Placed(after[i], chain, mask) {
      assert Placed(objects[i], chain, mask);
    }
    forall i, j | 0 <= i < j < |objects| ensures Before(after[i], after[j].addr, after[j].depth) {
      assert Before(objects[i], objects[j].addr, objects[j].depth);
    }
  }

  lemma StartOrEnd(from: nat, limit: nat, mask: nat)
    requires IsMask(mask) && from <= limit < SPACE
    ensures mask < SPACE
    ensures var p := PtrAlign(from, mask);
            && p < SPACE && (p < from ==> p == 0)
            && IsNextStart(if p < from || limit < p then limit else p, from, limit, mask)
  {
    AlignIsLeast(from, mask);
    if from + mask >= SPACE {
      forall a: nat | from <= a < limit ensures !Aligned(a, mask) {
        NoneAbove(from, mask, a);
      }
    }
  }

  /** The first object of a chunk starts at its first aligned address. */
  lemma FirstStart(addr: nat, limit: nat, mask: nat)
    requires IsMask(mask) && addr + HEADER + mask <= limit < SPACE
    ensures mask < SPACE
    ensures var p := PtrAlign(addr + HEADER, mask);
            addr + HEADER <= p <= limit && Aligned(p, mask) && IsNextStart(p, addr + HEADER, limit, mask)
  {
    AlignIsLeast(addr + HEADER, mask);
    StartOrEnd(addr + HEADER, limit, mask);
  }

  /** A chunk is put on top, and the one below it goes if it is unused. */
  ghost predicate Replaced(before: seq<Chunk>, unused: bool, after: seq<Chunk>) {
    && |before| > 0 && |after| > 0
    && after[..|after| - 1] == if unused then before[..|before| - 1] else before
  }

  /** `p` is the least aligned address from `from` to `limit`; `limit` itself when there is none. */
  ghost predicate IsNextStart(p: nat, from: nat, limit: nat, mask: nat) {
    && from <= p <= limit && (Aligned(p, mask) || p == limit)
    && forall a: nat | from <= a < limit && Aligned(a, mask) :: p <= a
  }

  lemma UpdateBefore(objects: seq<Obj>, k: nat, o: Obj, p: nat, depth: int)
    requires k < |objects| && AllBefore(objects, p, depth)
    requires o.addr == objects[k].addr && o.depth == objects[k].depth && |o.data| == |objects[k].data|
    ensures AllBefore(objects[k := o], p, depth)
    ensures NoneEmpty(objects, depth) ==> NoneEmpty(objects[k := o], depth)
  {
    var after := objects[k := o];
    forall i | 0 <= i < |objects| ensures Before(after[i], p, depth) {
      assert Before(objects[i], p, depth);
    }
    if NoneEmpty(objects, depth) {
      forall i | 0 <= i < |objects| ensures HoldsByte(after[i], depth) {
        assert HoldsByte(objects[i], depth);
      }
    }
  }

  ghost predicate Once(s: seq<nat>, x: nat) {
    exists r | 0 <= r < |s| :: s[r] == x && forall q | 0 <= q < |s| && q != r :: s[q] != x
  }

  lemma DefaultMask()
    ensures IsMask(DEFAULT_ALIGNMENT - 1)
  {
    assert Pow2(4) == 16;
  }

  /** `extra` of `_obstack_begin_worker`: malloc's header and slack, each rounded up. */
  method MallocOverhead() returns (extra: nat)
    ensures extra == 4096 - DEFAULT_SIZE
  {
    DefaultMask();
    AlignIsLeast(12, DEFAULT_ROUNDING - 1);
    var head := PtrAlign(12, DEFAULT_ROUNDING - 1);
    assert Aligned(16, DEFAULT_ROUNDING - 1) && head == 16;
    AlignIsLeast(head + 4, DEFAULT_ROUNDING - 1);
    extra := PtrAlign(head + 4, DEFAULT_ROUNDING - 1);
    assert Aligned(32, DEFAULT_ROUNDING - 1) && extra == 32;
  }

  lemma FirstBacked(live: map<nat, Block>, p: nat, limit: nat)
    requires p <= limit && live.Keys == {p} && live[p].size == limit - p
    ensures Backed(live, [Chunk(p, limit)])
  {
    assert [Chunk(p, limit)][0] == Chunk(p, p + live[p].size);
    forall a | a in live ensures InChain([Chunk(p, limit)], a, live[a].size) {
      assert a == p;
    }
  }

  /** With no empty object about, a cursor at the first aligned address means the newest chunk holds no object. */
  lemma TopUnused(objects: seq<Obj>, chain: seq<Chunk>, mask: nat, base: nat)
    requires |chain| > 0 && ChainOk(chain, mask) && IsMask(mask) && mask < SPACE
    requires ObjectsOk(objects, chain, mask)
    requires AllBefore(objects, base, |chain| - 1)
    requires NoneEmpty(objects, |chain| - 1)
    requires chain[|chain| - 1].addr + HEADER < SPACE
    requires base == PtrAlign(chain[|chain| - 1].addr + HEADER, mask)
    ensures AllBelow(objects, |chain| - 1)
  {
    var top := chain[|chain| - 1];
    assert ChunkFits(top, mask);
    AlignIsLeast(top.addr + HEADER, mask);
    forall k | 0 <= k < |objects| ensures objects[k].depth < |chain| - 1 {
      assert Placed(objects[k], chain, mask) && Before(objects[k], base, |chain| - 1);
      assert HoldsByte(objects[k], |chain| - 1);
    }
  }

  function Max(a: nat, b: nat): nat {
    if a < b then b else a
  }

  /** The size of chunk a growing object of `objSize` bytes needs for `length` more. */
  ghost function RequestSize(objSize: nat, length: nat, mask: nat, chunkSize: nat): nat {
    var need := objSize + length + mask;
    var padded := need + objSize / 8 + 100;
    Max(chunkSize, if padded < SPACE then padded else need)
  }

  /** The size `_obstack_newchunk` asks for, and whether its overflow test lets it ask at all. */
  method NewChunkSize(objSize: nat, length: nat, mask: nat, chunkSize: nat) returns (newSize: nat, sane: bool)
    requires objSize < SPACE && length < SPACE && mask < SPACE && chunkSize < SPACE
    ensures newSize < SPACE
    ensures sane <==> objSize + length + mask < SPACE
    ensures sane ==>
              var need := objSize + length + mask;
              var padded := need + objSize / 8 + 100;
              newSize == Max(chunkSize, if padded < SPACE then padded else need)
  {
    var sum1 := AddSize(objSize, length);
    var sum2 := AddSize(sum1, mask);
    newSize := AddSize(AddSize(sum2, objSize / 8), 100);
    if newSize < sum2 {
      newSize := sum2;
    }
    if newSize < chunkSize {
      newSize := chunkSize;
    }
    sane := objSize <= sum1 && sum1 <= sum2;
  }

  class Obstack {
    const mem: array<char>
    const allocator: Allocator
    var headers: map<nat, Header>
    var chunkSize: nat
    var chunk: nat
    var objectBase: nat
    var nextFree: nat
    var chunkLimit: nat
    var alignmentMask: nat
    var maybeEmptyObject: bool
    ghost var chain: seq<Chunk>
    ghost var objects: seq<Obj>
    ghost var growing: seq<char>
    ghost var copied: nat
    ghost var failures: nat

    ghost predicate ChainValid()
      reads this, allocator
    {
      && mem.Length == SPACE
      && allocator.Valid()
      && IsMask(alignmentMask)
      && alignmentMask < SPACE
      && MIN_ROOM + HEADER + alignmentMask <= chunkSize < SPACE
      && ChainOk(chain, alignmentMask)
      && Linked(headers, chain)
      && Backed(allocator.live, chain)
    }

    ghost predicate CursorValid()
      requires |chain| > 0
      reads this
    {
      var top := chain[|chain| - 1];
      && chunk == top.addr
      && chunkLimit == top.limit
      && StartOk(top, objectBase, alignmentMask)
      && objectBase <= nextFree <= top.limit
      && AllBefore(objects, objectBase, |chain| - 1)
      && (!maybeEmptyObject ==> NoneEmpty(objects, |chain| - 1))
    }

    ghost predicate BytesValid()
      reads this, mem
    {
      && AllStored(mem, objects)
      && Stored(mem, objectBase, growing)
      && nextFree == objectBase + |growing|
    }

    ghost predicate Valid()
      reads this, allocator, mem
    {
      && ChainValid()
      && |chain| > 0
      && CursorValid()
      && ObjectsOk(objects, chain, alignmentMask)
      && BytesValid()
    }

    function ObjectSize(): nat
      requires objectBase <= nextFree
      reads this
    {
      nextFree - objectBase
    }

    function Room(): nat
      requires nextFree <= chunkLimit
      reads this
    {
      chunkLimit - nextFree
    }

    constructor (m: array<char>, a: Allocator)
      ensures mem == m && allocator == a
      ensures chain == [] && objects == [] && headers == map[]
    {
      mem, allocator := m, a;
      headers, chunkSize, chunk, objectBase, nextFree, chunkLimit := map[], 0, 0, 0, 0, 0;
      alignmentMask, maybeEmptyObject := 0, false;
      chain, objects, growing, copied, failures := [], [], [], 0, 0;
    }

    /** No chunk for `length` more bytes: the size overflowed, or a request of exactly that size was refused. */
    ghost predicate Asked(before: seq<nat>, objSize: nat, length: nat)
      reads this, allocator
    {
      if objSize + length + alignmentMask >= SPACE then allocator.refused == before
      else allocator.refused == before + [RequestSize(objSize, length, alignmentMask, chunkSize)]
    }

    /** Ask the allocator for a chunk that can take the growing object and `length` more bytes. */
    method Acquire(length: nat) returns (p: nat, size: nat)
      requires Valid() && length < SPACE
      modifies allocator
      ensures allocator.Valid() && allocator.returned == old(allocator.returned)
      ensures p == 0 ==> allocator.live == old(allocator.live)
      ensures p == 0 ==> Asked(old(allocator.refused), ObjectSize(), length)
      ensures p != 0 ==>
                && allocator.refused == old(allocator.refused)
                && size == RequestSize(ObjectSize(), length, alignmentMask, chunkSize)
                && p + size < SPACE
                && ChunkFits(Chunk(p, p + size), alignmentMask)
                && (forall i | 0 <= i < |chain| :: ChunksApart(chain[i], Chunk(p, p + size)) && chain[i].addr != p)
                && size >= HEADER + alignmentMask + ObjectSize() + ObjectSize() / 8 + length
                && Backed(allocator.live, chain + [Chunk(p, p + size)])
    {
      var newSize, sane := NewChunkSize(ObjectSize(), length, alignmentMask, chunkSize);
      size := newSize;
      p := 0;
      if sane {
        p := allocator.Alloc(newSize);
        if p != 0 {
          var c := Chunk(p, p + newSize);
          FreshApart(chain, alignmentMask, old(allocator.live), c);
          PushBacked(chain, old(allocator.live), c, old(allocator.served));
          assert ChunksApart(chain[|chain| - 1], c);
          SizeSuffices(chain[|chain| - 1], c, ObjectSize(), length, alignmentMask, chunkSize);
        }
      }
    }

    /** Put `newChunk` on top of the chain; `mem` and the growing object are not touched yet. */
    method LinkChunk(newChunk: nat, size: nat)
      requires |chain| > 0 && chunk == chain[|chain| - 1].addr
      requires ChainOk(chain, alignmentMask) && Linked(headers, chain)
      requires newChunk + size < SPACE && ChunkFits(Chunk(newChunk, newChunk + size), alignmentMask)
      requires forall i | 0 <= i < |chain| ::
                 ChunksApart(chain[i], Chunk(newChunk, newChunk + size)) && chain[i].addr != newChunk
      modifies this`chunk, this`headers, this`chunkLimit, this`chain
      ensures chain == old(chain) + [Chunk(newChunk, newChunk + size)]
      ensures chunk == newChunk && chunkLimit == newChunk + size
      ensures ChainOk(chain, alignmentMask) && Linked(headers, chain)
    {
      PushLinked(chain, headers, Chunk(newChunk, newChunk + size));
      var oldChunk := chunk;
      chunk := newChunk;
      chunkLimit := newChunk + size;
      headers := headers[newChunk := Header(chunkLimit, oldChunk)];
      chain := chain + [Chunk(newChunk, chunkLimit)];
    }

    /** Take the chunk below the newest one out of the chain and give it back. */
    method ReleaseBelow(oldChunk: nat)
      requires ChainValid() && |chain| > 1
      requires chunk == chain[|chain| - 1].addr && oldChunk == chain[|chain| - 2].addr
      modifies this`headers, this`chain, allocator
      ensures allocator.refused == old(allocator.refused)
      ensures ChainValid()
      ensures chain == old(chain)[..|old(chain)| - 2] + [old(chain)[|old(chain)| - 1]]
    {
      ghost var n := |chain| - 2;
      UnlinkBacked(chain, alignmentMask, allocator.live, n);
      UnlinkLinked(chain, alignmentMask, headers, n);
      assert LinkedAt(headers, chain, n) && LinkedAt(headers, chain, n + 1);
      headers := headers[chunk := headers[chunk].(prev := headers[oldChunk].prev)];
      assert InUseAs(allocator.live, chain[n]);
      allocator.Free(oldChunk);
      headers := headers - {oldChunk};
      chain := chain[..n] + [chain[n + 1]];
    }

    /** `memcpy` of `data`, already in memory at `src`, to `dst`; the two must not overlap. */
    method CopyBytes(dst: nat, src: nat, n: nat, ghost data: seq<char>)
      requires dst + n <= mem.Length && src + n <= mem.Length && (dst + n <= src || src + n <= dst)
      requires |data| == n && Stored(mem, src, data)
      modifies mem
      ensures Stored(mem, dst, data)
      ensures forall p: nat, d: seq<char> {:trigger Stored(mem, p, d)} ::
                old(Stored(mem, p, d)) && (p + |d| <= dst || dst + n <= p) ==> Stored(mem, p, d)
    {
      forall i | 0 <= i < n {
        mem[dst + i] := mem[src + i];
      }
    }

    /** Link the block just obtained and copy the growing object to its first aligned address. */
    method MoveTo(newChunk: nat, size: nat) returns (base: nat)
      requires MovePending(Chunk(newChunk, newChunk + size))
      modifies this`chunk, this`headers, this`chunkLimit, this`chain, mem
      ensures ChainValid() && chain == old(chain) + [Chunk(newChunk, newChunk + size)]
      ensures chunk == newChunk && chunkLimit == newChunk + size
      ensures newChunk + HEADER <= base <= newChunk + HEADER + alignmentMask && Aligned(base, alignmentMask)
      ensures AllStored(mem, objects)
      ensures Stored(mem, base, growing)
    {
      LinkChunk(newChunk, size);
      AlignIsLeast(newChunk + HEADER, alignmentMask);
      base := PtrAlign(newChunk + HEADER, alignmentMask);
      CopyBytes(base, objectBase, nextFree - objectBase, growing);
      forall k | 0 <= k < |objects| ensures Stored(mem, objects[k].addr, objects[k].data) {
        assert old(Stored(mem, objects[k].addr, objects[k].data)) && Placed(objects[k], old(chain), alignmentMask);
      }
    }

    /** The state between obtaining block `c` and linking it. */
    ghost predicate MovePending(c: Chunk)
      reads this, allocator, mem
    {
      && mem.Length == SPACE
      && allocator.Valid()
      && IsMask(alignmentMask)
      && alignmentMask < SPACE
      && MIN_ROOM + HEADER + alignmentMask <= chunkSize < SPACE
      && ChainOk(chain, alignmentMask)
      && Linked(headers, chain)
      && |chain| > 0 && chunk == chain[|chain| - 1].addr
      && chunk <= objectBase && nextFree <= chain[|chain| - 1].limit
      && ObjectsOk(objects, chain, alignmentMask)
      && BytesValid()
      && ChunkFits(c, alignmentMask)
      && c.limit - c.addr >= HEADER + alignmentMask + |growing|
      && (forall i | 0 <= i < |chain| :: ChunksApart(chain[i], c) && chain[i].addr != c.addr)
      && Backed(allocator.live, chain + [c])
    }

    /** The test of `_obstack_newchunk`: chunk `c` holds nothing but the growing object. */
    ghost predicate Unused(c: nat)
      reads this
    {
      && c + HEADER < SPACE && alignmentMask < SPACE
      && !maybeEmptyObject && objectBase == PtrAlign(c + HEADER, alignmentMask)
    }

    /** Give back the chunk the object was copied from, unless it may hold a finished object. */
    method RetireOld(oldChunk: nat, ghost was: seq<Chunk>)
      requires ChainValid() && |was| > 0 && |chain| == |was| + 1 && chain[..|was|] == was
      requires chunk == chain[|was|].addr && oldChunk == was[|was| - 1].addr
      requires ObjectsOk(objects, was, alignmentMask)
      requires AllBefore(objects, objectBase, |was| - 1)
      requires !maybeEmptyObject ==>
                 NoneEmpty(objects, |was| - 1)
      modifies this`headers, this`chain, allocator
      ensures allocator.refused == old(allocator.refused)
      ensures ChainValid() && |chain| > 0 && chain[|chain| - 1] == old(chain)[|was|]
      ensures ObjectsOk(objects, chain, alignmentMask)
      ensures AllBelow(objects, |chain| - 1)
      ensures Replaced(was, old(Unused(oldChunk)), chain)
    {
      ghost var c := chain[|was|];
      assert chain == was + [c];
      assert ChunkFits(chain[|was| - 1], alignmentMask);
      if !maybeEmptyObject && objectBase == PtrAlign(oldChunk + HEADER, alignmentMask) {
        TopUnused(objects, was, alignmentMask, objectBase);
        ReleaseBelow(oldChunk);
        ObjectsExchange(objects, was, alignmentMask, |was| - 1, c);
        assert chain == was[..|was| - 1] + [c];
      } else {
        ObjectsPush(objects, was, alignmentMask, c);
        BelowNext(objects, was, alignmentMask);
      }
    }

    /** The growing object, already copied, continues at `base` in the newest chunk. */
    method ResumeAt(base: nat, objSize: nat)
      requires ChainValid() && |chain| > 0
      requires chunk == chain[|chain| - 1].addr && chunkLimit == chain[|chain| - 1].limit
      requires chunk + HEADER <= base && base + objSize <= chunkLimit && Aligned(base, alignmentMask)
      requires ObjectsOk(objects, chain, alignmentMask)
      requires AllBelow(objects, |chain| - 1)
      requires AllStored(mem, objects)
      requires Stored(mem, base, growing) && |growing| == objSize
      modifies this`objectBase, this`nextFree, this`maybeEmptyObject, this`copied
      ensures Valid() && objectBase == base && !maybeEmptyObject && copied == old(copied) + objSize
    {
      objectBase := base;
      nextFree := base + objSize;
      maybeEmptyObject := false;
      copied := copied + objSize;
    }

    /** Nothing has moved since. */
    twostate predicate CursorKept()
      reads this
    {
      unchanged(`headers, `chunk, `objectBase, `nextFree, `chunkLimit, `maybeEmptyObject, `chain, `copied)
    }

    /** Move the growing object to a new chunk with room for `length` more bytes (`_obstack_newchunk`). */
    method NewChunk(length: nat) returns (ok: bool)
      requires Valid() && length < SPACE
      modifies this, allocator, mem
      ensures Valid()
      ensures objects == old(objects) && growing == old(growing)
      ensures chunkSize == old(chunkSize) && alignmentMask == old(alignmentMask)
      ensures ok <==> failures == old(failures)
      ensures !ok ==> CursorKept() && allocator.live == old(allocator.live)
      ensures !ok ==> Asked(old(allocator.refused), |growing|, length)
      ensures ok ==> allocator.refused == old(allocator.refused)
      ensures ok ==> chunkLimit - chunk == RequestSize(|growing|, length, alignmentMask, chunkSize)
      ensures ok ==>
                && Room() >= length
                && Aligned(objectBase, alignmentMask)
                && chunkLimit - objectBase >= |growing| + |growing| / 8 + length
                && copied == old(copied) + |growing|
                && Replaced(old(chain), old(Unused(chunk)), chain)
    {
      var newChunk, newSize := Acquire(length);
      ok := newChunk != 0;
      if ok {
        Relocate(newChunk, newSize);
      } else {
        failures := failures + 1;
      }
    }

    /** `_obstack_newchunk` once it has its block: move the growing object there and retire the old chunk. */
    method Relocate(newChunk: nat, newSize: nat)
      requires MovePending(Chunk(newChunk, newChunk + newSize)) && CursorValid()
      modifies this, allocator, mem
      ensures Valid()
      ensures objects == old(objects) && growing == old(growing)
      ensures chunkSize == old(chunkSize) && alignmentMask == old(alignmentMask)
      ensures Aligned(objectBase, alignmentMask)
      ensures chunkLimit - objectBase >= newSize - HEADER - alignmentMask
      ensures chunk == newChunk && chunkLimit == newChunk + newSize && allocator.refused == old(allocator.refused)
      ensures copied == old(copied) + |growing| && failures == old(failures)
      ensures Replaced(old(chain), old(Unused(chunk)), chain)
    {
      var oldChunk := chunk;
      var objSize := ObjectSize();
      var base := MoveTo(newChunk, newSize);
      RetireOld(oldChunk, old(chain));
      ResumeAt(base, objSize);
    }

    /** Write `data` at `dst`. */
    method PutBytes(dst: nat, data: seq<char>)
      requires dst + |data| <= mem.Length
      modifies mem
      ensures Stored(mem, dst, data)
      ensures forall p: nat, d: seq<char> {:trigger Stored(mem, p, d)} ::
                old(Stored(mem, p, d)) && (p + |d| <= dst || dst + |data| <= p) ==> Stored(mem, p, d)
    {
      forall i | 0 <= i < |data| {
        mem[dst + i] := data[i];
      }
    }

    /** Make sure `length` more bytes fit (`obstack_make_room`, the first half of every growing macro). */
    method MakeRoom(length: nat) returns (ok: bool)
      requires Valid() && length < SPACE
      modifies this, allocator, mem
      ensures Valid()
      ensures objects == old(objects) && growing == old(growing)
      ensures chunkSize == old(chunkSize) && alignmentMask == old(alignmentMask)
      ensures ok <==> failures == old(failures)
      ensures !ok ==> old(Room()) < length && CursorKept() && allocator.live == old(allocator.live)
      ensures !ok ==> Asked(old(allocator.refused), |growing|, length)
      ensures ok ==> Room() >= length && allocator.refused == old(allocator.refused)
      ensures ok && old(Room()) < length ==>
                chunkLimit - chunk == RequestSize(|growing|, length, alignmentMask, chunkSize)
      ensures old(Room()) >= length ==> unchanged(this)
      ensures ok && old(Room()) < length ==>
                && chunkLimit - objectBase >= |growing| + |growing| / 8 + length
                && copied == old(copied) + |growing|
    {
      ok := true;
      if Room() < length {
        ok := NewChunk(length);
      }
    }

    /** A live object is in memory. */
    lemma ObjectStored(k: nat)
      requires Valid() && k < |objects|
      ensures Stored(mem, objects[k].addr, objects[k].data)
    {
    }

    /** No finished object overlaps the part of the newest chunk from the growing object on. */
    lemma ObjectsClear()
      requires Valid()
      ensures forall k | 0 <= k < |objects| :: objects[k].End() <= objectBase || chunkLimit <= objects[k].addr
    {
      var top := |chain| - 1;
      forall k | 0 <= k < |objects| ensures objects[k].End() <= objectBase || chunkLimit <= objects[k].addr {
        assert Placed(objects[k], chain, alignmentMask) && Before(objects[k], objectBase, top);
        assert objects[k].depth < top ==> ChunksApart(chain[objects[k].depth], chain[top]);
      }
    }

    /** The newest chunk lies in the address space. */
    lemma TopFits()
      requires Valid()
      ensures 0 < chunk && chunk + MIN_ROOM + HEADER + alignmentMask <= chunkLimit < SPACE
    {
      assert ChunkFits(chain[|chain| - 1], alignmentMask);
    }

    /** Write `data` behind the growing object, into the room already made. */
    method WriteRoom(data: seq<char>)
      requires Valid() && |data| <= Room()
      modifies mem
      ensures Valid() && Stored(mem, nextFree, data)
    {
      ObjectsClear();
      TopFits();
      PutBytes(nextFree, data);
      assert old(Stored(mem, objectBase, growing));
      forall k | 0 <= k < |objects| ensures Stored(mem, objects[k].addr, objects[k].data) {
        assert old(Stored(mem, objects[k].addr, objects[k].data));
      }
    }

    /** `obstack_blank_fast`: take `n` bytes of the room, whatever they hold, into the growing object. */
    method BlankFast(n: nat, ghost taken: seq<char>)
      requires Valid() && n == |taken| <= Room() && Stored(mem, nextFree, taken)
      modifies this`nextFree, this`growing
      ensures Valid() && growing == old(growing) + taken
    {
      nextFree := nextFree + n;
      growing := growing + taken;
    }

    /** `obstack_grow`. */
    method Grow(data: seq<char>) returns (ok: bool)
      requires Valid() && |data| < SPACE
      modifies this, allocator, mem
      ensures Valid() && objects == old(objects)
      ensures chunkSize == old(chunkSize) && alignmentMask == old(alignmentMask)
      ensures growing == if ok then old(growing) + data else old(growing)
      ensures (ok <==> failures == old(failures)) && (!ok ==> old(Room()) < |data|)
      ensures !ok ==> Asked(old(allocator.refused), |old(growing)|, |data|)
      ensures ok ==> allocator.refused == old(allocator.refused)
      ensures ok && old(Room()) < |data| ==>
                chunkLimit - chunk == RequestSize(|old(growing)|, |data|, alignmentMask, chunkSize)
    {
      ok := MakeRoom(|data|);
      if ok {
        WriteRoom(data);
        BlankFast(|data|, data);
      }
    }

    /** `obstack_1grow`; the copying it causes is at most one copy of the object grown so far. */
    method OneGrow(c: char) returns (ok: bool)
      requires Valid()
      modifies this, allocator, mem
      ensures Valid() && objects == old(objects)
      ensures chunkSize == old(chunkSize) && alignmentMask == old(alignmentMask)
      ensures growing == if ok then old(growing) + [c] else old(growing)
      ensures (ok <==> failures == old(failures)) && (!ok ==> old(Room()) == 0)
      ensures !ok ==> Asked(old(allocator.refused), |old(growing)|, 1)
      ensures !ok ==> copied == old(copied)
      ensures ok && old(Room()) > 0 ==>
                copied == old(copied) && objectBase == old(objectBase) && chunkLimit == old(chunkLimit)
      ensures ok && old(Room()) == 0 ==>
                && copied == old(copied) + |old(growing)|
                && chunkLimit - objectBase >= |old(growing)| + |old(growing)| / 8 + 1
    {
      ok := MakeRoom(1);
      if ok {
        WriteRoom([c]);
        BlankFast(1, [c]);
      }
    }

    /** `obstack_blank`: the new bytes may hold anything. */
    method Blank(n: nat) returns (ok: bool)
      requires Valid() && n < SPACE
      modifies this, allocator, mem
      ensures Valid() && objects == old(objects)
      ensures chunkSize == old(chunkSize) && alignmentMask == old(alignmentMask)
      ensures ok ==> |growing| == |old(growing)| + n && old(growing) <= growing
      ensures !ok ==> growing == old(growing)
      ensures (ok <==> failures == old(failures)) && (!ok ==> old(Room()) < n)
      ensures !ok ==> Asked(old(allocator.refused), |old(growing)|, n)
    {
      ok := MakeRoom(n);
      if ok {
        TopFits();
        BlankFast(n, mem[nextFree..nextFree + n]);
      }
    }

    /** Where the next object may start: the cursor rounded up, or the end of the chunk if that is beyond it. */
    method NextStart() returns (p: nat)
      requires IsMask(alignmentMask) && 0 < chunk <= nextFree <= chunkLimit < SPACE
      ensures IsNextStart(p, nextFree, chunkLimit, alignmentMask)
    {
      StartOrEnd(nextFree, chunkLimit, alignmentMask);
      p := PtrAlign(nextFree, alignmentMask);
      if SubSize(p, chunk) > SubSize(chunkLimit, chunk) {
        p := chunkLimit;
      }
    }

    lemma FinishKeeps(o: Obj)
      requires Valid() && o == Obj(objectBase, growing, |chain| - 1)
      ensures AllStored(mem, objects + [o])
      ensures !maybeEmptyObject && growing != [] ==> NoneEmpty(objects + [o], |chain| - 1)
    {
      var after := objects + [o];
      forall k | 0 <= k < |after| ensures Stored(mem, after[k].addr, after[k].data) {
        assert k < |objects| ==> Stored(mem, objects[k].addr, objects[k].data);
      }
      if !maybeEmptyObject && growing != [] {
        forall k | 0 <= k < |after| ensures HoldsByte(after[k], |chain| - 1) {
          assert k < |objects| ==> HoldsByte(objects[k], |chain| - 1);
        }
      }
    }

    /** `obstack_finish`. */
    method Finish() returns (value: nat)
      requires Valid()
      modifies this
      ensures Valid() && growing == []
      ensures chunkSize == old(chunkSize) && alignmentMask == old(alignmentMask)
      ensures value == old(objectBase)
      ensures objects == old(objects) + [Obj(value, old(growing), |old(chain)| - 1)]
      ensures IsNextStart(objectBase, old(nextFree), chunkLimit, alignmentMask)
      ensures maybeEmptyObject == (old(maybeEmptyObject) || old(growing) == [])
      ensures chain == old(chain) && failures == old(failures)
    {
      value := objectBase;
      TopFits();
      var next := NextStart();
      FinishPlaced(objects, chain, alignmentMask, Obj(value, growing, |chain| - 1), next);
      FinishKeeps(Obj(value, growing, |chain| - 1));
      maybeEmptyObject := maybeEmptyObject || nextFree == value;
      StartNext(next, objects + [Obj(value, growing, |chain| - 1)]);
    }

    /** With `done` finished, nothing is growing and the cursor is at `next`. */
    method StartNext(next: nat, ghost done: seq<Obj>)
      requires ChainValid() && |chain| > 0 && next <= mem.Length
      requires chunk == chain[|chain| - 1].addr && chunkLimit == chain[|chain| - 1].limit
      requires StartOk(chain[|chain| - 1], next, alignmentMask)
      requires ObjectsOk(done, chain, alignmentMask) && AllBefore(done, next, |chain| - 1) && AllStored(mem, done)
      requires !maybeEmptyObject ==> NoneEmpty(done, |chain| - 1)
      modifies this`objectBase, this`nextFree, this`objects, this`growing
      ensures Valid() && objects == done && growing == [] && objectBase == next
    {
      objectBase, nextFree := next, next;
      objects := done;
      growing := [];
    }

    /** `_obstack_allocated_p`: whether some chunk owns the address. */
    method AllocatedP(obj: nat) returns (found: bool)
      requires Valid()
      ensures found <==> exists i | 0 <= i < |chain| :: Owns(chain[i], obj)
    {
      var lp := chunk;
      ghost var n := |chain|;
      assert LinkedAt(headers, chain, n - 1) && ChunkFits(chain[n - 1], alignmentMask);
      while lp != 0 && (lp >= obj || headers[lp].limit < obj)
        invariant 0 <= n <= |chain| && lp == Below(chain + [Chunk(0, 0)], n)
        invariant n > 0 ==> LinkedAt(headers, chain, n - 1) && lp != 0
        invariant forall i | n <= i < |chain| :: !Owns(chain[i], obj)
        decreases n
      {
        lp := headers[lp].prev;
        n := n - 1;
        assert n > 0 ==> LinkedAt(headers, chain, n - 1) && ChunkFits(chain[n - 1], alignmentMask);
      }
      assert lp != 0 ==> Owns(chain[n - 1], obj);
      found := lp != 0;
    }

    /** `_obstack_memory_used`. */
    method MemoryUsed() returns (nbytes: nat, ghost addrs: seq<nat>)
      requires Valid()
      ensures nbytes == TotalSize(chain)
      ensures forall i, j | 0 <= i < j < |addrs| :: addrs[i] != addrs[j]
      ensures (forall a :: a in addrs <==> a in allocator.live) && nbytes == SizesAt(allocator.live, addrs)
    {
      addrs := AddrsOf(chain);
      AddrsAreLive(chain, alignmentMask, allocator.live);
      TotalIsHeld(chain, allocator.live);
      nbytes := 0;
      var lp := chunk;
      ghost var n := |chain|;
      assert LinkedAt(headers, chain, n - 1) && ChunkFits(chain[n - 1], alignmentMask);
      assert chain[..n] == chain;
      while lp != 0
        invariant 0 <= n <= |chain| && lp == Below(chain + [Chunk(0, 0)], n)
        invariant n > 0 ==> LinkedAt(headers, chain, n - 1) && ChunkFits(chain[n - 1], alignmentMask)
        invariant nbytes + TotalSize(chain[..n]) == TotalSize(chain)
        decreases n
      {
        assert chain[..n][..n - 1] == chain[..n - 1];
        nbytes := nbytes + (headers[lp].limit - lp);
        lp := headers[lp].prev;
        n := n - 1;
        assert n > 0 ==> LinkedAt(headers, chain, n - 1) && ChunkFits(chain[n - 1], alignmentMask);
      }
    }

    /** The loop of `_obstack_free`: release chunks, newest first, until one owns `obj`. */
    method ReleaseUntil(obj: nat) returns (lp: nat)
      requires ChainValid() && |chain| > 0 && chunk == chain[|chain| - 1].addr
      modifies this`headers, this`chain, this`maybeEmptyObject, allocator
      ensures ChainValid() && chain <= old(chain)
      ensures forall i | |chain| <= i < |old(chain)| :: !Owns(old(chain)[i], obj)
      ensures if chain == [] then lp == 0 else Owns(chain[|chain| - 1], obj) && lp == chain[|chain| - 1].addr && lp != 0
      ensures chain != [] ==> LinkedAt(headers, chain, |chain| - 1)
      ensures maybeEmptyObject == (old(maybeEmptyObject) || |chain| < |old(chain)|)
    {
      lp := chunk;
      assert LinkedAt(headers, chain, |chain| - 1) && ChunkFits(chain[|chain| - 1], alignmentMask);
      while lp != 0 && (lp >= obj || headers[lp].limit < obj)
        invariant ChainValid() && chain <= old(chain)
        invariant if |chain| == 0 then lp == 0 else lp == chain[|chain| - 1].addr
        invariant |chain| > 0 ==> LinkedAt(headers, chain, |chain| - 1) && lp != 0
        invariant forall i | |chain| <= i < |old(chain)| :: !Owns(old(chain)[i], obj)
        invariant maybeEmptyObject == (old(maybeEmptyObject) || |chain| < |old(chain)|)
        decreases |chain|
      {
        var plp := headers[lp].prev;
        DropNewest(lp);
        lp := plp;
        maybeEmptyObject := true;
        assert |chain| > 0 ==> LinkedAt(headers, chain, |chain| - 1) && ChunkFits(chain[|chain| - 1], alignmentMask);
      }
    }

    /** `_obstack_free`: release chunks until one owns `obj`; abort if none does and `obj` is not null. */
    method FreeChunks(obj: nat) returns (aborted: bool)
      requires ChainValid() && |chain| > 0
      requires chunk == chain[|chain| - 1].addr && chunkLimit == chain[|chain| - 1].limit
      modifies this`headers, this`chain, this`chunk, this`chunkLimit, this`objectBase, this`nextFree,
               this`maybeEmptyObject, allocator
      ensures ChainValid() && chain <= old(chain)
      ensures forall i | |chain| <= i < |old(chain)| :: !Owns(old(chain)[i], obj)
      ensures aborted <==> chain == [] && obj != 0
      ensures |chain| > 0 ==>
                && Owns(chain[|chain| - 1], obj)
                && chunk == chain[|chain| - 1].addr && chunkLimit == chain[|chain| - 1].limit
                && objectBase == nextFree == obj
      ensures maybeEmptyObject == (old(maybeEmptyObject) || |chain| < |old(chain)|)
    {
      var lp := ReleaseUntil(obj);
      aborted := false;
      if lp != 0 {
        objectBase, nextFree := obj, obj;
        chunkLimit := headers[lp].limit;
        chunk := lp;
      } else if obj != 0 {
        aborted := true;
      }
    }

    /** Give back the newest chunk. */
    method DropNewest(lp: nat)
      requires ChainValid() && |chain| > 0 && lp == chain[|chain| - 1].addr
      modifies this`headers, this`chain, allocator
      ensures ChainValid() && chain == old(chain)[..|old(chain)| - 1]
    {
      ghost var n := |chain| - 1;
      DropBacked(chain, alignmentMask, allocator.live, n);
      DropLinked(chain, alignmentMask, headers, n);
      assert InUseAs(allocator.live, chain[n]);
      allocator.Free(lp);
      headers := headers - {lp};
      chain := chain[..n];
    }

    /** The address at which object `k` starts; `k == |objects|` is the growing object. */
    ghost function StartOf(k: nat): nat
      requires k <= |objects|
      reads this
    {
      if k < |objects| then objects[k].addr else objectBase
    }

    /** The index in the chain of the chunk that holds object `k`. */
    ghost function DepthOf(k: nat): nat
      requires k <= |objects| && |chain| > 0
      reads this
    {
      if k < |objects| then objects[k].depth else |chain| - 1
    }

    /** Every live object, zero-length ones at a chunk's limit included, is owned by exactly one chunk: its own. */
    lemma OwnerOfObject(k: nat, i: nat)
      requires Valid() && k <= |objects| && i < |chain|
      ensures DepthOf(k) < |chain|
      ensures Owns(chain[i], StartOf(k)) <==> i == DepthOf(k)
    {
      assert k < |objects| ==> Placed(objects[k], chain, alignmentMask);
      var d := DepthOf(k);
      assert ChunkFits(chain[d], alignmentMask) && StartOk(chain[d], StartOf(k), alignmentMask);
      if Owns(chain[i], StartOf(k)) {
        OwnerUnique(chain, alignmentMask, StartOf(k), i, d);
      }
    }

    /** The objects before `k` are placed in the chunks up to the one that holds `k`, and end before it starts. */
    lemma FreeKeeps(k: nat)
      requires Valid() && k <= |objects|
      ensures DepthOf(k) < |chain|
      ensures StartOk(chain[DepthOf(k)], StartOf(k), alignmentMask)
      ensures ObjectsOk(objects[..k], chain[..DepthOf(k) + 1], alignmentMask)
      ensures AllBefore(objects[..k], StartOf(k), DepthOf(k))
    {
      assert k < |objects| ==> Placed(objects[k], chain, alignmentMask);
      forall j | 0 <= j < k ensures Before(objects[j], StartOf(k), DepthOf(k)) {
        assert k < |objects| ==> Before(objects[j], objects[k].addr, objects[k].depth);
      }
      FreePlaced(objects, chain, alignmentMask, k, DepthOf(k));
    }

    /**
      `obstack_free` of a live object (or of the growing one): it and everything
      allocated after it is gone, everything before it stays.  It never aborts.
     */
    method Free(obj: nat, ghost k: nat)
      requires Valid() && k <= |objects| && obj == StartOf(k)
      modifies this, allocator
      ensures Valid() && growing == []
      ensures chunkSize == old(chunkSize) && alignmentMask == old(alignmentMask)
      ensures objects == old(objects)[..k]
      ensures objectBase == obj && old(DepthOf(k)) < |old(chain)|
      ensures chain == old(chain)[..old(DepthOf(k)) + 1] && failures == old(failures)
    {
      FreeKeeps(k);
      PrefixKeeps(k);
      MoveCursor(obj, k);
      Truncate(k, old(DepthOf(k)));
    }

    lemma PrefixKeeps(k: nat)
      requires Valid() && k <= |objects| && DepthOf(k) < |chain|
      ensures AllStored(mem, objects[..k]) && chain[DepthOf(k)].limit <= mem.Length
      ensures !maybeEmptyObject ==> NoneEmpty(objects[..k], |chain| - 1)
    {
      assert ChunkFits(chain[DepthOf(k)], alignmentMask);
      forall j | 0 <= j < k ensures Stored(mem, objects[..k][j].addr, objects[..k][j].data) {
        assert Stored(mem, objects[j].addr, objects[j].data);
      }
      if !maybeEmptyObject {
        forall j | 0 <= j < k ensures HoldsByte(objects[..k][j], |chain| - 1) {
          assert HoldsByte(objects[j], |chain| - 1);
        }
      }
    }

    /** Forget the objects from `k` on, once the cursor is where object `k` was. */
    ghost method Truncate(k: nat, d: nat)
      requires ChainValid() && |chain| == d + 1 && k <= |objects| && chain[d].limit <= mem.Length
      requires chunk == chain[d].addr && chunkLimit == chain[d].limit
      requires objectBase == nextFree && StartOk(chain[d], objectBase, alignmentMask)
      requires ObjectsOk(objects[..k], chain, alignmentMask) && AllBefore(objects[..k], objectBase, d)
      requires AllStored(mem, objects[..k]) && (!maybeEmptyObject ==> NoneEmpty(objects[..k], d))
      modifies this`objects, this`growing
      ensures Valid() && growing == [] && objects == old(objects)[..k]
    {
      objects := objects[..k];
      growing := [];
    }

    /** Put the cursor at `obj`: in the newest chunk at once, else by way of `_obstack_free`. */
    method MoveCursor(obj: nat, ghost k: nat)
      requires Valid() && k <= |objects| && obj == StartOf(k)
      modifies this`headers, this`chain, this`chunk, this`chunkLimit, this`objectBase, this`nextFree,
               this`maybeEmptyObject, allocator
      ensures ChainValid() && old(DepthOf(k)) < |old(chain)| && chain == old(chain)[..old(DepthOf(k)) + 1]
      ensures chunk == chain[|chain| - 1].addr && chunkLimit == chain[|chain| - 1].limit
      ensures objectBase == nextFree == obj
      ensures maybeEmptyObject == (old(maybeEmptyObject) || |chain| < |old(chain)|)
    {
      if obj > chunk && obj < chunkLimit {
        OwnerOfObject(k, |chain| - 1);
        objectBase, nextFree := obj, obj;
      } else {
        Unwind(obj, k);
      }
    }

    /** The call of `_obstack_free` stops at the chunk of object `k`. */
    method Unwind(obj: nat, ghost k: nat)
      requires Valid() && k <= |objects| && obj == StartOf(k)
      modifies this`headers, this`chain, this`chunk, this`chunkLimit, this`objectBase, this`nextFree,
               this`maybeEmptyObject, allocator
      ensures ChainValid() && old(DepthOf(k)) < |old(chain)| && chain == old(chain)[..old(DepthOf(k)) + 1]
      ensures chunk == chain[|chain| - 1].addr && chunkLimit == chain[|chain| - 1].limit
      ensures objectBase == nextFree == obj
      ensures maybeEmptyObject == (old(maybeEmptyObject) || |chain| < |old(chain)|)
    {
      forall i: nat | i < |chain| ensures Owns(chain[i], obj) <==> i == DepthOf(k) {
        OwnerOfObject(k, i);
      }
      FreeKeeps(k);
      assert Owns(chain[DepthOf(k)], obj);
      var aborted := FreeChunks(obj);
      assert !aborted;
    }

    /** `obstack_free (h, NULL)`: every chunk goes back. */
    method FreeAll()
      requires Valid()
      modifies this, allocator
      ensures ChainValid() && chain == [] && objects == [] && growing == []
      ensures allocator.live == map[] && failures == old(failures)
    {
      assert !(0 > chunk && 0 < chunkLimit);
      var aborted := FreeChunks(0);
      objects, growing := [], [];
      assert allocator.live == map[] by {
        forall a: nat ensures a !in allocator.live {
          assert a in allocator.live ==> InChain(chain, a, allocator.live[a].size);
        }
      }
    }

    /** Overwrite part of the growing object (a store through `obstack_base`). */
    method StoreGrowing(off: nat, bytes: seq<char>)
      requires Valid() && off + |bytes| <= |growing|
      modifies mem, this`growing
      ensures Valid() && growing == Splice(old(growing), off, bytes)
    {
      ObjectsClear();
      SpliceStored(objectBase + off, bytes, objectBase, growing);
      forall k | 0 <= k < |objects| ensures Stored(mem, objects[k].addr, objects[k].data) {
        assert old(Stored(mem, objects[k].addr, objects[k].data));
      }
      growing := Splice(growing, off, bytes);
    }

    /** Overwrite stored bytes; bytes stored elsewhere stay. */
    method SpliceStored(dst: nat, bytes: seq<char>, ghost p: nat, ghost was: seq<char>)
      requires p <= dst && dst - p + |bytes| <= |was| && Stored(mem, p, was)
      modifies mem
      ensures Stored(mem, p, Splice(was, dst - p, bytes))
      ensures forall q: nat, d: seq<char> {:trigger Stored(mem, q, d)} ::
                old(Stored(mem, q, d)) && (q + |d| <= p || p + |was| <= q) ==> Stored(mem, q, d)
    {
      ghost var off, end := dst - p, dst - p + |bytes|;
      StoredAround(mem, p, was, off, end);
      PutBytes(dst, bytes);
      assert Stored(mem, p, was[..off]) && Stored(mem, p + end, was[end..]);
      StoredSpliced(mem, p, was, off, bytes);
    }

    /** Overwrite part of live object `k` (a store through a pointer into it). */
    method StoreObject(p: nat, bytes: seq<char>, ghost k: nat)
      requires Valid() && k < |objects|
      requires objects[k].addr <= p && p + |bytes| <= objects[k].End()
      modifies mem, this`objects
      ensures Valid()
      ensures objects == old(objects)[k := Overwritten(old(objects)[k], p, bytes)]
    {
      ghost var o := Overwritten(objects[k], p, bytes);
      forall j: nat | j <= |objects| && j != k
        ensures StartOf(j) + |BytesOf(j)| <= objects[k].addr || objects[k].End() <= StartOf(j)
      {
        Apart(k, j);
      }
      SpliceStored(p, bytes, objects[k].addr, objects[k].data);
      forall j: nat | j < |objects| && j != k ensures Stored(mem, objects[j].addr, objects[j].data) {
        assert StartOf(j) + |BytesOf(j)| <= objects[k].addr || objects[k].End() <= StartOf(j);
        assert old(Stored(mem, objects[j].addr, objects[j].data));
      }
      assert Stored(mem, objectBase, growing) by {
        assert StartOf(|objects|) + |BytesOf(|objects|)| <= objects[k].addr || objects[k].End() <= StartOf(|objects|);
      }
      UpdatePlaced(objects, chain, alignmentMask, k, o);
      UpdateBefore(objects, k, o, objectBase, |chain| - 1);
      objects := objects[k := o];
    }

    ghost function BytesOf(k: nat): seq<char>
      requires k <= |objects|
      reads this
    {
      if k < |objects| then objects[k].data else growing
    }

    lemma InOrder(j: nat, k: nat)
      requires Valid() && j < k <= |objects|
      ensures DepthOf(j) < |chain| && DepthOf(k) < |chain|
      ensures StartOk(chain[DepthOf(j)], StartOf(j), alignmentMask)
      ensures StartOk(chain[DepthOf(k)], StartOf(k), alignmentMask)
      ensures Before(objects[j], StartOf(k), DepthOf(k))
    {
      FreeKeeps(j);
      FreeKeeps(k);
      assert Before(objects[..k][j], StartOf(k), DepthOf(k));
    }

    /** Two different live objects, the growing one included, share no byte, and each lies in a chunk of the chain. */
    lemma Apart(j: nat, k: nat)
      requires Valid() && j <= |objects| && k <= |objects| && j != k
      ensures DepthOf(j) < |chain|
      ensures chain[DepthOf(j)].addr + HEADER <= StartOf(j) && StartOf(j) + |BytesOf(j)| <= chain[DepthOf(j)].limit
      ensures StartOf(j) + |BytesOf(j)| <= StartOf(k) || StartOf(k) + |BytesOf(k)| <= StartOf(j)
    {
      assert j < |objects| ==> Placed(objects[j], chain, alignmentMask);
      assert k < |objects| ==> Placed(objects[k], chain, alignmentMask);
      if j < k {
        InOrder(j, k);
      } else {
        InOrder(k, j);
      }
      var dj, dk := DepthOf(j), DepthOf(k);
      assert dj < dk ==> ChunksApart(chain[dj], chain[dk]);
      assert dk < dj ==> ChunksApart(chain[dk], chain[dj]);
    }

    /** `_obstack_begin_worker`: start on a first chunk.  Zero asks for the default size or alignment. */
    method Begin(size: nat, alignment: nat) returns (ok: bool)
      requires mem.Length == SPACE && allocator.Valid() && allocator.live == map[] && chain == []
      requires size < SPACE && (alignment == 0 || IsMask(alignment - 1))
      requires MIN_ROOM + HEADER + (if alignment == 0 then DEFAULT_ALIGNMENT else alignment) <=
               (if size == 0 then DEFAULT_SIZE else size)
      modifies this, allocator
      ensures ok ==>
                && Valid() && objects == [] && growing == [] && |chain| == 1
                && chunkSize == (if size == 0 then DEFAULT_SIZE else size)
                && alignmentMask + 1 == (if alignment == 0 then DEFAULT_ALIGNMENT else alignment)
      ensures ok ==> IsNextStart(objectBase, chunk + HEADER, chunkLimit, alignmentMask) && !maybeEmptyObject
      ensures !ok ==> chain == [] && allocator.live == map[]
      ensures (ok <==> failures == old(failures)) && (!ok ==> allocator.refused == old(allocator.refused) + [chunkSize])
      ensures ok ==> chunkLimit - chunk == chunkSize
    {
      objects, growing := [], [];
      Configure(size, alignment);
      var first := allocator.Alloc(chunkSize);
      if first == 0 {
        failures := failures + 1;
        return false;
      }
      FirstChunk(first);
      ok := true;
    }

    /** The two settings of an obstack. */
    method Configure(size: nat, alignment: nat)
      requires alignment == 0 || IsMask(alignment - 1)
      modifies this`chunkSize, this`alignmentMask
      ensures chunkSize == (if size == 0 then DEFAULT_SIZE else size)
      ensures alignmentMask + 1 == (if alignment == 0 then DEFAULT_ALIGNMENT else alignment)
      ensures IsMask(alignmentMask)
    {
      DefaultMask();
      alignmentMask := (if alignment == 0 then DEFAULT_ALIGNMENT else alignment) - 1;
      chunkSize := size;
      if size == 0 {
        var extra := MallocOverhead();
        chunkSize := 4096 - extra;
      }
    }

    /** An obstack whose only chunk is the block at `first`. */
    method FirstChunk(first: nat)
      requires mem.Length == SPACE && allocator.Valid() && IsMask(alignmentMask)
      requires MIN_ROOM + HEADER + alignmentMask <= chunkSize
      requires 0 < first && first + chunkSize < SPACE
      requires allocator.live.Keys == {first} && allocator.live[first].size == chunkSize
      requires objects == [] && growing == []
      modifies this`headers, this`chunk, this`objectBase, this`nextFree, this`chunkLimit, this`maybeEmptyObject,
               this`chain, this`copied
      ensures Valid() && |chain| == 1 && chunkLimit - chunk == chunkSize
      ensures IsNextStart(objectBase, chunk + HEADER, chunkLimit, alignmentMask) && !maybeEmptyObject
    {
      FirstStart(first, first + chunkSize, alignmentMask);
      FirstLink(first);
      chunk := first;
      chunkLimit := first + chunkSize;
      ResumeAt(PtrAlign(first + HEADER, alignmentMask), 0);
    }

    /** The struct at the front of the first chunk. */
    method FirstLink(first: nat)
      requires mem.Length == SPACE && allocator.Valid() && IsMask(alignmentMask) && alignmentMask < SPACE
      requires MIN_ROOM + HEADER + alignmentMask <= chunkSize
      requires 0 < first && first + chunkSize < SPACE
      requires allocator.live.Keys == {first} && allocator.live[first].size == chunkSize
      modifies this`headers, this`chain
      ensures ChainValid() && chain == [Chunk(first, first + chunkSize)]
    {
      FirstBacked(allocator.live, first, first + chunkSize);
      headers := map[first := Header(first + chunkSize, 0)];
      chain := [Chunk(first, first + chunkSize)];
      assert LinkedAt(headers, chain, 0);
    }

    /** Build an object a byte at a time: all the copying `_obstack_newchunk` does stays below nine bytes a byte. */
    method GrowEach(data: seq<char>) returns (ok: bool)
      requires Valid() && growing == []
      modifies this, allocator, mem
      ensures Valid() && objects == old(objects)
      ensures ok ==> growing == data
      ensures ok <==> failures == old(failures)
      ensures copied - old(copied) <= 9 * |data|
    {
      ok := true;
      var i := 0;
      while i < |data|
        invariant 0 <= i <= |data|
        invariant Valid() && objects == old(objects) && growing == data[..i]
        invariant copied - old(copied) <= 8 * (chunkLimit - objectBase)
        invariant copied - old(copied) <= 9 * i && failures == old(failures)
      {
        assert data[..i + 1] == data[..i] + [data[i]];
        ok := OneGrow(data[i]);
        if !ok {
          return;
        }
        i := i + 1;
      }
    }

    /** In every state, each block ever obtained is one chunk of the chain or was given back once, never both. */
    lemma ChunksConserved(id: nat)
      requires ChainValid() && id < allocator.served
      ensures (exists i | 0 <= i < |chain| :: Holds(allocator.live, chain[i].addr, id)) <==> id !in allocator.returned
      ensures forall i, j | 0 <= i < j < |chain| ::
                !(Holds(allocator.live, chain[i].addr, id) && Holds(allocator.live, chain[j].addr, id))
      ensures id in allocator.returned ==> Once(allocator.returned, id)
    {
      Distinct(chain, alignmentMask);
      if id !in allocator.returned {
        assert InUse(allocator.live, id);
        var a: nat :| Holds(allocator.live, a, id);
        assert InChain(chain, a, allocator.live[a].size);
        var i :| 0 <= i < |chain| && chain[i] == Chunk(a, a + allocator.live[a].size);
        assert Holds(allocator.live, chain[i].addr, id);
      } else {
        var r :| 0 <= r < |allocator.returned| && allocator.returned[r] == id;
        forall q | 0 <= q < |allocator.returned| && q != r ensures allocator.returned[q] != id {
        }
      }
    }

    /** Every finished object that holds a byte starts on the alignment. */
    lemma NonEmptyAligned(k: nat)
      requires Valid() && k < |objects| && objects[k].data != []
      ensures Aligned(objects[k].addr, alignmentMask)
    {
      assert Placed(objects[k], chain, alignmentMask);
    }
  }
}
