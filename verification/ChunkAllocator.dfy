/**
  The chunk allocator an obstack is given (`obstack_chunk_alloc` and
  `obstack_chunk_free`), as the obstack may rely on it: an answer is null or a
  region of the address space that overlaps no block still in use.  Which
  region, and when to refuse, is left entirely open.
 */
module ChunkAllocator {
  import opened Bits

  /** A block in use; `id` is the serial number of the request that obtained it. */
  datatype Block = Block(id: nat, size: nat)

  /** Blocks in use fit the address space and lie apart. */
  ghost predicate Apart(live: map<nat, Block>) {
    && (forall a | a in live :: 0 < a && a + live[a].size < SPACE)
    && (forall a: nat, b: nat :: InOrder(live, a, b))
  }

  ghost predicate InOrder(live: map<nat, Block>, a: nat, b: nat) {
    a in live && b in live && a < b ==> a + live[a].size <= b
  }

  ghost predicate Holds(live: map<nat, Block>, a: nat, id: nat) {
    a in live && live[a].id == id
  }

  ghost predicate InUse(live: map<nat, Block>, id: nat) {
    exists a: nat :: Holds(live, a, id)
  }

  /** Each request served so far is accounted for: its block is in use at one address, or was returned once. */
  ghost predicate Ledger(live: map<nat, Block>, served: nat, returned: seq<nat>) {
    && (forall a: nat, id: nat | Holds(live, a, id) :: id < served && id !in returned)
    && (forall a: nat, b: nat, id: nat | Holds(live, a, id) && Holds(live, b, id) :: a == b)
    && (forall i | 0 <= i < |returned| :: returned[i] < served)
    && (forall i, j | 0 <= i < j < |returned| :: returned[i] != returned[j])
    && (forall id: nat {:trigger InUse(live, id)} | id < served :: id in returned || InUse(live, id))
  }

  lemma ApartServe(live: map<nat, Block>, p: nat, b: Block)
    requires Apart(live) && p !in live && 0 < p && p + b.size < SPACE
    requires forall a | a in live :: a + live[a].size <= p || p + b.size <= a
    ensures Apart(live[p := b])
  {
    var after := live[p := b];
    forall x: nat, y: nat ensures InOrder(after, x, y) {
      assert InOrder(live, x, y);
    }
  }

  lemma ApartReturn(live: map<nat, Block>, p: nat)
    requires Apart(live)
    ensures Apart(live - {p})
  {
    var after := live - {p};
    forall x: nat, y: nat ensures InOrder(after, x, y) {
      assert InOrder(live, x, y);
    }
  }

  lemma LedgerServe(live: map<nat, Block>, served: nat, returned: seq<nat>, p: nat, size: nat)
    requires Ledger(live, served, returned) && p !in live
    ensures Ledger(live[p := Block(served, size)], served + 1, returned)
  {
    var after := live[p := Block(served, size)];
    forall a: nat, id: nat | Holds(after, a, id) ensures id < served + 1 && id !in returned {
      assert a != p ==> Holds(live, a, id);
    }
    forall a: nat, b: nat, id: nat | Holds(after, a, id) && Holds(after, b, id) ensures a == b {
      assert a != p ==> Holds(live, a, id);
      assert b != p ==> Holds(live, b, id);
    }
    forall id: nat | id < served + 1 ensures id in returned || InUse(after, id) {
      if id == served {
        assert Holds(after, p, id);
      } else if id !in returned {
        assert InUse(live, id);
        var a :| Holds(live, a, id);
        assert Holds(after, a, id);
      }
    }
  }

  lemma LedgerReturn(live: map<nat, Block>, served: nat, returned: seq<nat>, p: nat)
    requires Ledger(live, served, returned) && p in live
    ensures Ledger(live - {p}, served, returned + [live[p].id])
  {
    var after := live - {p};
    assert Holds(live, p, live[p].id);
    forall a: nat, id: nat | Holds(after, a, id) ensures id < served && id !in returned + [live[p].id] {
      assert Holds(live, a, id);
    }
    forall a: nat, b: nat, id: nat | Holds(after, a, id) && Holds(after, b, id) ensures a == b {
      assert Holds(live, a, id) && Holds(live, b, id);
    }
    forall id: nat | id < served ensures id in returned + [live[p].id] || InUse(after, id) {
      if id !in returned && id != live[p].id {
        assert InUse(live, id);
        var a :| Holds(live, a, id);
        assert Holds(after, a, id);
      }
    }
  }

  class Allocator {
    var live: map<nat, Block>
    var served: nat
    ghost var returned: seq<nat>
    ghost var refused: seq<nat>

    ghost predicate Valid()
      reads this
    {
      Apart(live) && Ledger(live, served, returned)
    }

    constructor ()
      ensures Valid() && live == map[] && served == 0 && returned == []
    {
      live, served, returned, refused := map[], 0, [], [];
    }

    /** A region the allocator may hand out now. */
    predicate Available(p: nat, size: nat)
      reads this
    {
      && 0 < p
      && p + size < SPACE
      && p !in live
      && forall a | a in live :: a + live[a].size <= p || p + size <= a
    }

    /** `chunkfun`: null, or a block apart from all blocks in use. */
    method Alloc(size: nat) returns (p: nat)
      requires Valid() && size > 0
      modifies this
      ensures Valid() && returned == old(returned)
      ensures p == 0 ==> live == old(live) && served == old(served) && refused == old(refused) + [size]
      ensures p != 0 ==>
                && refused == old(refused)
                && old(Available(p, size))
                && live == old(live)[p := Block(old(served), size)]
                && served == old(served) + 1
    {
      p := *;
      if Available(p, size) {
        ApartServe(live, p, Block(served, size));
        LedgerServe(live, served, returned, p, size);
        live := live[p := Block(served, size)];
        served := served + 1;
      } else {
        p := 0;
        refused := refused + [size];
      }
    }

    /** `freefun`: the block must be in use, so no block is ever given back twice. */
    method Free(p: nat)
      requires Valid() && p in live
      modifies this
      ensures Valid() && served == old(served) && refused == old(refused)
      ensures live == old(live) - {p}
      ensures returned == old(returned) + [old(live)[p].id]
    {
      ApartReturn(live, p);
      LedgerReturn(live, served, returned, p);
      returned := returned + [live[p].id];
      live := live - {p};
    }
  }
}
