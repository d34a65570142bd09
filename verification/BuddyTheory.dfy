/**
 Binary blocks of pages, and collections of disjoint free blocks.

 A block of order o is 2^o pages starting at a multiple of 2^o; it is named by
 its index (start >> o) and its order, so that halving an index moves to the
 enclosing block and flipping its lowest bit moves to the buddy.
 */
module BuddyTheory {
  import opened Words

  datatype Block = Block(index: nat, order: nat)

  /** p >> o */
  function Shr(p: nat, o: nat): nat
    decreases o
  {
    if o == 0 then p else Shr(p / 2, o - 1)
  }

  /** k << o */
  function Shl(k: nat, o: nat): nat
    decreases o
  {
    if o == 0 then k else Shl(2 * k, o - 1)
  }

  function Start(b: Block): nat {
    Shl(b.index, b.order)
  }

  /** Page p lies in block b. */
  predicate In(p: nat, b: Block) {
    Shr(p, b.order) == b.index
  }

  function Parent(b: Block): Block {
    Block(b.index / 2, b.order + 1)
  }

  function Buddy(b: Block): Block {
    Block(if b.index % 2 == 0 then b.index + 1 else b.index - 1, b.order)
  }

  /** The block of order o that starts at or before page p and contains it. */
  function BlockOf(p: nat, o: nat): Block {
    Block(Shr(p, o), o)
  }

  // ----- shifts

  lemma {:induction false} ShlDouble(k: nat, o: nat)
    ensures Shl(2 * k, o) == 2 * Shl(k, o)
    decreases o
  {
    if o > 0 {
      ShlDouble(2 * k, o - 1);
    }
  }

  lemma {:induction false} ShlNext(k: nat, o: nat)
    ensures Shl(k + 1, o) == Shl(k, o) + Pow2(o)
    decreases o
  {
    if o > 0 {
      ShlNext(2 * k, o - 1);
      ShlNext(2 * k + 1, o - 1);
    }
  }

  lemma {:induction false} ShrShr(p: nat, a: nat, b: nat)
    ensures Shr(p, a + b) == Shr(Shr(p, a), b)
    decreases a
  {
    if a > 0 {
      ShrShr(p / 2, a - 1, b);
    }
  }

  lemma ShrNext(p: nat, o: nat)
    ensures Shr(p, o + 1) == Shr(p, o) / 2
  {
    ShrShr(p, o, 1);
  }

  lemma {:induction false} ShrShl(k: nat, o: nat)
    ensures Shr(Shl(k, o), o) == k
    decreases o
  {
    if o > 0 {
      ShlDouble(k, o - 1);
      ShrShl(k, o - 1);
    }
  }

  /** The order of the largest block that can end at page n: how often 2 divides n. */
  function LowOrder(n: nat): nat
    requires n > 0
  {
    if n % 2 == 1 then 0 else 1 + LowOrder(n / 2)
  }

  lemma {:induction false} LowOrderOf(k: nat, o: nat)
    requires k % 2 == 1
    ensures Shl(k, o) > 0 && LowOrder(Shl(k, o)) == o
  {
    if o > 0 {
      ShlDouble(k, o - 1);
      LowOrderOf(k, o - 1);
    }
  }

  lemma {:induction false} LowOrderSplits(n: nat)
    requires n > 0
    ensures Shl(Shr(n, LowOrder(n)), LowOrder(n)) == n && Shr(n, LowOrder(n)) % 2 == 1
  {
    if n % 2 == 0 {
      LowOrderSplits(n / 2);
      ShlDouble(Shr(n / 2, LowOrder(n / 2)), LowOrder(n / 2));
    }
  }

  /** Membership in a block is being in its page range. */
  lemma {:induction false} InRange(p: nat, b: Block)
    ensures In(p, b) <==> Start(b) <= p < Start(b) + Pow2(b.order)
    decreases b.order
  {
    if b.order > 0 {
      var half := Block(b.index, b.order - 1);
      InRange(p / 2, half);
      ShlDouble(b.index, b.order - 1);
    }
  }

  lemma StartIn(b: Block)
    ensures In(Start(b), b)
  {
    ShrShl(b.index, b.order);
  }

  /** The first half of a block starts where the block does, the second half 2^(o-1) later. */
  lemma Halves(k: nat, o: nat)
    ensures Start(Block(2 * k, o)) == Start(Block(k, o + 1))
    ensures Start(Block(2 * k + 1, o)) == Start(Block(k, o + 1)) + Pow2(o)
  {
    ShlNext(2 * k, o);
  }

  lemma InParent(p: nat, b: Block)
    ensures In(p, b) ==> In(p, Parent(b))
    ensures In(p, Parent(b)) ==> In(p, b) || In(p, Buddy(b))
    ensures !(In(p, b) && In(p, Buddy(b)))
  {
    ShrNext(p, b.order);
  }

  /** Blocks that share a page are nested. */
  lemma Nested(p: nat, b: Block, c: Block, q: nat)
    requires In(p, b) && In(p, c) && b.order <= c.order
    requires In(q, b)
    ensures In(q, c)
  {
    ShrShr(p, b.order, c.order - b.order);
    ShrShr(q, b.order, c.order - b.order);
  }

  // ----- collections of free blocks

  ghost predicate IsFree(free: set<nat>, b: Block) {
    forall p: nat :: In(p, b) ==> p in free
  }

  /** The blocks are disjoint and together cover exactly the free pages. */
  ghost predicate Tiling(blocks: set<Block>, free: set<nat>) {
    && (forall b :: b in blocks ==> IsFree(free, b))
    && (forall p :: p in free ==> exists b :: b in blocks && In(p, b))
    && Disjoint(blocks)
  }

  ghost predicate Disjoint(blocks: set<Block>) {
    forall b, c, p: nat :: b in blocks && c in blocks && In(p, b) && In(p, c) ==> b == c
  }

  /** No free block's buddy is a free block too. */
  ghost predicate Coalesced(blocks: set<Block>) {
    forall b :: b in blocks ==> Buddy(b) !in blocks
  }

  /** Block b lies inside block c. */
  predicate Inside(b: Block, c: Block) {
    b.order <= c.order && Shr(b.index, c.order - b.order) == c.index
  }

  lemma InsideMeans(b: Block, c: Block, p: nat)
    requires Inside(b, c) && In(p, b)
    ensures In(p, c)
  {
    ShrShr(p, b.order, c.order - b.order);
  }

  /** In a coalesced tiling every wholly free block lies inside one chunk. */
  lemma {:induction false} FreeBlockIsInsideAChunk(blocks: set<Block>, free: set<nat>, b: Block) returns (c: Block)
    requires Tiling(blocks, free) && Coalesced(blocks)
    requires IsFree(free, b)
    ensures c in blocks && Inside(b, c)
    decreases b.order
  {
    if b.order == 0 {
      assert In(b.index, b);
      c :| c in blocks && In(b.index, c);
    } else {
      var lo := Block(2 * b.index, b.order - 1);
      var hi := Block(2 * b.index + 1, b.order - 1);
      forall p: nat
        ensures In(p, lo) ==> p in free
        ensures In(p, hi) ==> p in free
      {
        InParent(p, lo);
        InParent(p, hi);
      }
      c := FreeBlockIsInsideAChunk(blocks, free, lo);
      var d := FreeBlockIsInsideAChunk(blocks, free, hi);
      assert Buddy(lo) == hi;
      assert (c.order == lo.order ==> c == lo) && (d.order == hi.order ==> d == hi);
      if c.order == lo.order {
        if d.order == hi.order {
          assert false; // c and d are buddies
        }
        c := d;
        ShrShr(hi.index, 1, c.order - b.order);
      } else {
        ShrShr(lo.index, 1, c.order - b.order);
      }
    }
  }

  /** The chunks are exactly the maximal free blocks: those whose parent is not wholly free. */
  lemma ChunkIffMaximal(blocks: set<Block>, free: set<nat>, b: Block)
    requires Tiling(blocks, free) && Coalesced(blocks)
    ensures b in blocks <==> IsFree(free, b) && !IsFree(free, Parent(b))
  {
    if b in blocks && IsFree(free, Parent(b)) {
      var c := FreeBlockIsInsideAChunk(blocks, free, Parent(b));
      StartIn(b);
      InParent(Start(b), b);
      InsideMeans(Parent(b), c, Start(b));
      assert false; // c overlaps b
    }
    if IsFree(free, b) && !IsFree(free, Parent(b)) {
      var c := FreeBlockIsInsideAChunk(blocks, free, b);
      if c.order > b.order {
        forall p: nat | In(p, Parent(b))
          ensures p in free
        {
          ShrShr(b.index, 1, c.order - b.order - 1);
          assert Inside(Parent(b), c);
          InsideMeans(Parent(b), c, p);
        }
        assert false;
      }
      assert b == c;
    }
  }

  /** History independence: the free pages alone determine the free chunks. */
  lemma ChunksDeterminedByFreePages(s: set<Block>, t: set<Block>, free: set<nat>)
    requires Tiling(s, free) && Coalesced(s)
    requires Tiling(t, free) && Coalesced(t)
    ensures s == t
  {
    forall b: Block
      ensures b in s <==> b in t
    {
      ChunkIffMaximal(s, free, b);
      ChunkIffMaximal(t, free, b);
    }
  }

  // ----- taking a chunk, splitting it, merging two

  ghost function PagesOf(b: Block): (s: set<nat>)
    ensures forall p: nat :: p in s <==> In(p, b)
  {
    forall p: nat ensures In(p, b) ==> p < Start(b) + Pow2(b.order) {
      InRange(p, b);
    }
    set p: nat | p < Start(b) + Pow2(b.order) && In(p, b)
  }

  lemma RemoveChunk(blocks: set<Block>, free: set<nat>, b: Block)
    requires Tiling(blocks, free) && b in blocks
    ensures Tiling(blocks - {b}, free - PagesOf(b))
    ensures Coalesced(blocks) ==> Coalesced(blocks - {b})
  {
    var rest, left := blocks - {b}, free - PagesOf(b);
    forall c, p: nat | c in rest && In(p, c)
      ensures p in left
    {
    }
    forall p | p in left
      ensures exists c :: c in rest && In(p, c)
    {
      var c :| c in blocks && In(p, c);
      assert c in rest;
    }
  }

  lemma AddChunk(blocks: set<Block>, free: set<nat>, b: Block)
    requires Tiling(blocks, free) && PagesOf(b) !! free
    ensures b !in blocks
    ensures Tiling(blocks + {b}, free + PagesOf(b))
    ensures Coalesced(blocks) && Buddy(b) !in blocks ==> Coalesced(blocks + {b})
  {
    var more, grown := blocks + {b}, free + PagesOf(b);
    StartIn(b);
    if b in blocks {
      assert false;
    }
    forall p | p in grown
      ensures exists c :: c in more && In(p, c)
    {
      if p in free {
        var c :| c in blocks && In(p, c);
        assert c in more;
      } else {
        assert b in more;
      }
    }
    forall c, d, p: nat | c in more && d in more && In(p, c) && In(p, d)
      ensures c == d
    {
    }
    assert Buddy(Buddy(b)) == b;
    forall c | c in more && Coalesced(blocks) && Buddy(b) !in blocks
      ensures Buddy(c) !in more
    {
      assert Buddy(Buddy(c)) == c;
    }
  }

  lemma BuddyHalves(b: Block)
    ensures PagesOf(b) + PagesOf(Buddy(b)) == PagesOf(Parent(b))
    ensures PagesOf(b) !! PagesOf(Buddy(b))
  {
    forall p: nat
      ensures p in PagesOf(b) + PagesOf(Buddy(b)) <==> p in PagesOf(Parent(b))
      ensures !(p in PagesOf(b) && p in PagesOf(Buddy(b)))
    {
      InParent(p, b);
      InParent(p, Buddy(b));
      assert Parent(b) == Parent(Buddy(b));
    }
  }

  /** Soundness of the merge test.  While block b is being freed, if the first
      page of its buddy is free then it heads a chunk no larger than b. */
  lemma BuddyPageHeadsAChunk(blocks: set<Block>, free: set<nat>, b: Block) returns (c: Block)
    requires Tiling(blocks, free) && PagesOf(b) !! free
    requires Start(Buddy(b)) in free
    ensures c in blocks && Start(c) == Start(Buddy(b)) && c.order <= b.order
    ensures c.order == b.order ==> c == Buddy(b)
  {
    var buddy := Buddy(b);
    var q := Start(buddy);
    StartIn(buddy);
    c :| c in blocks && In(q, c);
    if c.order > b.order {
      InParent(q, buddy);
      StartIn(b);
      InParent(Start(b), b);
      assert Parent(b) == Parent(buddy);
      Nested(q, Parent(b), c, Start(b));
      assert false; // the first page of b would be free
    }
    SameStart(c, buddy);
  }

  /** A small block containing the first page of a larger one starts there too. */
  lemma SameStart(c: Block, b: Block)
    requires c.order <= b.order && In(Start(b), c)
    ensures Start(c) == Start(b)
  {
    StartIn(c);
    InRange(Start(b), c);
    StartIn(b);
    Nested(Start(b), c, b, Start(c));
    InRange(Start(c), b);
  }
}
