/**
 The Mini-OS page allocator: init_page_allocator, alloc_pages and free_pages,
 over the allocation bitmap and the free lists kept in the free pages.

 Page frames stand for addresses: `to_virt` is taken to be the identity, and a
 header stored at the start of a page is an element of `hdr`.
 */
module PageAllocator {
  import opened Words
  import opened Bitmap
  import opened BuddyTheory
  import opened Collections
  import opened FreeLists

  const PAGE_SIZE: nat := 4096

  // ----- how much of the bitmap exists

  /** Pages set aside for the bitmap: `round_pgup((max + 1) >> (PAGE_SHIFT + 3))`
      for the page-aligned byte address max of frame maxPfn. */
  function BitmapPages(maxPfn: nat): nat {
    ((maxPfn * PAGE_SIZE + 1) / (8 * PAGE_SIZE) + PAGE_SIZE - 1) / PAGE_SIZE
  }

  function BitmapWords(maxPfn: nat): nat {
    BitmapPages(maxPfn) * 512
  }

  /** The map operations touch the word of frame max_pfn, and free_pages may
      test its bit.  That word is inside the bitmap exactly when max_pfn leaves
      a remainder of at least 8 modulo 32768; with remainder 0 the bitmap ends
      at max_pfn, and with 1 to 7 it does not cover all frames. */
  lemma BitmapReachesMaxPfn(maxPfn: nat)
    ensures maxPfn / WORD < BitmapWords(maxPfn) <==> maxPfn % 32768 >= 8
    ensures maxPfn == WORD * BitmapWords(maxPfn) <==> maxPfn % 32768 == 0
  {
    assert (maxPfn * 4096 + 1) / 32768 == maxPfn / 8;
    var k, r := maxPfn / 32768, maxPfn % 32768;
    assert maxPfn / 8 == 4096 * k + r / 8;
  }

  /** A machine with 32771 frames gets one bitmap page, whose last bit belongs to frame 32767. */
  lemma BitmapTooShortExample()
    ensures BitmapWords(32771) * WORD == 32768 < 32771
  {
  }

  /** The largest aligned block that ends at max_pfn lies in the pool. */
  predicate EndInPool(first: nat, maxPfn: nat) {
    maxPfn > 0 && first + Pow2(LowOrder(maxPfn)) <= maxPfn
  }

  /** The one block whose release tests the bit of frame max_pfn. */
  lemma TestsMaxPfn(b: Block, maxPfn: nat)
    requires Start(b) + Pow2(b.order) <= maxPfn && Start(Buddy(b)) == maxPfn
    ensures b.order == LowOrder(maxPfn) && Start(b) + Pow2(b.order) == maxPfn
  {
    BuddyPage(b);
    IsSetShr(Start(b), b.order);
    ShrShl(b.index, b.order);
    LowOrderOf(b.index + 1, b.order);
  }

  /** free_pages comes to test that bit if and only if that block is in the pool. */
  lemma MaxPfnTestedIff(first: nat, maxPfn: nat)
    requires maxPfn > 0
    ensures (exists b: Block :: first <= Start(b) && Start(b) + Pow2(b.order) <= maxPfn && Start(Buddy(b)) == maxPfn)
      <==> EndInPool(first, maxPfn)
  {
    if EndInPool(first, maxPfn) {
      var o := LowOrder(maxPfn);
      LowOrderSplits(maxPfn);
      var b := Block(Shr(maxPfn, o) - 1, o);
      ShlNext(b.index, o);
      assert Start(Buddy(b)) == maxPfn && first <= Start(b);
    }
    if b: Block :| first <= Start(b) && Start(b) + Pow2(b.order) <= maxPfn && Start(Buddy(b)) == maxPfn {
      TestsMaxPfn(b, maxPfn);
    }
  }

  /** A memory of a power of two frames is safe: the block would be all of it. */
  lemma PowerOfTwoIsSafe(n: nat, first: nat)
    requires first > 0
    ensures !EndInPool(first, Pow2(n))
  {
    LowOrderOf(1, n);
    ShlOne(n);
  }

  lemma {:induction false} ShlOne(n: nat)
    ensures Shl(1, n) == Pow2(n)
  {
    if n > 0 {
      ShlDouble(1, n - 1);
      ShlOne(n - 1);
    }
  }

  /** A block inside memory of less than 2^51 frames is far below the top order. */
  lemma OrderFits(b: Block, maxPfn: nat)
    requires Start(b) + Pow2(b.order) <= maxPfn < Pow2(ORDERS - 1)
    ensures b.order < ORDERS - 1
  {
    if b.order >= ORDERS - 1 {
      Pow2Monotone(ORDERS - 1, b.order);
    }
  }

  lemma {:induction false} IsSetShr(p: nat, o: nat)
    ensures IsSet(p, o) <==> Shr(p, o) % 2 == 1
    decreases o
  {
    if o > 0 {
      IsSetShr(p / 2, o - 1);
    }
  }

  /** Page p is the first page of a block of the given order. */
  predicate AlignedAt(p: nat, o: nat) {
    p == Start(BlockOf(p, o))
  }

  lemma BlockAtStart(b: Block)
    ensures BlockOf(Start(b), b.order) == b
  {
    ShrShl(b.index, b.order);
  }

  lemma NextAlignment(p: nat, o: nat)
    requires AlignedAt(p, o) && !IsSet(p, o)
    ensures AlignedAt(p, o + 1)
  {
    IsSetShr(p, o);
    ShrNext(p, o);
  }

  /** The merge step: the buddy is one block away, on the side the address bit says. */
  lemma BuddyPage(b: Block)
    ensures if IsSet(Start(b), b.order)
      then Start(Buddy(b)) + Pow2(b.order) == Start(b) && Start(Parent(b)) == Start(Buddy(b))
      else Start(Buddy(b)) == Start(b) + Pow2(b.order) && Start(Parent(b)) == Start(b)
  {
    IsSetShr(Start(b), b.order);
    ShrShl(b.index, b.order);
    Halves(b.index / 2, b.order);
  }

  lemma RangePages(b: Block, p: nat)
    ensures p in PagesOf(b) <==> Start(b) <= p < Start(b) + Pow2(b.order)
  {
    InRange(p, b);
  }

  ghost predicate AllFreeBelow(free: set<nat>, limit: nat) {
    forall p :: p in free ==> p < limit
  }

  /** A block of free pages ends within memory. */
  lemma FreeBlockEnds(b: Block, free: set<nat>, limit: nat)
    requires PagesOf(b) <= free && AllFreeBelow(free, limit)
    ensures Start(b) + Pow2(b.order) <= limit
  {
    RangePages(b, Start(b) + Pow2(b.order) - 1);
  }

  // ----- the initial carving

  lemma AllSet(words: seq<Word>)
    requires forall i :: 0 <= i < |words| ==> words[i] == ONES
    ensures forall p: nat :: p / WORD < |words| ==> Allocated(words, p)
  {
    forall p: nat | p / WORD < |words|
      ensures Allocated(words, p)
    {
      MaskBits(0, p % WORD);
    }
  }

  lemma {:induction false} Pow2Exceeds(n: nat)
    ensures n < Pow2(n)
  {
    if n > 0 {
      Pow2Exceeds(n - 1);
    }
  }

  predicate AtLeast(p: nat, lo: nat) {
    lo <= p
  }

  /** The pages of [lo, hi). */
  ghost function Span(lo: nat, hi: nat): (s: set<nat>)
    ensures forall p: nat :: p in s <==> lo <= p < hi
  {
    set p: nat | p < hi && AtLeast(p, lo)
  }

  /** Chunks carved so far tile [first, lo); one whose buddy would follow it
      was cut short by the end of memory, so that buddy does not fit. */
  ghost predicate Carved(blocks: set<Block>, first: nat, lo: nat, limit: nat) {
    && Tiling(blocks, Span(first, lo))
    && Coalesced(blocks)
    && forall b :: b in blocks && b.index % 2 == 0 ==> Start(b) + 2 * Pow2(b.order) > limit
  }

  lemma CarveOne(blocks: set<Block>, first: nat, lo: nat, limit: nat, b: Block)
    requires Carved(blocks, first, lo, limit) && first <= lo
    requires Start(b) == lo && lo + Pow2(b.order) <= limit < Pow2(ORDERS - 1)
    requires b.index % 2 == 0 ==> lo + 2 * Pow2(b.order) > limit
    ensures Carved(blocks + {b}, first, lo + Pow2(b.order), limit)
    ensures b.order < ORDERS
    ensures forall c :: c in blocks ==> Start(c) != lo
  {
    OrderFits(b, limit);
    var below := Span(first, lo);
    assert below + PagesOf(b) == Span(first, lo + Pow2(b.order)) by {
      forall p: nat
        ensures p in PagesOf(b) <==> lo <= p < lo + Pow2(b.order)
      {
        RangePages(b, p);
      }
    }
    assert PagesOf(b) !! below by {
      forall p: nat
        ensures p in PagesOf(b) ==> lo <= p
      {
        RangePages(b, p);
      }
    }
    forall c | c in blocks
      ensures Start(c) < lo
    {
      StartIn(c);
    }
    if Buddy(b) in blocks {
      BuddyPage(b);
      IsSetShr(Start(b), b.order);
      ShrShl(b.index, b.order);
      assert false; // it lies above lo, or its successor b did not fit
    }
    AddChunk(blocks, below, b);
  }

  /** The order of the next chunk to carve at page lo: limited by the alignment
      of lo, and by the pages that remain. */
  method CarveOrder(lo: nat, range: nat) returns (i: nat)
    requires range > 0
    ensures AlignedAt(lo, i) && Pow2(i) <= range
    ensures !AlignedAt(lo, i + 1) || Pow2(i + 1) > range
    ensures BlockOf(lo, i).index % 2 == 0 ==> 2 * Pow2(i) > range
  {
    i := 0;
    while Pow2(i + 1) <= range
      invariant AlignedAt(lo, i) && Pow2(i) <= range
      decreases range - i
    {
      IsSetShr(lo, i);
      if IsSet(lo, i) {
        ShrNext(lo, i);
        ShlNext(2 * (Shr(lo, i) / 2), i);
        break;
      }
      NextAlignment(lo, i);
      Pow2Exceeds(i + 1);
      i := i + 1;
    }
  }

  /** The chunk at page p is as small as any that holds a block of the order. */
  ghost predicate BestFit(blocks: set<Block>, order: nat, p: nat) {
    exists c :: c in blocks && Start(c) == p && order <= c.order &&
      forall d :: d in blocks && order <= d.order ==> c.order <= d.order
  }

  class Allocator {
    const poolStart: nat
    const maxPfn: nat
    const bitmap: array<Word>
    const freeHead: array<Ptr>
    const tailPprev: array<Link>
    const hdr: array<Header>
    ghost var lists: seq<seq<Block>>

    /** The pages whose bitmap bit is clear. */
    ghost function Free(): set<nat>
      reads this, bitmap
      requires maxPfn <= WORD * bitmap.Length
    {
      set p: nat | p < maxPfn && !Allocated(bitmap[..], p)
    }

    /** The bitmap ends at max_pfn: there is no bit to test for it. */
    ghost predicate AtEdge() {
      maxPfn == WORD * bitmap.Length
    }

    /** Pages below the pool are not free. */
    ghost predicate Pooled()
      reads this, bitmap
      requires maxPfn <= WORD * bitmap.Length
    {
      AtEdge() ==> forall p :: p in Free() ==> poolStart <= p
    }

    ghost predicate Shape()
      reads this
    {
      && maxPfn <= WORD * bitmap.Length && maxPfn < Pow2(ORDERS - 1)
      && (AtEdge() ==> !EndInPool(poolStart, maxPfn))
      && freeHead.Length == tailPprev.Length == ORDERS && hdr.Length == maxPfn
    }

    ghost predicate ListsOk()
      reads this, freeHead, tailPprev, hdr
    {
      Linked(freeHead[..], tailPprev[..], hdr[..], lists)
    }

    /** Frames from max_pfn on are marked allocated as far as the bitmap goes. */
    ghost predicate BeyondIsAllocated()
      reads this, bitmap
    {
      forall p: nat :: maxPfn <= p < WORD * bitmap.Length ==> Allocated(bitmap[..], p)
    }

    ghost predicate Valid()
      reads this, bitmap, freeHead, tailPprev, hdr
    {
      && Shape() && ListsOk() && BeyondIsAllocated() && Pooled()
      && Tiling(Blocks(lists), Free())
      && Coalesced(Blocks(lists))
    }

    // ----- init_page_allocator

    /** Place the physical byte range [min, max) in the free pool, less the
        pages that hold the bitmap. */
    constructor (min: nat, max: nat)
      requires (min + PAGE_SIZE - 1) / PAGE_SIZE + BitmapPages(max / PAGE_SIZE) <= max / PAGE_SIZE
      requires (max / PAGE_SIZE) % 32768 == 0 || (max / PAGE_SIZE) % 32768 >= 8
      requires (max / PAGE_SIZE) % 32768 == 0 ==>
        !EndInPool((min + PAGE_SIZE - 1) / PAGE_SIZE + BitmapPages(max / PAGE_SIZE), max / PAGE_SIZE)
      requires max / PAGE_SIZE < Pow2(ORDERS - 1)
      ensures Valid() && maxPfn == max / PAGE_SIZE
      ensures fresh(bitmap) && fresh(freeHead) && fresh(tailPprev) && fresh(hdr)
      ensures Free() == Span((min + PAGE_SIZE - 1) / PAGE_SIZE + BitmapPages(max / PAGE_SIZE), maxPfn)
    {
      var first := (min + PAGE_SIZE - 1) / PAGE_SIZE + BitmapPages(max / PAGE_SIZE);
      BitmapReachesMaxPfn(max / PAGE_SIZE);
      poolStart, maxPfn := first, max / PAGE_SIZE;
      bitmap := new Word[BitmapWords(max / PAGE_SIZE)](_ => ONES);
      freeHead := new Ptr[ORDERS](i => Tail(i));
      tailPprev := new Link[ORDERS](i => Head(i));
      hdr := new Header[max / PAGE_SIZE];
      lists := seq(ORDERS, _ => []);
      new;
      AllSet(bitmap[..]);
      MapFree(bitmap, first, maxPfn - first);
      assert Free() == Span(first, maxPfn);
      assert Blocks(lists) == {};
      Carve(first);
    }

    /** The carving loop: cut the free range into aligned chunks, front to back. */
    method Carve(first: nat)
      requires Shape() && ListsOk() && BeyondIsAllocated() && Pooled() && Blocks(lists) == {}
      requires first <= maxPfn && Free() == Span(first, maxPfn)
      modifies `lists, freeHead, tailPprev, hdr
      ensures Valid() && Free() == old(Free())
    {
      var lo, range := first, maxPfn - first;
      while range != 0
        invariant first <= lo <= lo + range == maxPfn
        invariant ListsOk()
        invariant Carved(Blocks(lists), first, lo, maxPfn)
        decreases range
      {
        var i := CarveOrder(lo, range);
        ghost var b := BlockOf(lo, i);
        CarveOne(Blocks(lists), first, lo, maxPfn, b);
        LinkChunk(lo, i, b);
        lo := lo + Pow2(i);
        range := range - Pow2(i);
      }
    }

    // ----- list surgery

    /** Link page p in at the front of list o. */
    method LinkChunk(p: nat, o: nat, ghost b: Block)
      requires Shape() && ListsOk()
      requires b.order == o < ORDERS && Start(b) == p < maxPfn
      requires forall c :: c in Blocks(lists) ==> Start(c) != p
      modifies `lists, freeHead, tailPprev, hdr
      ensures ListsOk() && Blocks(lists) == old(Blocks(lists)) + {b}
      ensures lists == old(lists)[o := [b] + old(lists)[o]]
    {
      PushKeepsLinked(freeHead[..], tailPprev[..], hdr[..], lists, b);
      assert ListLinked(freeHead[..][o], tailPprev[..][o], hdr[..], o, lists[o]);
      ghost var heads, tails, h := freeHead[..], tailPprev[..], hdr[..];
      hdr[p] := Header(freeHead[o], Head(o), o);
      match freeHead[o] {
        case Chunk(q) => hdr[q] := hdr[q].(pprev := NextOf(p));
        case Tail(t) => tailPprev[t] := NextOf(p);
      }
      freeHead[o] := Chunk(p);
      lists := lists[o := [b] + lists[o]];
      assert freeHead[..] == heads[o := Chunk(p)];
      assert tailPprev[..] == tails[o := PushTail(tails[o], heads[o], p)];
      assert hdr[..] == PushHdr(h, heads[o], p, o);
    }

    /** Unlink the chunk at page p, through its own next and pprev. */
    method UnlinkChunk(p: nat, ghost b: Block)
      requires Shape() && ListsOk()
      requires b in Blocks(lists) && Start(b) == p
      modifies `lists, freeHead, tailPprev, hdr
      ensures ListsOk() && Blocks(lists) == old(Blocks(lists)) - {b}
    {
      ghost var j := UnlinkKeepsLinked(freeHead[..], tailPprev[..], hdr[..], lists, b);
      ghost var heads, tails, h := freeHead[..], tailPprev[..], hdr[..];
      match hdr[p].pprev {
        case Head(o) => freeHead[o] := hdr[p].next;
        case NextOf(q) => hdr[q] := hdr[q].(next := hdr[p].next);
      }
      match hdr[p].next {
        case Chunk(q) => hdr[q] := hdr[q].(pprev := hdr[p].pprev);
        case Tail(t) => tailPprev[t] := hdr[p].pprev;
      }
      lists := lists[b.order := Without(lists[b.order], j)];
      assert freeHead[..] == heads[b.order := UnlinkHead(heads[b.order], h[p])];
      assert tailPprev[..] == tails[b.order := UnlinkTail(tails[b.order], h[p])];
      assert hdr[..] == UnlinkHdr(h, h[p]);
    }

    // ----- alloc_pages

    /** Allocate 2^order contiguous pages.  Fails only if no aligned run of that
        many free pages exists; otherwise exactly the pages of one such run
        change, from free to allocated. */
    method AllocPages(order: nat) returns (r: Option<nat>)
      requires Valid() && order <= ORDERS
      modifies `lists, bitmap, freeHead, tailPprev, hdr
      ensures Valid()
      ensures r.None? ==> lists == old(lists) && Free() == old(Free())
      ensures r.None? <==> forall b: Block :: b.order == order ==> !IsFree(old(Free()), b)
      ensures r.Some? ==> AlignedAt(r.value, order)
      ensures r.Some? ==> IsFree(old(Free()), BlockOf(r.value, order))
      ensures r.Some? ==> Free() == old(Free()) - PagesOf(BlockOf(r.value, order))
      ensures r.Some? ==> BestFit(old(Blocks(lists)), order, r.value)
    {
      var i := FindList(order);
      if i == ORDERS {
        NoLargeChunkNoBlock(order);
        return None;
      }
      assert ListLinked(freeHead[..][i], tailPprev[..][i], hdr[..], i, lists[i]);
      var p := freeHead[i].page;
      ghost var cur := lists[i][0];
      assert cur in lists[i] && cur in Blocks(lists);
      assert NodeLinked(hdr[..], i, lists[i], 0);
      ghost var free := Free();
      LeastFits(order, i);
      RemoveChunk(Blocks(lists), free, cur);
      UnlinkChunk(p, cur);
      assert IsFree(free, cur);
      cur := SplitChunk(p, i, order, cur);
      BlockAtStart(cur);
      MarkAllocated(p, order, cur);
      r := Some(p);
    }

    /** Set the bits of the block. */
    method MarkAllocated(p: nat, order: nat, ghost cur: Block)
      requires Shape() && BeyondIsAllocated() && Pooled() && cur.order == order && Start(cur) == p
      requires IsFree(Free(), cur)
      modifies bitmap
      ensures BeyondIsAllocated() && Pooled() && Free() == old(Free()) - PagesOf(cur)
    {
      ghost var free := Free();
      BlockInMemory(cur, free);
      MapAlloc(bitmap, p, Pow2(order));
      assert Free() == free - PagesOf(cur) by {
        forall q: nat | q < maxPfn
          ensures q in Free() <==> q in free - PagesOf(cur)
        {
          RangePages(cur, q);
        }
      }
    }

    /** The splitting loop: upper halves go back on their lists until a block of the order is left. */
    method SplitChunk(p: nat, level: nat, order: nat, ghost chunk: Block) returns (ghost cur: Block)
      requires Shape() && ListsOk() && order <= level < ORDERS
      requires chunk.order == level && Start(chunk) == p && IsFree(Free(), chunk)
      requires Tiling(Blocks(lists), Free() - PagesOf(chunk)) && Coalesced(Blocks(lists))
      modifies `lists, freeHead, tailPprev, hdr
      ensures Shape() && ListsOk()
      ensures cur.order == order && Start(cur) == p && IsFree(Free(), cur)
      ensures Tiling(Blocks(lists), Free() - PagesOf(cur)) && Coalesced(Blocks(lists))
    {
      ghost var free := Free();
      var i := level;
      cur := chunk;
      while i != order
        invariant order <= i < ORDERS
        invariant cur.order == i && Start(cur) == p && IsFree(free, cur)
        invariant Shape() && ListsOk()
        invariant Tiling(Blocks(lists), free - PagesOf(cur)) && Coalesced(Blocks(lists))
        decreases i
      {
        i := i - 1;
        ghost var lo, hi := Block(2 * cur.index, i), Block(2 * cur.index + 1, i);
        SplitFacts(Blocks(lists), free, cur, lo, hi);
        var spare := p + Pow2(i);
        LinkChunk(spare, i, hi);
        cur := lo;
      }
    }

    /** The search for a list that is not empty, from the order up. */
    method FindList(order: nat) returns (i: nat)
      requires Valid() && order <= ORDERS
      ensures order <= i <= ORDERS && forall k :: order <= k < i ==> lists[k] == []
      ensures i < ORDERS ==> freeHead[i].Chunk? && lists[i] != []
    {
      i := order;
      while i < ORDERS && freeHead[i].Tail?
        invariant order <= i <= ORDERS
        invariant forall k :: order <= k < i ==> lists[k] == []
      {
        assert ListLinked(freeHead[..][i], tailPprev[..][i], hdr[..], i, lists[i]);
        i := i + 1;
      }
      if i < ORDERS {
        assert ListLinked(freeHead[..][i], tailPprev[..][i], hdr[..], i, lists[i]);
      }
    }

    /** The first list with a chunk, from the order up, has the smallest that will do. */
    lemma LeastFits(order: nat, i: nat)
      requires Valid() && order <= i < ORDERS && lists[i] != []
      requires forall k :: order <= k < i ==> lists[k] == []
      ensures BestFit(Blocks(lists), order, Start(lists[i][0]))
    {
      var c := lists[i][0];
      assert c in lists[i];
      BlocksAreOnTheirOwnList(freeHead[..], tailPprev[..], hdr[..], lists, c);
      assert c.order == i by {
        assert NodeLinked(hdr[..], i, lists[i], 0);
      }
      forall d | d in Blocks(lists) && order <= d.order
        ensures c.order <= d.order
      {
        BlocksAreOnTheirOwnList(freeHead[..], tailPprev[..], hdr[..], lists, d);
      }
    }

    /** With no chunk of the order or above there is no free block of that order. */
    lemma NoLargeChunkNoBlock(order: nat)
      requires Valid()
      requires forall k :: order <= k < ORDERS ==> lists[k] == []
      ensures forall b: Block :: b.order == order ==> !IsFree(Free(), b)
    {
      forall b: Block | b.order == order
        ensures !IsFree(Free(), b)
      {
        if IsFree(Free(), b) {
          var c := FreeBlockIsInsideAChunk(Blocks(lists), Free(), b);
          BlocksAreOnTheirOwnList(freeHead[..], tailPprev[..], hdr[..], lists, c);
          assert false;
        }
      }
    }

    lemma BlockInMemory(b: Block, free: set<nat>)
      requires Shape() && free == Free() && IsFree(free, b)
      ensures Start(b) + Pow2(b.order) <= maxPfn
    {
      FreeBlockEnds(b, free, maxPfn);
    }

    /** Splitting the chunk being allocated: the upper half becomes a chunk of its own. */
    lemma SplitFacts(blocks: set<Block>, free: set<nat>, cur: Block, lo: Block, hi: Block)
      requires Shape() && free == Free() && IsFree(free, cur) && cur.order > 0
      requires Tiling(blocks, free - PagesOf(cur)) && Coalesced(blocks)
      requires lo == Block(2 * cur.index, cur.order - 1) && hi == Block(2 * cur.index + 1, cur.order - 1)
      ensures Start(lo) == Start(cur) && Start(hi) == Start(cur) + Pow2(lo.order) < maxPfn
      ensures forall c :: c in blocks ==> Start(c) != Start(hi)
      ensures IsFree(free, lo)
      ensures Tiling(blocks + {hi}, free - PagesOf(lo)) && Coalesced(blocks + {hi})
    {
      Halves(cur.index, lo.order);
      BuddyHalves(lo);
      assert Buddy(lo) == hi && Buddy(hi) == lo && Parent(lo) == cur;
      StartIn(lo);
      StartIn(hi);
      forall c | c in blocks
        ensures Start(c) != Start(hi) && c != lo
      {
        StartIn(c);
        assert Start(c) in free - PagesOf(cur);
      }
      AddChunk(blocks, free - PagesOf(cur), hi);
      assert free - PagesOf(cur) + PagesOf(hi) == free - PagesOf(lo);
    }

    // ----- free_pages

    /** While block cur is being freed: its pages are marked free but it is on
        no list, and the lists tile all other free pages. */
    ghost predicate Merging(cur: Block)
      reads this, bitmap, freeHead, tailPprev, hdr
    {
      && Shape() && ListsOk() && BeyondIsAllocated() && Pooled()
      && PagesOf(cur) <= Free()
      && Tiling(Blocks(lists), Free() - PagesOf(cur))
      && Coalesced(Blocks(lists))
      && cur.order < ORDERS - 1
    }

    /** Free the block of the given order at page p, merging it with free
        buddies for as long as possible. */
    method FreePages(p: nat, order: nat)
      requires Valid()
      requires AlignedAt(p, order) && p + Pow2(order) <= maxPfn
      requires PagesOf(BlockOf(p, order)) !! Free() && (AtEdge() ==> poolStart <= p)
      modifies `lists, bitmap, freeHead, tailPprev, hdr
      ensures Valid()
      ensures Free() == old(Free()) + PagesOf(BlockOf(p, order))
    {
      ghost var cur := BlockOf(p, order);
      MapFree(bitmap, p, Pow2(order));
      assert Free() == old(Free()) + PagesOf(cur) by {
        forall q: nat
          ensures q in Free() <==> q in old(Free()) || q in PagesOf(cur)
        {
          RangePages(cur, q);
        }
      }
      OrderFits(cur, maxPfn);
      assert Free() - PagesOf(cur) == old(Free());
      var head, o;
      head, o, cur := MergeBuddies(p, order, cur);
      assert Free() - PagesOf(cur) + PagesOf(cur) == Free();
      AddChunk(Blocks(lists), Free() - PagesOf(cur), cur);
      NoChunkStartsHere(Blocks(lists), Free(), cur);
      FreeBlockEnds(cur, Free(), maxPfn);
      LinkChunk(head, o, cur);
    }

    /** The coalescing loop of free_pages: absorb the buddy while it is a free chunk. */
    method MergeBuddies(p: nat, order: nat, ghost b: Block) returns (head: nat, o: nat, ghost cur: Block)
      requires Merging(b) && b.order == order && Start(b) == p
      modifies `lists, freeHead, tailPprev, hdr
      ensures Merging(cur) && cur.order == o && Start(cur) == head
      ensures Buddy(cur) !in Blocks(lists)
      ensures PagesOf(b) <= PagesOf(cur)
    {
      head, o, cur := p, order, b;
      while o < ORDERS
        invariant cur.order == o && Start(cur) == head && Merging(cur)
        invariant PagesOf(b) <= PagesOf(cur)
        decreases ORDERS - o
      {
        var mask := Pow2(o);
        BuddyPage(cur);
        FreeBlockEnds(cur, Free(), maxPfn);
        BuddyInMap(cur);
        var toMerge := if IsSet(head, o) then head - mask else head + mask;
        if Allocated(bitmap[..], toMerge) || hdr[toMerge].level != o {
          NotMerged(cur);
          return;
        }
        MergeFacts(cur);
        UnlinkChunk(toMerge, Buddy(cur));
        head := if IsSet(head, o) then toMerge else head;
        cur := Parent(cur);
        o := o + 1;
      }
    }

    /** The bit that is tested exists. */
    lemma BuddyInMap(cur: Block)
      requires Merging(cur)
      ensures Start(Buddy(cur)) <= maxPfn && Start(Buddy(cur)) / WORD < bitmap.Length
    {
      BuddyPage(cur);
      FreeBlockEnds(cur, Free(), maxPfn);
      StartIn(cur);
      if Start(Buddy(cur)) == maxPfn {
        TestsMaxPfn(cur, maxPfn);
        assert !AtEdge();
      }
    }

    /** A clear bit for the buddy's first page means a real chunk header is there,
        so the level that is read is never stale. */
    lemma MergeTestIsSound(cur: Block)
      requires Merging(cur)
      requires Start(Buddy(cur)) in Free()
      ensures exists c :: c in Blocks(lists) && Start(c) == Start(Buddy(cur)) && c.order <= cur.order
                          && hdr[Start(Buddy(cur))].level == c.order
      ensures hdr[Start(Buddy(cur))].level == cur.order <==> Buddy(cur) in Blocks(lists)
    {
      var free := Free() - PagesOf(cur);
      StartIn(Buddy(cur));
      InParent(Start(Buddy(cur)), cur);
      var c := BuddyPageHeadsAChunk(Blocks(lists), free, cur);
      BlocksAreOnTheirOwnList(freeHead[..], tailPprev[..], hdr[..], lists, c);
      BlocksAreOnTheirOwnList(freeHead[..], tailPprev[..], hdr[..], lists, Buddy(cur));
    }

    lemma NotMerged(cur: Block)
      requires Merging(cur)
      requires Start(Buddy(cur)) <= maxPfn && Start(Buddy(cur)) / WORD < bitmap.Length
      requires Allocated(bitmap[..], Start(Buddy(cur))) ||
               (Start(Buddy(cur)) < maxPfn && hdr[Start(Buddy(cur))].level != cur.order)
      ensures Buddy(cur) !in Blocks(lists)
    {
      if Start(Buddy(cur)) in Free() {
        MergeTestIsSound(cur);
      } else {
        StartIn(Buddy(cur));
      }
    }

    lemma MergeFacts(cur: Block)
      requires Merging(cur)
      requires Start(Buddy(cur)) in Free() && hdr[Start(Buddy(cur))].level == cur.order
      ensures Buddy(cur) in Blocks(lists)
      ensures var rest := Blocks(lists) - {Buddy(cur)};
        Tiling(rest, Free() - PagesOf(Parent(cur))) && Coalesced(rest)
      ensures PagesOf(cur) <= PagesOf(Parent(cur)) <= Free()
      ensures cur.order + 1 < ORDERS - 1
    {
      MergeTestIsSound(cur);
      BuddyHalves(cur);
      RemoveChunk(Blocks(lists), Free() - PagesOf(cur), Buddy(cur));
      assert Free() - PagesOf(cur) - PagesOf(Buddy(cur)) == Free() - PagesOf(Parent(cur));
      assert PagesOf(Buddy(cur)) <= Free();
      FreeBlockEnds(Parent(cur), Free(), maxPfn);
      OrderFits(Parent(cur), maxPfn);
    }

    lemma NoChunkStartsHere(blocks: set<Block>, free: set<nat>, cur: Block)
      requires Tiling(blocks, free - PagesOf(cur))
      ensures forall c :: c in blocks ==> Start(c) != Start(cur)
    {
      StartIn(cur);
      forall c | c in blocks
        ensures Start(c) != Start(cur)
      {
        StartIn(c);
      }
    }

    // ----- what holds of every run

    /** The assertions of sanity_check hold of every valid allocator. */
    lemma SanityCheckPasses(o: nat, j: nat)
      requires Valid() && o < ORDERS && j < |lists[o]|
      ensures Start(lists[o][j]) in Free()
      ensures match hdr[Start(lists[o][j])].next {
          case Chunk(q) => q < maxPfn && hdr[q].pprev == NextOf(Start(lists[o][j]))
          case Tail(t) => t == o && tailPprev[o] == NextOf(Start(lists[o][j]))
        }
      ensures match freeHead[o] {
          case Chunk(q) => q < maxPfn && hdr[q].pprev == Head(o)
          case Tail(t) => false
        }
    {
      var l := lists[o];
      assert ListLinked(freeHead[..][o], tailPprev[..][o], hdr[..], o, l);
      assert NodeLinked(hdr[..], o, l, 0) && NodeLinked(hdr[..], o, l, j);
      if j + 1 < |l| {
        assert NodeLinked(hdr[..], o, l, j + 1);
      }
      assert l[j] in lists[o] && l[j] in Blocks(lists);
      StartIn(l[j]);
    }

    /** The owner of an allocated page may write what it likes there. */
    method Scribble(p: nat, h: Header)
      requires Valid() && p < maxPfn && p !in Free()
      modifies hdr
      ensures Valid() && Free() == old(Free())
    {
      ghost var was := hdr[..];
      hdr[p] := h;
      forall o | 0 <= o < ORDERS
        ensures ListLinked(freeHead[..][o], tailPprev[..][o], hdr[..], o, lists[o])
      {
        var l := lists[o];
        assert ListLinked(freeHead[..][o], tailPprev[..][o], was, o, l);
        forall j | 0 <= j < |l|
          ensures Start(l[j]) < |was| && hdr[..][Start(l[j])] == was[Start(l[j])]
        {
          assert NodeLinked(was, o, l, j);
          assert l[j] in lists[o] && l[j] in Blocks(lists);
          StartIn(l[j]);
        }
        ListFrame(freeHead[..][o], tailPprev[..][o], was, hdr[..], o, l);
      }
    }

    /** Any run of requests.  The blocks held are disjoint and account for all
        missing pages; once everything is returned, the free chunks are those
        the run started with, whatever order things happened in. */
    method Run(requests: seq<Request>) returns (held: seq<Block>)
      requires Valid()
      modifies `lists, bitmap, freeHead, tailPprev, hdr
      ensures Valid()
      ensures Ledger(held, old(Free()), Free())
      ensures held == [] ==> Blocks(lists) == old(Blocks(lists))
    {
      held := [];
      assert PagesHeld(held) == {};
      for n := 0 to |requests|
        invariant Valid() && Ledger(held, old(Free()), Free())
      {
        match requests[n] {
          case Get(order) =>
            if order <= ORDERS {
              ghost var was := Free();
              var r := AllocPages(order);
              if r.Some? {
                Acquire(held, old(Free()), was, BlockOf(r.value, order));
                held := held + [BlockOf(r.value, order)];
              }
            }
          case Put(k) =>
            if k < |held| {
              var b := held[k];
              BlockAtStart(b);
              ghost var was := Free();
              Release(held, old(Free()), was, k);
              FreeBlockEnds(b, old(Free()), maxPfn);
              StartIn(b);
              assert Start(b) in old(Free());
              FreePages(Start(b), b.order);
              held := Without(held, k);
            }
          case Write(k, page, h) =>
            if k < |held| && In(page, held[k]) {
              Release(held, old(Free()), Free(), k);
              Scribble(page, h);
            }
        }
      }
      if held == [] {
        assert Free() == old(Free());
        ChunksDeterminedByFreePages(Blocks(lists), old(Blocks(lists)), Free());
      }
    }
  }

  /** A client action: ask for pages, return the k-th block held, or write into a page held. */
  datatype Request = Get(order: nat) | Put(k: nat) | Write(k: nat, page: nat, h: Header)

  ghost function PagesHeld(held: seq<Block>): set<nat> {
    if held == [] then {} else PagesHeld(held[..|held| - 1]) + PagesOf(held[|held| - 1])
  }

  lemma {:induction false} HeldPages(held: seq<Block>, p: nat)
    ensures p in PagesHeld(held) <==> exists k :: 0 <= k < |held| && In(p, held[k])
  {
    if held != [] {
      var rest := held[..|held| - 1];
      HeldPages(rest, p);
      if k :| 0 <= k < |held| && In(p, held[k]) {
        assert k < |rest| ==> rest[k] == held[k];
      }
    }
  }

  /** The blocks held are disjoint, and with the free pages make up the pool. */
  ghost predicate Ledger(held: seq<Block>, pool: set<nat>, free: set<nat>) {
    && (forall i, j, p: nat :: 0 <= i < j < |held| && In(p, held[i]) ==> !In(p, held[j]))
    && PagesHeld(held) !! free
    && PagesHeld(held) + free == pool
  }

  lemma Acquire(held: seq<Block>, pool: set<nat>, free: set<nat>, b: Block)
    requires Ledger(held, pool, free) && IsFree(free, b)
    ensures Ledger(held + [b], pool, free - PagesOf(b))
  {
    var more := held + [b];
    assert more[..|more| - 1] == held;
    forall p: nat
      ensures p in PagesHeld(held) <==> exists k :: 0 <= k < |held| && In(p, held[k])
    {
      HeldPages(held, p);
    }
    assert PagesHeld(more) == PagesHeld(held) + PagesOf(b);
  }

  lemma HeldWithout(held: seq<Block>, k: nat, p: nat)
    requires k < |held|
    requires forall i, j, q: nat :: 0 <= i < j < |held| && In(q, held[i]) ==> !In(q, held[j])
    ensures p in PagesHeld(Without(held, k)) <==> p in PagesHeld(held) && !In(p, held[k])
    ensures In(p, held[k]) ==> p in PagesHeld(held)
  {
    HeldPages(held, p);
    HeldPages(Without(held, k), p);
    StillHeld(held, k, p);
    if p in PagesHeld(Without(held, k)) {
      HeldBefore(held, k, p);
    }
  }

  /** A page of another block is still held. */
  lemma StillHeld(held: seq<Block>, k: nat, p: nat)
    requires k < |held|
    ensures (exists j :: 0 <= j < |held| && In(p, held[j])) && !In(p, held[k]) ==>
      exists i :: 0 <= i < |Without(held, k)| && In(p, Without(held, k)[i])
  {
    if !In(p, held[k]) {
      if j :| 0 <= j < |held| && In(p, held[j]) {
        assert Without(held, k)[if j < k then j else j - 1] == held[j];
      }
    }
  }

  /** A page that is still held was held, in another block. */
  lemma HeldBefore(held: seq<Block>, k: nat, p: nat)
    requires k < |held| && exists i :: 0 <= i < |Without(held, k)| && In(p, Without(held, k)[i])
    requires forall i, j, q: nat :: 0 <= i < j < |held| && In(q, held[i]) ==> !In(q, held[j])
    ensures (exists j :: 0 <= j < |held| && In(p, held[j])) && !In(p, held[k])
  {
    var i :| 0 <= i < |Without(held, k)| && In(p, Without(held, k)[i]);
    var j := if i < k then i else i + 1;
    assert Without(held, k)[i] == held[j];
  }

  lemma Release(held: seq<Block>, pool: set<nat>, free: set<nat>, k: nat)
    requires Ledger(held, pool, free) && k < |held|
    ensures PagesOf(held[k]) !! free && PagesOf(held[k]) <= pool
    ensures Ledger(Without(held, k), pool, free + PagesOf(held[k]))
  {
    var rest := Without(held, k);
    forall p: nat
      ensures In(p, held[k]) ==> p in PagesHeld(held)
      ensures p in PagesHeld(rest) <==> p in PagesHeld(held) && !In(p, held[k])
    {
      HeldWithout(held, k, p);
    }
    forall i, j, p: nat | 0 <= i < j < |rest| && In(p, rest[i])
      ensures !In(p, rest[j])
    {
      var a, b := if i < k then i else i + 1, if j < k then j else j + 1;
      assert rest[i] == held[a] && rest[j] == held[b];
    }
  }
}
