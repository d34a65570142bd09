/**
 The per-order free lists of the page allocator.  A list is doubly linked
 through the first words of the free pages themselves: `next` points to the
 next chunk or to the list's static tail, `pprev` to the link that points here.
 */
module FreeLists {
  import opened BuddyTheory
  import opened Collections

  /** A chunk_head_t pointer: the tail sentinel of a list, or a page. */
  datatype Ptr = Tail(list: nat) | Chunk(page: nat)

  /** A chunk_head_t** : a list's head variable, or the next field of a page. */
  datatype Link = Head(list: nat) | NextOf(page: nat)

  /** chunk_head_t, as found at the start of a page. */
  datatype Header = Header(next: Ptr, pprev: Link, level: int)

  /** FREELIST_SIZE for 8-byte pointers and 4096-byte pages. */
  const ORDERS: nat := 52

  /** What points past element j - 1 of list o: element j, or the tail. */
  function PtrAt(o: nat, l: seq<Block>, j: nat): Ptr
    requires j <= |l|
  {
    if j < |l| then Chunk(Start(l[j])) else Tail(o)
  }

  /** The link that points to element j of list o. */
  function LinkAt(o: nat, l: seq<Block>, j: nat): Link
    requires j <= |l|
  {
    if j == 0 then Head(o) else NextOf(Start(l[j - 1]))
  }

  /** Element j of list o carries the header its neighbours require. */
  ghost predicate NodeLinked(hdr: seq<Header>, o: nat, l: seq<Block>, j: nat)
    requires j < |l|
  {
    && l[j].order == o
    && Start(l[j]) < |hdr|
    && hdr[Start(l[j])] == Header(PtrAt(o, l, j + 1), LinkAt(o, l, j), o)
  }

  ghost predicate ListLinked(head: Ptr, tail: Link, hdr: seq<Header>, o: nat, l: seq<Block>) {
    && head == PtrAt(o, l, 0)
    && tail == LinkAt(o, l, |l|)
    && (forall j :: 0 <= j < |l| ==> NodeLinked(hdr, o, l, j))
    && (forall i, j :: 0 <= i < j < |l| ==> l[i] != l[j])
  }

  /** The memory holds exactly the given lists, one per order. */
  ghost predicate Linked(heads: seq<Ptr>, tails: seq<Link>, hdr: seq<Header>, lists: seq<seq<Block>>) {
    && |heads| == |tails| == |lists| == ORDERS
    && forall o :: 0 <= o < ORDERS ==> ListLinked(heads[o], tails[o], hdr, o, lists[o])
  }

  /** The blocks on the lists. */
  ghost function Blocks(lists: seq<seq<Block>>): set<Block> {
    set o, b | 0 <= o < |lists| && b in lists[o] :: b
  }

  lemma BlocksAreOnTheirOwnList(heads: seq<Ptr>, tails: seq<Link>, hdr: seq<Header>, lists: seq<seq<Block>>, b: Block)
    requires Linked(heads, tails, hdr, lists)
    ensures b in Blocks(lists) <==> b.order < ORDERS && b in lists[b.order]
    ensures b in Blocks(lists) ==> Start(b) < |hdr| && hdr[Start(b)].level == b.order
  {
    if b in Blocks(lists) {
      var o :| 0 <= o < |lists| && b in lists[o];
      var j :| 0 <= j < |lists[o]| && lists[o][j] == b;
      assert ListLinked(heads[o], tails[o], hdr, o, lists[o]);
      assert NodeLinked(hdr, o, lists[o], j);
    }
  }

  lemma SameOrderSameStart(b: Block, c: Block)
    requires b.order == c.order && Start(b) == Start(c)
    ensures b == c
  {
    ShrShl(b.index, b.order);
    ShrShl(c.index, c.order);
  }

  /** Memory that agrees on the pages of a list still holds that list. */
  lemma ListFrame(head: Ptr, tail: Link, hdr: seq<Header>, now: seq<Header>, o: nat, l: seq<Block>)
    requires ListLinked(head, tail, hdr, o, l)
    requires |now| == |hdr|
    requires forall j :: 0 <= j < |l| ==> Start(l[j]) < |hdr| && now[Start(l[j])] == hdr[Start(l[j])]
    ensures ListLinked(head, tail, now, o, l)
  {
    forall j | 0 <= j < |l|
      ensures NodeLinked(now, o, l, j)
    {
      assert NodeLinked(hdr, o, l, j);
    }
  }

  // ----- linking a chunk in at the front

  function SetPprev(hdr: seq<Header>, q: nat, link: Link): seq<Header>
    requires q < |hdr|
  {
    hdr[q := hdr[q].(pprev := link)]
  }

  /** The page headers after page p is put at the front of list o. */
  ghost function PushHdr(hdr: seq<Header>, head: Ptr, p: nat, o: nat): seq<Header>
    requires p < |hdr|
    requires head.Chunk? ==> head.page < |hdr|
  {
    var h := hdr[p := Header(head, Head(o), o)];
    if head.Chunk? then SetPprev(h, head.page, NextOf(p)) else h
  }

  ghost function PushTail(tail: Link, head: Ptr, p: nat): Link {
    if head.Tail? then NextOf(p) else tail
  }

  lemma PushOwnList(head: Ptr, tail: Link, hdr: seq<Header>, l: seq<Block>, b: Block)
    requires ListLinked(head, tail, hdr, b.order, l)
    requires b !in l && Start(b) < |hdr|
    ensures head.Chunk? ==> head.page < |hdr|
    ensures ListLinked(Chunk(Start(b)), PushTail(tail, head, Start(b)),
                       PushHdr(hdr, head, Start(b), b.order), b.order, [b] + l)
  {
    var o, p := b.order, Start(b);
    if |l| > 0 {
      assert NodeLinked(hdr, o, l, 0);
      if Start(l[0]) == p {
        SameOrderSameStart(l[0], b);
      }
    }
    var now := PushHdr(hdr, head, p, o);
    var m := [b] + l;
    assert forall j :: 0 < j < |m| ==> m[j] == l[j - 1];
    forall j | 0 <= j < |m|
      ensures NodeLinked(now, o, m, j)
    {
      if j > 0 {
        assert NodeLinked(hdr, o, l, j - 1);
        if Start(l[j - 1]) == p {
          SameOrderSameStart(l[j - 1], b);
        }
        if j > 1 {
          DistinctStarts(head, tail, hdr, o, l, j - 1, 0);
        }
      }
    }
  }

  lemma PushOtherList(head: Ptr, tail: Link, hdr: seq<Header>, l: seq<Block>, o: nat,
                      mine: seq<Block>, mineHead: Ptr, mineTail: Link, b: Block)
    requires ListLinked(head, tail, hdr, o, l)
    requires ListLinked(mineHead, mineTail, hdr, b.order, mine) && o != b.order
    requires Start(b) < |hdr|
    requires forall j :: 0 <= j < |l| ==> Start(l[j]) != Start(b)
    ensures mineHead.Chunk? ==> mineHead.page < |hdr|
    ensures ListLinked(head, tail, PushHdr(hdr, mineHead, Start(b), b.order), o, l)
  {
    if |mine| > 0 {
      assert NodeLinked(hdr, b.order, mine, 0);
    }
    var now := PushHdr(hdr, mineHead, Start(b), b.order);
    forall j | 0 <= j < |l|
      ensures Start(l[j]) < |hdr| && now[Start(l[j])] == hdr[Start(l[j])]
    {
      assert NodeLinked(hdr, o, l, j);
    }
    ListFrame(head, tail, hdr, now, o, l);
  }

  /** Pushing a page that heads no chunk extends its list and leaves the others alone. */
  lemma PushKeepsLinked(heads: seq<Ptr>, tails: seq<Link>, hdr: seq<Header>, lists: seq<seq<Block>>, b: Block)
    requires Linked(heads, tails, hdr, lists)
    requires b.order < ORDERS && Start(b) < |hdr|
    requires forall c :: c in Blocks(lists) ==> Start(c) != Start(b)
    ensures heads[b.order].Chunk? ==> heads[b.order].page < |hdr|
    ensures Linked(heads[b.order := Chunk(Start(b))],
                   tails[b.order := PushTail(tails[b.order], heads[b.order], Start(b))],
                   PushHdr(hdr, heads[b.order], Start(b), b.order),
                   lists[b.order := [b] + lists[b.order]])
    ensures Blocks(lists[b.order := [b] + lists[b.order]]) == Blocks(lists) + {b}
  {
    var o := b.order;
    assert ListLinked(heads[o], tails[o], hdr, o, lists[o]);
    assert b !in lists[o] by {
      assert b in lists[o] ==> b in Blocks(lists);
    }
    PushOwnList(heads[o], tails[o], hdr, lists[o], b);
    forall x | 0 <= x < ORDERS && x != o
      ensures ListLinked(heads[x], tails[x], PushHdr(hdr, heads[o], Start(b), o), x, lists[x])
    {
      forall j | 0 <= j < |lists[x]|
        ensures Start(lists[x][j]) != Start(b)
      {
        assert lists[x][j] in lists[x];
        assert lists[x][j] in Blocks(lists);
      }
      PushOtherList(heads[x], tails[x], hdr, lists[x], x, lists[o], heads[o], tails[o], b);
    }
    var now := lists[o := [b] + lists[o]];
    forall c: Block
      ensures c in Blocks(now) <==> c in Blocks(lists) || c == b
    {
      if c in Blocks(lists) {
        var x :| 0 <= x < |lists| && c in lists[x];
        assert c in now[x];
      }
      if c == b {
        assert c in now[o];
      }
    }
  }

  // ----- unlinking a chunk from anywhere in its list

  function SetNext(hdr: seq<Header>, q: nat, ptr: Ptr): seq<Header>
    requires q < |hdr|
  {
    hdr[q := hdr[q].(next := ptr)]
  }

  /** The page headers after `*(pprev) = next; next->pprev = pprev` for header h. */
  ghost function UnlinkHdr(hdr: seq<Header>, h: Header): seq<Header>
    requires h.pprev.NextOf? ==> h.pprev.page < |hdr|
    requires h.next.Chunk? ==> h.next.page < |hdr|
  {
    var g := if h.pprev.NextOf? then SetNext(hdr, h.pprev.page, h.next) else hdr;
    if h.next.Chunk? then SetPprev(g, h.next.page, h.pprev) else g
  }

  ghost function UnlinkHead(head: Ptr, h: Header): Ptr {
    if h.pprev.Head? then h.next else head
  }

  ghost function UnlinkTail(tail: Link, h: Header): Link {
    if h.next.Tail? then h.pprev else tail
  }

  lemma NeighboursOfNode(head: Ptr, tail: Link, hdr: seq<Header>, o: nat, l: seq<Block>, j: nat)
    requires ListLinked(head, tail, hdr, o, l) && j < |l|
    ensures Start(l[j]) < |hdr|
    ensures var h := hdr[Start(l[j])];
      && (h.pprev.NextOf? ==> h.pprev.page < |hdr|) && (h.next.Chunk? ==> h.next.page < |hdr|)
      && (h.pprev.Head? ==> h.pprev.list == o) && (h.next.Tail? ==> h.next.list == o)
  {
    assert NodeLinked(hdr, o, l, j);
    if j > 0 {
      assert NodeLinked(hdr, o, l, j - 1);
    }
    if j + 1 < |l| {
      assert NodeLinked(hdr, o, l, j + 1);
    }
  }

  /** Two elements of one list start at different pages. */
  lemma DistinctStarts(head: Ptr, tail: Link, hdr: seq<Header>, o: nat, l: seq<Block>, i: nat, j: nat)
    requires ListLinked(head, tail, hdr, o, l) && i < |l| && j < |l| && i != j
    ensures Start(l[i]) != Start(l[j])
  {
    assert NodeLinked(hdr, o, l, i) && NodeLinked(hdr, o, l, j);
    if Start(l[i]) == Start(l[j]) {
      SameOrderSameStart(l[i], l[j]);
    }
  }

  /** Unlinking node j changes one field in each of its neighbours and nothing else. */
  lemma UnlinkNode(head: Ptr, tail: Link, hdr: seq<Header>, o: nat, l: seq<Block>, j: nat, k: nat)
    requires ListLinked(head, tail, hdr, o, l) && j < |l| && k < |l| && k != j
    ensures Start(l[j]) < |hdr| && Start(l[k]) < |hdr|
    ensures var h := hdr[Start(l[j])];
      && (h.pprev.NextOf? ==> h.pprev.page < |hdr|) && (h.next.Chunk? ==> h.next.page < |hdr|)
      && UnlinkHdr(hdr, h)[Start(l[k])] == Header(
           if k + 1 == j then PtrAt(o, l, j + 1) else PtrAt(o, l, k + 1),
           if k == j + 1 then LinkAt(o, l, j) else LinkAt(o, l, k), o)
  {
    NeighboursOfNode(head, tail, hdr, o, l, j);
    assert NodeLinked(hdr, o, l, j) && NodeLinked(hdr, o, l, k);
    if j > 0 && k != j - 1 {
      DistinctStarts(head, tail, hdr, o, l, k, j - 1);
    }
    if j + 1 < |l| && k != j + 1 {
      DistinctStarts(head, tail, hdr, o, l, k, j + 1);
    }
  }

  lemma UnlinkOwnList(head: Ptr, tail: Link, hdr: seq<Header>, o: nat, l: seq<Block>, j: nat)
    requires ListLinked(head, tail, hdr, o, l) && j < |l|
    ensures Start(l[j]) < |hdr|
    ensures var h := hdr[Start(l[j])];
      && (h.pprev.NextOf? ==> h.pprev.page < |hdr|) && (h.next.Chunk? ==> h.next.page < |hdr|)
      && ListLinked(UnlinkHead(head, h), UnlinkTail(tail, h), UnlinkHdr(hdr, h), o, Without(l, j))
  {
    NeighboursOfNode(head, tail, hdr, o, l, j);
    assert NodeLinked(hdr, o, l, j);
    var h := hdr[Start(l[j])];
    var now, m := UnlinkHdr(hdr, h), Without(l, j);
    forall i | 0 <= i < |m|
      ensures NodeLinked(now, o, m, i)
    {
      var k := if i < j then i else i + 1;
      assert m[i] == l[k];
      assert NodeLinked(hdr, o, l, k);
      UnlinkNode(head, tail, hdr, o, l, j, k);
    }
  }

  lemma UnlinkOtherList(head: Ptr, tail: Link, hdr: seq<Header>, o: nat, l: seq<Block>, x: nat,
                        otherHead: Ptr, otherTail: Link, other: seq<Block>, j: nat)
    requires ListLinked(head, tail, hdr, o, l) && j < |l|
    requires ListLinked(otherHead, otherTail, hdr, x, other) && x != o
    ensures Start(l[j]) < |hdr|
    ensures var h := hdr[Start(l[j])];
      && (h.pprev.NextOf? ==> h.pprev.page < |hdr|) && (h.next.Chunk? ==> h.next.page < |hdr|)
      && ListLinked(otherHead, otherTail, UnlinkHdr(hdr, h), x, other)
  {
    NeighboursOfNode(head, tail, hdr, o, l, j);
    assert NodeLinked(hdr, o, l, j);
    if j > 0 {
      assert NodeLinked(hdr, o, l, j - 1);
    }
    if j + 1 < |l| {
      assert NodeLinked(hdr, o, l, j + 1);
    }
    var now := UnlinkHdr(hdr, hdr[Start(l[j])]);
    forall i | 0 <= i < |other|
      ensures Start(other[i]) < |hdr| && now[Start(other[i])] == hdr[Start(other[i])]
    {
      assert NodeLinked(hdr, x, other, i);
    }
    ListFrame(otherHead, otherTail, hdr, now, x, other);
  }

  /** Unlinking through pprev removes exactly the chunk that heads the page. */
  lemma UnlinkKeepsLinked(heads: seq<Ptr>, tails: seq<Link>, hdr: seq<Header>, lists: seq<seq<Block>>,
        b: Block) returns (j: nat)
    requires Linked(heads, tails, hdr, lists) && b in Blocks(lists)
    ensures b.order < ORDERS && j < |lists[b.order]| && lists[b.order][j] == b
    ensures Start(b) < |hdr|
    ensures heads[b.order] == Chunk(Start(b)) ==> j == 0
    ensures var h := hdr[Start(b)];
      && (h.pprev.NextOf? ==> h.pprev.page < |hdr|) && (h.next.Chunk? ==> h.next.page < |hdr|)
      && (h.pprev.Head? ==> h.pprev.list == b.order) && (h.next.Tail? ==> h.next.list == b.order)
      && Linked(heads[b.order := UnlinkHead(heads[b.order], h)],
                tails[b.order := UnlinkTail(tails[b.order], h)],
                UnlinkHdr(hdr, h),
                lists[b.order := Without(lists[b.order], j)])
    ensures Blocks(lists[b.order := Without(lists[b.order], j)]) == Blocks(lists) - {b}
  {
    BlocksAreOnTheirOwnList(heads, tails, hdr, lists, b);
    var o := b.order;
    j :| 0 <= j < |lists[o]| && lists[o][j] == b;
    assert ListLinked(heads[o], tails[o], hdr, o, lists[o]);
    if j != 0 {
      DistinctStarts(heads[o], tails[o], hdr, o, lists[o], 0, j);
    }
    NeighboursOfNode(heads[o], tails[o], hdr, o, lists[o], j);
    UnlinkOwnList(heads[o], tails[o], hdr, o, lists[o], j);
    forall x | 0 <= x < ORDERS && x != o
      ensures ListLinked(heads[x], tails[x], UnlinkHdr(hdr, hdr[Start(b)]), x, lists[x])
    {
      UnlinkOtherList(heads[o], tails[o], hdr, o, lists[o], x, heads[x], tails[x], lists[x], j);
    }
    WithoutBlocks(heads, tails, hdr, lists, o, j);
  }

  lemma WithoutMembers<T>(l: seq<T>, j: nat, c: T)
    requires j < |l|
    requires forall i, k :: 0 <= i < k < |l| ==> l[i] != l[k]
    ensures c in Without(l, j) <==> c in l && c != l[j]
  {
    var m := Without(l, j);
    if c in m {
      var i :| 0 <= i < |m| && m[i] == c;
      var k := if i < j then i else i + 1;
      assert c == l[k] && k != j;
    }
    if c in l && c != l[j] {
      var i :| 0 <= i < |l| && l[i] == c;
      assert m[if i < j then i else i - 1] == c;
    }
  }

  lemma WithoutBlocks(heads: seq<Ptr>, tails: seq<Link>, hdr: seq<Header>, lists: seq<seq<Block>>, o: nat, j: nat)
    requires Linked(heads, tails, hdr, lists) && o < ORDERS && j < |lists[o]|
    ensures Blocks(lists[o := Without(lists[o], j)]) == Blocks(lists) - {lists[o][j]}
  {
    var l := lists[o];
    var now := lists[o := Without(l, j)];
    assert ListLinked(heads[o], tails[o], hdr, o, l);
    assert NodeLinked(hdr, o, l, j);
    forall c: Block
      ensures c in Blocks(now) <==> c in Blocks(lists) && c != l[j]
    {
      WithoutMembers(l, j, c);
      BlocksAreOnTheirOwnList(heads, tails, hdr, lists, c);
      if c in Blocks(now) {
        var x :| 0 <= x < |now| && c in now[x];
        assert c in lists[x] && c in Blocks(lists);
        if x != o {
          assert ListLinked(heads[x], tails[x], hdr, x, lists[x]);
          var i :| 0 <= i < |lists[x]| && lists[x][i] == c;
          assert NodeLinked(hdr, x, lists[x], i);
        }
      }
      if c in Blocks(lists) && c != l[j] {
        assert c in now[c.order];
      }
    }
  }
}
