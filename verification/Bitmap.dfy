/**
 The allocation bitmap of the Mini-OS page allocator: one bit per page, 64
 pages per word, a set bit meaning "allocated".  Ranges of bits are set and
 cleared a word at a time with shift-and-negate masks; the contracts say
 which bits change, for every range.
 */
module Bitmap {
  import opened Words

  /** allocated_in_map: the bit of page `p`. */
  predicate Allocated(words: seq<Word>, p: nat)
    requires p / WORD < |words|
  {
    IsSet(words[p / WORD], p % WORD)
  }

  // ----- what one word update does

  /** The update of a word that sets the bits of [lo, hi). */
  ghost predicate SetsRange(was: Word, now: Word, lo: nat, hi: nat) {
    forall i: nat :: i < WORD ==> (IsSet(now, i) <==> lo <= i < hi || IsSet(was, i))
  }

  /** The update of a word that clears the bits of [lo, hi). */
  ghost predicate ClearsRange(was: Word, now: Word, lo: nat, hi: nat) {
    forall i: nat :: i < WORD ==> (IsSet(now, i) <==> !(lo <= i < hi) && IsSet(was, i))
  }

  lemma SetMasks(w: Word, lo: nat, hi: nat)
    requires lo < WORD && hi < WORD
    ensures SetsRange(w, Or(w, And(Below(hi), From(lo))), lo, hi)
    ensures SetsRange(w, Or(w, From(lo)), lo, WORD)
    ensures SetsRange(w, ONES, 0, WORD)
    ensures SetsRange(w, Or(w, Below(hi)), 0, hi)
  {
    forall i: nat | i < WORD
      ensures IsSet(Or(w, And(Below(hi), From(lo))), i) <==> lo <= i < hi || IsSet(w, i)
      ensures IsSet(Or(w, From(lo)), i) <==> lo <= i || IsSet(w, i)
      ensures IsSet(Or(w, Below(hi)), i) <==> i < hi || IsSet(w, i)
      ensures IsSet(ONES, i)
    {
      MaskBits(lo, i);
      MaskBits(hi, i);
      AndBit(Below(hi), From(lo), i);
      OrBit(w, And(Below(hi), From(lo)), i);
      OrBit(w, From(lo), i);
      OrBit(w, Below(hi), i);
    }
  }

  lemma ClearMasks(w: Word, lo: nat, hi: nat)
    requires lo < WORD && hi < WORD
    ensures lo <= hi ==> ClearsRange(w, And(w, Or(From(hi), Below(lo))), lo, hi)
    ensures ClearsRange(w, And(w, Below(lo)), lo, WORD)
    ensures ClearsRange(w, 0, 0, WORD)
    ensures ClearsRange(w, And(w, From(hi)), 0, hi)
  {
    forall i: nat | i < WORD
      ensures IsSet(And(w, Or(From(hi), Below(lo))), i) <==> !(lo <= i < hi) && IsSet(w, i)
      ensures IsSet(And(w, Below(lo)), i) <==> i < lo && IsSet(w, i)
      ensures IsSet(And(w, From(hi)), i) <==> hi <= i && IsSet(w, i)
      ensures !IsSet(0, i)
    {
      MaskBits(lo, i);
      MaskBits(hi, i);
      OrBit(From(hi), Below(lo), i);
      AndBit(w, Or(From(hi), Below(lo)), i);
      AndBit(w, Below(lo), i);
      AndBit(w, From(hi), i);
      ZeroBits(i);
    }
  }

  // ----- map_alloc and map_free

  /** Every page of [first, first + nr) is allocated, every other page as before. */
  ghost predicate RangeSet(was: seq<Word>, now: seq<Word>, first: nat, nr: nat)
    requires |was| == |now|
  {
    forall p: nat :: p / WORD < |was| ==>
      (Allocated(now, p) <==> first <= p < first + nr || Allocated(was, p))
  }

  /** Every page of [first, first + nr) is free, every other page as before. */
  ghost predicate RangeClear(was: seq<Word>, now: seq<Word>, first: nat, nr: nat)
    requires |was| == |now|
  {
    forall p: nat :: p / WORD < |was| ==>
      (Allocated(now, p) <==> !(first <= p < first + nr) && Allocated(was, p))
  }

  /** Word `end_idx` is written even when no bit of it belongs to the range, so
      it has to exist, unless the range ends where the bitmap does: then what is
      written is what was there, and the model leaves it out. */
  ghost predicate EndsInMap(end: nat, words: nat) {
    end / WORD < words || end == WORD * words
  }

  /** map_alloc: set the bits of a page range. */
  method MapAlloc(bitmap: array<Word>, first: nat, nr: nat)
    requires EndsInMap(first + nr, bitmap.Length)
    modifies bitmap
    ensures RangeSet(old(bitmap[..]), bitmap[..], first, nr)
  {
    var curr := first / WORD;
    var startOff := first % WORD;
    var end := (first + nr) / WORD;
    var endOff := (first + nr) % WORD;
    if curr == end {
      if curr < bitmap.Length {
        SetMasks(bitmap[curr], startOff, endOff);
        bitmap[curr] := Or(bitmap[curr], And(Below(endOff), From(startOff)));
      }
    } else {
      SetMasks(bitmap[curr], startOff, endOff);
      bitmap[curr] := Or(bitmap[curr], From(startOff));
      curr := curr + 1;
      while curr < end
        invariant first / WORD < curr <= end <= bitmap.Length
        invariant SetsRange(old(bitmap[first / WORD]), bitmap[first / WORD], startOff, WORD)
        invariant forall k :: first / WORD < k < curr ==> SetsRange(old(bitmap[k]), bitmap[k], 0, WORD)
        invariant forall k :: 0 <= k < bitmap.Length && !(first / WORD <= k < curr) ==> bitmap[k] == old(bitmap[k])
      {
        SetMasks(bitmap[curr], startOff, endOff);
        bitmap[curr] := ONES;
        curr := curr + 1;
      }
      if curr < bitmap.Length {
        SetMasks(bitmap[curr], startOff, endOff);
        bitmap[curr] := Or(bitmap[curr], Below(endOff));
      }
    }
  }

  /** map_free: clear the bits of a page range. */
  method MapFree(bitmap: array<Word>, first: nat, nr: nat)
    requires EndsInMap(first + nr, bitmap.Length)
    modifies bitmap
    ensures RangeClear(old(bitmap[..]), bitmap[..], first, nr)
  {
    var curr := first / WORD;
    var startOff := first % WORD;
    var end := (first + nr) / WORD;
    var endOff := (first + nr) % WORD;
    if curr == end {
      if curr < bitmap.Length {
        ClearMasks(bitmap[curr], startOff, endOff);
        bitmap[curr] := And(bitmap[curr], Or(From(endOff), Below(startOff)));
      }
    } else {
      ClearMasks(bitmap[curr], startOff, endOff);
      bitmap[curr] := And(bitmap[curr], Below(startOff));
      curr := curr + 1;
      while curr != end
        invariant first / WORD < curr <= end <= bitmap.Length
        invariant ClearsRange(old(bitmap[first / WORD]), bitmap[first / WORD], startOff, WORD)
        invariant forall k :: first / WORD < k < curr ==> ClearsRange(old(bitmap[k]), bitmap[k], 0, WORD)
        invariant forall k :: 0 <= k < bitmap.Length && !(first / WORD <= k < curr) ==> bitmap[k] == old(bitmap[k])
        decreases end - curr
      {
        ClearMasks(bitmap[curr], startOff, endOff);
        bitmap[curr] := 0;
        curr := curr + 1;
      }
      if curr < bitmap.Length {
        ClearMasks(bitmap[curr], startOff, endOff);
        bitmap[curr] := And(bitmap[curr], From(endOff));
      }
    }
  }
}
