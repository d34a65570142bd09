/**
 The cache of level-2 tables that both qcow drivers keep: sixteen slots, each
 with the file offset of the table it holds (0 for none) and a hit count; the
 least used slot is replaced.
 */
module L2Cache {

  const SLOTS: nat := 16
  const COUNT_MAX: nat := 0xffffffff

  class Cache<T(0,!new)> {
    const offsets: array<nat>
    const counts: array<nat>
    const tables: array<T>

    constructor ()
      ensures Valid() && fresh(offsets) && fresh(counts) && fresh(tables)
      ensures forall s :: 0 <= s < SLOTS ==> offsets[s] == 0
    {
      offsets := new nat[SLOTS](_ => 0);
      counts := new nat[SLOTS](_ => 0);
      tables := new T[SLOTS];
    }

    ghost predicate Valid()
      reads this, offsets, counts
    {
      && offsets.Length == counts.Length == tables.Length == SLOTS
      && offsets != counts && {tables as object} !! {offsets as object, counts}
      && (forall s :: 0 <= s < SLOTS ==> counts[s] < COUNT_MAX)
      && (forall s, t :: 0 <= s < t < SLOTS && offsets[s] != 0 ==> offsets[s] != offsets[t])
    }

    /** What a cached table at a non-zero offset holds is what the file holds. */
    ghost predicate Coherent(file: map<nat, T>)
      reads this, offsets, counts, tables
      requires Valid()
    {
      forall s :: 0 <= s < SLOTS && offsets[s] != 0 ==> offsets[s] in file && file[offsets[s]] == tables[s]
    }

    ghost predicate Holds(offset: nat)
      reads this, offsets, counts
      requires Valid()
    {
      exists s :: 0 <= s < SLOTS && offsets[s] == offset
    }

    /** seek_l2_table: the slot of a table, counting the hit; all counts are
        halved before one can wrap.  SLOTS means not found. */
    method Seek(offset: nat) returns (slot: nat)
      requires Valid() && offset != 0
      modifies counts
      ensures Valid() && slot <= SLOTS
      ensures slot == SLOTS <==> !Holds(offset)
      ensures slot < SLOTS ==> offsets[slot] == offset
    {
      slot := 0;
      while slot < SLOTS
        invariant slot <= SLOTS && Valid()
        invariant forall s :: 0 <= s < slot ==> offsets[s] != offset
      {
        if offset == offsets[slot] {
          if counts[slot] + 1 == COUNT_MAX {
            HalveCounts(slot);
          } else {
            counts[slot] := counts[slot] + 1;
          }
          return;
        }
        slot := slot + 1;
      }
    }

    /** The hit that would reach the maximum: increment it, then halve every count. */
    method HalveCounts(slot: nat)
      requires Valid() && slot < SLOTS
      modifies counts
      ensures Valid()
      ensures forall s :: 0 <= s < SLOTS ==> counts[s] == (if s == slot then old(counts[s]) + 1 else old(counts[s])) / 2
    {
      counts[slot] := counts[slot] + 1;
      var j := 0;
      while j < SLOTS
        invariant j <= SLOTS
        invariant forall s :: 0 <= s < SLOTS ==>
          counts[s] == (if s == slot then old(counts[s]) + 1 else old(counts[s])) / (if s < j then 2 else 1)
      {
        counts[j] := counts[j] / 2;
        j := j + 1;
      }
    }

    /** l2_cache_new_entry: a least used slot. */
    method Victim() returns (slot: nat)
      requires Valid()
      ensures slot < SLOTS && forall s :: 0 <= s < SLOTS ==> counts[slot] <= counts[s]
    {
      slot := 0;
      var least := COUNT_MAX;
      var i := 0;
      while i < SLOTS
        invariant i <= SLOTS && slot < SLOTS
        invariant i > 0 ==> slot < i && least == counts[slot]
        invariant i == 0 ==> least == COUNT_MAX
        invariant forall s :: 0 <= s < i ==> least <= counts[s]
      {
        if counts[i] < least {
          least, slot := counts[i], i;
        }
        i := i + 1;
      }
    }

    /** Put a table in a slot, as a first use of it. */
    method Fill(slot: nat, offset: nat, table: T)
      requires Valid() && slot < SLOTS && offset != 0 && !Holds(offset)
      modifies offsets, counts, tables
      ensures Valid()
      ensures offsets[..] == old(offsets[..])[slot := offset] && tables[..] == old(tables[..])[slot := table]
    {
      assert forall s :: 0 <= s < SLOTS ==> offsets[s] != offset;
      tables[slot] := table;
      offsets[slot] := offset;
      counts[slot] := 1;
    }

    /** l2_cache_reset. */
    method Reset()
      requires Valid()
      modifies offsets, counts
      ensures Valid() && forall s :: 0 <= s < SLOTS ==> offsets[s] == 0
    {
      var i := 0;
      while i < SLOTS
        invariant i <= SLOTS
        invariant forall s :: 0 <= s < i ==> offsets[s] == 0
        invariant Valid()
      {
        offsets[i], counts[i] := 0, 0;
        i := i + 1;
      }
    }
  }
}
