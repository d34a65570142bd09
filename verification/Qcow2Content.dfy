/**
 What a guest reads through a level-1 table: each sector from the host
 cluster its own walk leads to, or from the backing image if unmapped.
 */
module Qcow2Content {
  import opened Division
  import opened Qcow2Tables
  import opened Qcow2Layout
  import opened Qcow2Cow
  import opened Sectors

  /** Guest sector g as read through a tree. */
  ghost function ReadAt<S(!new)>(codec: Codec<S>, l1: Table, tables: map<nat, Table>, l2Size: nat,
        data: map<Pos, S>, g: nat): S
    requires codec.cs > 0 && l2Size > 0
  {
    var h := Lookup(l1, tables, l2Size, Div(g, codec.cs));
    if h == 0 then codec.backing(g) else codec.Open(g, codec.Get(data, Pos(h, Mod(g, codec.cs))))
  }

  /** buf is what the guest sectors from `from` on read as. */
  ghost predicate ReadsAs<S(!new)>(codec: Codec<S>, l1: Table, tables: map<nat, Table>, l2Size: nat,
        data: map<Pos, S>, from: nat, buf: seq<S>)
    requires codec.cs > 0 && l2Size > 0
  {
    forall g :: from <= g < from + |buf| ==> buf[g - from] == ReadAt(codec, l1, tables, l2Size, data, g)
  }

  lemma ReadsAppend<S(!new)>(codec: Codec<S>, l1: Table, tables: map<nat, Table>, l2Size: nat, data: map<Pos, S>,
        from: nat, buf: seq<S>, part: seq<S>)
    requires codec.cs > 0 && l2Size > 0 && ReadsAs(codec, l1, tables, l2Size, data, from, buf)
    requires ReadsAs(codec, l1, tables, l2Size, data, from + |buf|, part)
    ensures ReadsAs(codec, l1, tables, l2Size, data, from, buf + part)
  {
  }

  /** A walk that ends in c makes the tree refer to c. */
  lemma WalkCounted(l1: Table, tables: map<nat, Table>, i: nat, j: nat)
    requires Walk(l1, tables, i, j) != 0
    ensures TreeRefs(GuestData, l1, tables, Walk(l1, tables, i, j)) >= 1
  {
    var t := Reached(l1[i], tables);
    CountEntry(t, j);
    SumEntry(l1, tables, i, t[j].cluster);
  }

  /** In a well-formed tree two walks do not end in the same cluster. */
  lemma WalkInjective(l1: Table, tables: map<nat, Table>, n: nat, i: nat, j: nat, y: nat, z: nat)
    requires TreeOk(l1, tables, n) && Walk(l1, tables, i, j) != 0 && (i != y || j != z)
    ensures Walk(l1, tables, i, j) != Walk(l1, tables, y, z)
  {
    var c := Walk(l1, tables, i, j);
    if c == Walk(l1, tables, y, z) {
      assert Single(l1, tables, c);
      if i == y {
        CountTwice(Reached(l1[i], tables), if j < z then j else z, if j < z then z else j);
        SumEntry(l1, tables, i, c);
      } else {
        CountEntry(Reached(l1[i], tables), j);
        CountEntry(Reached(l1[y], tables), z);
        SumTwice(l1, tables, if i < y then i else y, if i < y then y else i, c);
      }
    }
  }

  /** The file agrees on every cluster the tree refers to as data. */
  ghost predicate DataKept<S(!new)>(codec: Codec<S>, l1: Table, tables: map<nat, Table>, data: map<Pos, S>,
        now: map<Pos, S>) {
    forall p: Pos :: TreeRefs(GuestData, l1, tables, p.cluster) >= 1 ==> codec.Get(now, p) == codec.Get(data, p)
  }

  lemma ReadKept<S(!new)>(codec: Codec<S>, l1: Table, tables: map<nat, Table>, l2Size: nat, data: map<Pos, S>,
        now: map<Pos, S>, g: nat)
    requires codec.cs > 0 && l2Size > 0 && DataKept(codec, l1, tables, data, now)
    ensures ReadAt(codec, l1, tables, l2Size, now, g) == ReadAt(codec, l1, tables, l2Size, data, g)
  {
    var x := Div(g, codec.cs);
    var h := Walk(l1, tables, Div(x, l2Size), Mod(x, l2Size));
    if h != 0 {
      WalkCounted(l1, tables, Div(x, l2Size), Mod(x, l2Size));
      var p := Pos(h, Mod(g, codec.cs));
      assert codec.Get(now, p) == codec.Get(data, p);
    }
  }

  /** Reads depend on the walks and on the data clusters they end in. */
  lemma ReadsKept<S(!new)>(codec: Codec<S>, l1: Table, tables: map<nat, Table>, m1: Table, mt: map<nat, Table>,
                           l2Size: nat, data: map<Pos, S>, now: map<Pos, S>)
    requires codec.cs > 0 && l2Size > 0 && SameWalks(l1, tables, m1, mt) && DataKept(codec, l1, tables, data, now)
    ensures forall g: nat :: ReadAt(codec, m1, mt, l2Size, now, g) == ReadAt(codec, l1, tables, l2Size, data, g)
  {
    forall g: nat
      ensures ReadAt(codec, m1, mt, l2Size, now, g) == ReadAt(codec, l1, tables, l2Size, data, g)
    {
      var x := Div(g, codec.cs);
      assert Walk(l1, tables, Div(x, l2Size), Mod(x, l2Size)) == Walk(m1, mt, Div(x, l2Size), Mod(x, l2Size));
      ReadKept(codec, l1, tables, l2Size, data, now, g);
    }
  }

  /** With the same file, two trees read the same. */
  ghost predicate SameReads<S(!new)>(codec: Codec<S>, l2Size: nat, data: map<Pos, S>, l1: Table,
        tables: map<nat, Table>, m1: Table, mt: map<nat, Table>)
    requires codec.cs > 0 && l2Size > 0
  {
    forall g: nat :: ReadAt(codec, m1, mt, l2Size, data, g) == ReadAt(codec, l1, tables, l2Size, data, g)
  }

  /** The first snapshots of m read as those of l. */
  ghost predicate SnapsRead<S(!new)>(codec: Codec<S>, data: map<Pos, S>, l: Layout, m: Layout)
    requires codec.cs > 0 && l.l2Size > 0
  {
    |l.snaps| <= |m.snaps| &&
    forall k :: 0 <= k < |l.snaps| ==> SameReads(codec, l.l2Size, data, l.SnapL1(k), l.tables, m.SnapL1(k), m.tables)
  }

  lemma WalksAreReads<S(!new)>(codec: Codec<S>, l2Size: nat, data: map<Pos, S>, l1: Table,
        tables: map<nat, Table>, m1: Table, mt: map<nat, Table>)
    requires codec.cs > 0 && l2Size > 0 && SameWalks(l1, tables, m1, mt)
    ensures SameReads(codec, l2Size, data, l1, tables, m1, mt)
  {
    ReadsKept(codec, l1, tables, m1, mt, l2Size, data, data);
  }

  lemma SnapWalksAreReads<S(!new)>(codec: Codec<S>, data: map<Pos, S>, l: Layout, m: Layout)
    requires codec.cs > 0 && l.l2Size > 0 && |l.snaps| <= |m.snaps|
    requires forall k :: 0 <= k < |l.snaps| ==> SameWalks(l.SnapL1(k), l.tables, m.SnapL1(k), m.tables)
    ensures SnapsRead(codec, data, l, m)
  {
    forall k | 0 <= k < |l.snaps|
      ensures SameReads(codec, l.l2Size, data, l.SnapL1(k), l.tables, m.SnapL1(k), m.tables)
    {
      WalksAreReads(codec, l.l2Size, data, l.SnapL1(k), l.tables, m.SnapL1(k), m.tables);
    }
  }
}
