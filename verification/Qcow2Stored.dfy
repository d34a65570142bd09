/**
 Where a write leaves the sectors in the file, and in what form: each is
 enciphered under its own guest sector number if the image is encrypted.
 */
module Qcow2Stored {
  import opened Division
  import opened Qcow2Tables
  import opened Qcow2Layout
  import opened Qcow2Cow
  import opened Qcow2Link
  import opened Qcow2Content
  import opened Qcow2Overlay
  import opened Sectors

  /** Where the tables place guest sector g. */
  ghost function HostPos<S(!new)>(codec: Codec<S>, m: Layout, g: nat): Pos
    requires m.l2Size > 0
  {
    Pos(Lookup(m.l1, m.tables, m.l2Size, Div(g, codec.cs)), Mod(g, codec.cs))
  }

  /** Guest sector g is mapped, and its place in the file holds v, enciphered if need be. */
  ghost predicate StoredAs<S(!new)>(codec: Codec<S>, m: Layout, now: map<Pos, S>, g: nat, v: S)
    requires m.l2Size > 0
  {
    var p := HostPos(codec, m, g);
    p.cluster != 0 && codec.Get(now, p) == if codec.crypt then codec.enc(g, v) else v
  }

  /** Guest sector g is where it was, and the file holds for it what it held. */
  ghost predicate Untouched<S(!new)>(codec: Codec<S>, l: Layout, data: map<Pos, S>, m: Layout, now: map<Pos, S>, g: nat)
    requires m.l2Size == l.l2Size > 0
  {
    var p := HostPos(codec, l, g);
    HostPos(codec, m, g) == p && (p.cluster != 0 ==> codec.Get(now, p) == codec.Get(data, p))
  }

  /** A sector that is written is stored as its value.  Any other is untouched,
      or has been copied: it is then stored as what it read as. */
  ghost predicate Stored<S(!new)>(codec: Codec<S>, l: Layout, data: map<Pos, S>, m: Layout, now: map<Pos, S>,
        sector: nat, vals: seq<S>, g: nat)
    requires codec.cs > 0 && m.l2Size == l.l2Size > 0
  {
    if sector <= g < sector + |vals| then StoredAs(codec, m, now, g, vals[g - sector])
    else
      || Untouched(codec, l, data, m, now, g)
      || StoredAs(codec, m, now, g, ReadAt(codec, l.l1, l.tables, l.l2Size, data, g))
  }

  ghost predicate AllStored<S(!new)>(codec: Codec<S>, l: Layout, data: map<Pos, S>, m: Layout, now: map<Pos, S>,
        sector: nat, vals: seq<S>)
    requires codec.cs > 0 && m.l2Size == l.l2Size > 0
  {
    forall g: nat :: Stored(codec, l, data, m, now, sector, vals, g)
  }

  // ----- the two kinds of write

  lemma DataStays<S(!new)>(codec: Codec<S>, l: Layout, data: map<Pos, S>, now: map<Pos, S>, g: nat)
    requires l.l2Size > 0 && DataKept(codec, l.l1, l.tables, data, now)
    ensures Untouched(codec, l, data, l, now, g)
  {
    var x := Div(g, codec.cs);
    if HostPos(codec, l, g).cluster != 0 {
      WalkCounted(l.l1, l.tables, Div(x, l.l2Size), Mod(x, l.l2Size));
    }
  }

  lemma LinkedStored<S(!new)>(fill: Fill<S>, now: map<Pos, S>, m: Layout, g: nat)
    requires fill.Ok() && fill.Holds(now, Mul(fill.gc, fill.codec.cs), Mul(fill.gc + fill.clusters, fill.codec.cs))
    requires m == WithRun(fill.l, Div(fill.gc, fill.l.l2Size), Mod(fill.gc, fill.l.l2Size), fill.h, fill.clusters)
    requires fill.gc <= Div(g, fill.codec.cs) < fill.gc + fill.clusters
    ensures StoredAs(fill.codec, m, now, g, Want(fill.codec, fill.l, fill.was, fill.sector, fill.vals, g))
  {
    var x, gc, cs := Div(g, fill.codec.cs), fill.gc, fill.codec.cs;
    LinkedLookup(fill.l, fill.rc, m.tables, gc, fill.h, fill.clusters, x);
    FreshNotZero(fill.l, fill.rc, fill.h, fill.clusters, fill.h + (x - gc));
    DivBelow(g, cs, gc);
    DivBelow(g, cs, gc + fill.clusters);
    assert HostPos(fill.codec, m, g) == fill.codec.Place(fill.h, gc, g);
  }

  lemma UnlinkedStays<S(!new)>(fill: Fill<S>, now: map<Pos, S>, m: Layout, g: nat)
    requires fill.Ok() && DiffersWithin(fill.codec, fill.was, now, fill.h, fill.clusters)
    requires m == WithRun(fill.l, Div(fill.gc, fill.l.l2Size), Mod(fill.gc, fill.l.l2Size), fill.h, fill.clusters)
    requires !(fill.gc <= Div(g, fill.codec.cs) < fill.gc + fill.clusters)
    ensures Untouched(fill.codec, fill.l, fill.was, m, now, g)
  {
    LinkedLookup(fill.l, fill.rc, m.tables, fill.gc, fill.h, fill.clusters, Div(g, fill.codec.cs));
    FreshKeepsActive(fill.codec, fill.l, fill.rc, fill.was, now, fill.h, fill.clusters);
    DataStays(fill.codec, fill.l, fill.was, now, g);
  }

  lemma RunCovers<S(!new)>(fill: Fill<S>, now: map<Pos, S>, g: nat)
    requires fill.Ok() && fill.Holds(now, Mul(fill.gc, fill.codec.cs), Mul(fill.gc + fill.clusters, fill.codec.cs))
    requires fill.sector <= g < fill.sector + |fill.vals|
    ensures fill.gc <= Div(g, fill.codec.cs) < fill.gc + fill.clusters
  {
    DivBelow(g, fill.codec.cs, fill.gc);
    DivBelow(g, fill.codec.cs, fill.gc + fill.clusters);
  }

  /** A write into a fresh run. */
  lemma FreshStored<S(!new)>(fill: Fill<S>, now: map<Pos, S>, m: Layout)
    requires fill.Ok() && fill.Holds(now, Mul(fill.gc, fill.codec.cs), Mul(fill.gc + fill.clusters, fill.codec.cs))
    requires m == WithRun(fill.l, Div(fill.gc, fill.l.l2Size), Mod(fill.gc, fill.l.l2Size), fill.h, fill.clusters)
    ensures AllStored(fill.codec, fill.l, fill.was, m, now, fill.sector, fill.vals)
  {
    forall g: nat
      ensures Stored(fill.codec, fill.l, fill.was, m, now, fill.sector, fill.vals, g)
    {
      if fill.sector <= g < fill.sector + |fill.vals| {
        RunCovers(fill, now, g);
      }
      if fill.gc <= Div(g, fill.codec.cs) < fill.gc + fill.clusters {
        LinkedStored(fill, now, m, g);
      } else {
        UnlinkedStays(fill, now, m, g);
      }
    }
  }

  /** A write in place. */
  lemma OwnStored<S(!new)>(codec: Codec<S>, l: Layout, rc: map<nat, nat>, data: map<Pos, S>, now: map<Pos, S>,
                           sector: nat, h: nat, c: nat, vals: seq<S>)
    requires codec.Lawful() && l.Sound(rc)
    requires OwnRun(l, Div(Div(sector, codec.cs), l.l2Size), Mod(Div(sector, codec.cs), l.l2Size), h, c)
    requires Mod(sector, codec.cs) + |vals| <= Mul(c, codec.cs)
    requires Put(codec, data, now, h, Div(sector, codec.cs), sector, Sealed(codec, sector, vals))
    ensures AllStored(codec, l, data, l, now, sector, vals)
  {
    OwnIsRun(l, codec.cs, sector, h, c, |vals|);
    forall g: nat
      ensures Stored(codec, l, data, l, now, sector, vals, g)
    {
      if sector <= g < sector + |vals| {
        RunPlace(codec, l.l1, l.tables, l.l2Size, h, sector, |vals|, g);
        assert Sealed(codec, sector, vals)[g - sector] == codec.Seal(sector + (g - sector), vals[g - sector]);
      } else if HostPos(codec, l, g).cluster != 0 {
        RunMisses(codec, l.l1, l.tables, l.l2Size, h, sector, |vals|, g);
      }
    }
  }

  // ----- one write after another

  lemma StoredNext<S(!new)>(codec: Codec<S>, l: Layout, data: map<Pos, S>, m: Layout, mid: map<Pos, S>, o: Layout,
        now: map<Pos, S>, sector: nat, vals: seq<S>, more: seq<S>, g: nat)
    requires codec.cs > 0 && o.l2Size == m.l2Size == l.l2Size > 0
    requires ReadAt(codec, m.l1, m.tables, l.l2Size, mid, g) == Want(codec, l, data, sector, vals, g)
    requires Stored(codec, l, data, m, mid, sector, vals, g)
    requires Stored(codec, m, mid, o, now, sector + |vals|, more, g)
    ensures Stored(codec, l, data, o, now, sector, vals + more, g)
  {
  }

  lemma StoredChain<S(!new)>(codec: Codec<S>, l: Layout, data: map<Pos, S>, m: Layout, mid: map<Pos, S>, o: Layout,
        now: map<Pos, S>, sector: nat, vals: seq<S>, more: seq<S>)
    requires codec.cs > 0 && o.l2Size == m.l2Size == l.l2Size > 0 && Overlaid(codec, l, data, m, mid, sector, vals)
    requires AllStored(codec, l, data, m, mid, sector, vals)
    requires AllStored(codec, m, mid, o, now, sector + |vals|, more)
    ensures AllStored(codec, l, data, o, now, sector, vals + more)
  {
    forall g: nat
      ensures Stored(codec, l, data, o, now, sector, vals + more, g)
    {
      StoredNext(codec, l, data, m, mid, o, now, sector, vals, more, g);
    }
  }

  /** Walks and file unchanged: nothing stored. */
  lemma NothingStored<S(!new)>(codec: Codec<S>, l: Layout, m: Layout, data: map<Pos, S>, sector: nat)
    requires codec.cs > 0 && m.l2Size == l.l2Size > 0 && SameWalks(l.l1, l.tables, m.l1, m.tables)
    ensures AllStored(codec, l, data, m, data, sector, [])
  {
    forall g: nat
      ensures Stored(codec, l, data, m, data, sector, [], g)
    {
      var x := Div(g, codec.cs);
      assert Walk(l.l1, l.tables, Div(x, l.l2Size), Mod(x, l.l2Size)) ==
        Walk(m.l1, m.tables, Div(x, l.l2Size), Mod(x, l.l2Size));
    }
  }

  // ----- all that a write promises

  ghost predicate Wrote<S(!new)>(codec: Codec<S>, l: Layout, data: map<Pos, S>, m: Layout, now: map<Pos, S>,
        sector: nat, vals: seq<S>)
    requires codec.cs > 0 && m.l2Size == l.l2Size > 0
  {
    && Overlaid(codec, l, data, m, now, sector, vals) && Isolated(codec, l, data, m, now)
    && AllStored(codec, l, data, m, now, sector, vals)
  }

  lemma WroteChain<S(!new)>(codec: Codec<S>, l: Layout, data: map<Pos, S>, m: Layout, mid: map<Pos, S>, o: Layout,
        now: map<Pos, S>, sector: nat, vals: seq<S>, more: seq<S>)
    requires codec.cs > 0 && o.l2Size == m.l2Size == l.l2Size > 0
    requires Wrote(codec, l, data, m, mid, sector, vals) && Wrote(codec, m, mid, o, now, sector + |vals|, more)
    ensures Wrote(codec, l, data, o, now, sector, vals + more)
  {
    OverlaidChain(codec, l, data, m, mid, o, now, sector, vals, more);
    IsolatedChain(codec, l, data, m, mid, o, now);
    StoredChain(codec, l, data, m, mid, o, now, sector, vals, more);
  }

  lemma WroteNothing<S(!new)>(codec: Codec<S>, l: Layout, m: Layout, data: map<Pos, S>, sector: nat)
    requires codec.cs > 0 && m.l2Size == l.l2Size > 0 && m.snaps == l.snaps
    requires SameWalks(l.l1, l.tables, m.l1, m.tables) && SnapsKept(l, m)
    ensures Wrote(codec, l, data, m, data, sector, [])
  {
    TablesOnly(codec, l, m, data, sector);
    NothingStored(codec, l, m, data, sector);
  }

  lemma WroteSame<S(!new)>(codec: Codec<S>, l: Layout, data: map<Pos, S>, sector: nat)
    requires codec.cs > 0 && l.l2Size > 0
    ensures Wrote(codec, l, data, l, data, sector, [])
  {
    NothingStored(codec, l, l, data, sector);
  }

  /** A write after a change of tables that changed no walk. */
  lemma WroteAfterTables<S(!new)>(codec: Codec<S>, l: Layout, data: map<Pos, S>, m: Layout, o: Layout,
        now: map<Pos, S>, sector: nat, vals: seq<S>)
    requires codec.cs > 0 && o.l2Size == m.l2Size == l.l2Size > 0 && m.snaps == l.snaps
    requires SameWalks(l.l1, l.tables, m.l1, m.tables) && SnapsKept(l, m)
    requires Wrote(codec, m, data, o, now, sector, vals)
    ensures Wrote(codec, l, data, o, now, sector, vals)
  {
    WroteNothing(codec, l, m, data, sector);
    assert [] + vals == vals;
    WroteChain(codec, l, data, m, data, o, now, sector, [], vals);
  }

  lemma FreshWrote<S(!new)>(fill: Fill<S>, now: map<Pos, S>, m: Layout)
    requires fill.Ok() && fill.Holds(now, Mul(fill.gc, fill.codec.cs), Mul(fill.gc + fill.clusters, fill.codec.cs))
    requires m == WithRun(fill.l, Div(fill.gc, fill.l.l2Size), Mod(fill.gc, fill.l.l2Size), fill.h, fill.clusters)
    ensures Wrote(fill.codec, fill.l, fill.was, m, now, fill.sector, fill.vals)
  {
    FreshWrite(fill, now, m);
    FreshStored(fill, now, m);
  }

  lemma OwnWrote<S(!new)>(codec: Codec<S>, l: Layout, rc: map<nat, nat>, data: map<Pos, S>, now: map<Pos, S>,
                          sector: nat, h: nat, c: nat, vals: seq<S>)
    requires codec.Lawful() && l.Sound(rc)
    requires OwnRun(l, Div(Div(sector, codec.cs), l.l2Size), Mod(Div(sector, codec.cs), l.l2Size), h, c)
    requires Mod(sector, codec.cs) + |vals| <= Mul(c, codec.cs)
    requires Put(codec, data, now, h, Div(sector, codec.cs), sector, Sealed(codec, sector, vals))
    ensures Wrote(codec, l, data, l, now, sector, vals)
  {
    OwnWrite(codec, l, rc, data, now, sector, h, c, vals);
    OwnStored(codec, l, rc, data, now, sector, h, c, vals);
  }

  // ----- reads

  /** v is the backing image's sector g if g is unmapped, and otherwise what the
      file holds for g, deciphered under its own number if it is encrypted. */
  ghost predicate ReadFrom<S(!new)>(codec: Codec<S>, l1: Table, tables: map<nat, Table>, l2Size: nat,
        data: map<Pos, S>, g: nat, v: S)
    requires codec.cs > 0 && l2Size > 0
  {
    var h := Lookup(l1, tables, l2Size, Div(g, codec.cs));
    var raw := codec.Get(data, Pos(h, Mod(g, codec.cs)));
    v == if h == 0 then codec.backing(g) else if codec.crypt then codec.dec(g, raw) else raw
  }

  ghost predicate AllReadFrom<S(!new)>(codec: Codec<S>, l1: Table, tables: map<nat, Table>, l2Size: nat,
        data: map<Pos, S>, sector: nat, buf: seq<S>)
    requires codec.cs > 0 && l2Size > 0
  {
    forall k :: 0 <= k < |buf| ==> ReadFrom(codec, l1, tables, l2Size, data, sector + k, buf[k])
  }

  lemma ReadsReadFrom<S(!new)>(codec: Codec<S>, l1: Table, tables: map<nat, Table>, l2Size: nat, data: map<Pos, S>,
        sector: nat, buf: seq<S>)
    requires codec.cs > 0 && l2Size > 0 && ReadsAs(codec, l1, tables, l2Size, data, sector, buf)
    ensures AllReadFrom(codec, l1, tables, l2Size, data, sector, buf)
  {
    forall k | 0 <= k < |buf|
      ensures ReadFrom(codec, l1, tables, l2Size, data, sector + k, buf[k])
    {
      assert buf[(sector + k) - sector] == ReadAt(codec, l1, tables, l2Size, data, sector + k);
    }
  }

  // ----- in so many words

  /** The cluster that the two levels of tables hold for guest cluster gc. */
  ghost function EntryOf(l1: Table, tables: map<nat, Table>, l2Size: nat, gc: nat): nat
    requires l2Size > 0
  {
    var i, j := gc / l2Size, gc % l2Size;
    if i < |l1| && l1[i].cluster != 0 && l1[i].cluster in tables && j < |tables[l1[i].cluster]|
    then tables[l1[i].cluster][j].cluster else 0
  }

  lemma LookupIsEntry(l1: Table, tables: map<nat, Table>, l2Size: nat, gc: nat)
    requires l2Size > 0
    ensures Lookup(l1, tables, l2Size, gc) == EntryOf(l1, tables, l2Size, gc)
  {
    AreArithmetic(gc, l2Size);
  }

  /** Where and how a sector is stored. */
  lemma StoredInFile<S(!new)>(codec: Codec<S>, m: Layout, now: map<Pos, S>, g: nat, v: S)
    requires codec.cs > 0 && m.l2Size > 0
    ensures StoredAs(codec, m, now, g, v) <==>
      var p := Pos(EntryOf(m.l1, m.tables, m.l2Size, g / codec.cs), g % codec.cs);
      p.cluster != 0 && (if codec.crypt then codec.enc(g, v) else v) == if p in now then now[p] else codec.blank
  {
    AreArithmetic(g, codec.cs);
    LookupIsEntry(m.l1, m.tables, m.l2Size, g / codec.cs);
  }

  /** What a sector reads as. */
  lemma ContentOfFile<S(!new)>(codec: Codec<S>, l1: Table, tables: map<nat, Table>, l2Size: nat, data: map<Pos, S>,
        g: nat)
    requires codec.cs > 0 && l2Size > 0
    ensures var p := Pos(EntryOf(l1, tables, l2Size, g / codec.cs), g % codec.cs);
      var raw := if p in data then data[p] else codec.blank;
      ReadAt(codec, l1, tables, l2Size, data, g) ==
        if p.cluster == 0 then codec.backing(g) else if codec.crypt then codec.dec(g, raw) else raw
  {
    AreArithmetic(g, codec.cs);
    LookupIsEntry(l1, tables, l2Size, g / codec.cs);
  }
}
