/**
 Any run of writes and of snapshot creations, applications and deletions.

 The simple form has no clusters: an active image and one whole copy of it per
 snapshot, each a function from sectors to contents.  The driver, with its
 tables, its cache, its reference counts and its copies on write, shows
 exactly what the simple form shows.
 */
module Qcow2Session {
  import opened Collections
  import opened Sectors
  import opened Qcow2Tables
  import opened Qcow2Layout
  import opened Qcow2Snapshots
  import opened Qcow2Goto
  import opened Qcow2Content
  import opened Qcow2Overlay
  import opened Qcow2SnapshotReads
  import opened Qcow2Ids
  import opened Qcow2Create
  import opened Qcow2Driver

  /** The most snapshots whose references to one cluster a count can say, the active image's included. */
  const MAX_SNAPSHOTS: nat := 0xfffe

  // ----- the simple form

  /** The active image, and a copy for every snapshot. */
  datatype Image<!S> = Image(active: nat -> S, tags: seq<Tag>, copies: seq<nat -> S>)

  datatype Op<S> =
    | Write(sector: nat, buf: seq<S>)
    | Create(id: string, name: string)
    | Goto(name: string)
    | Delete(name: string)

  function Step<S>(image: Image<S>, op: Op<S>): Image<S>
    requires |image.copies| == |image.tags|
  {
    match op
    case Write(sector, buf) =>
      image.(active := (g: nat) => if sector <= g < sector + |buf| then buf[g - sector] else image.active(g))
    case Create(id, name) =>
      var given := IdFor(image.tags, id);
      if IndexOfId(image.tags, given) < |image.tags| then image
      else image.(tags := image.tags + [Tag(given, name)], copies := image.copies + [image.active])
    case Goto(name) =>
      var k := IndexOf(image.tags, name);
      if k < |image.tags| then image.(active := image.copies[k]) else image
    case Delete(name) =>
      var k := IndexOf(image.tags, name);
      if k < |image.tags| then image.(tags := Without(image.tags, k), copies := Without(image.copies, k)) else image
  }

  function Run<S>(image: Image<S>, ops: seq<Op<S>>): (r: Image<S>)
    requires |image.copies| == |image.tags|
    ensures |r.copies| == |r.tags|
  {
    if ops == [] then image else Step(Run(image, ops[..|ops| - 1]), ops[|ops| - 1])
  }

  /** There are never too many snapshots to count. */
  ghost predicate Fits<S(!new)>(image: Image<S>, ops: seq<Op<S>>)
    requires |image.copies| == |image.tags|
  {
    forall k :: 0 <= k <= |ops| ==> |Run(image, ops[..k]).tags| <= MAX_SNAPSHOTS
  }

  // ----- how many references a cluster can have

  lemma {:induction false} SnapsBound(l: Layout, n: nat, c: nat)
    requires l.TreesOk() && n <= |l.snaps|
    ensures l.SnapsRefs(Level2, n, c) + l.SnapsRefs(GuestData, n, c) <= n
  {
    if n > 0 {
      SnapsBound(l, n - 1, c);
      assert l.SnapOk(n - 1);
      if c != 0 {
        assert Single(l.SnapL1(n - 1), l.tables, c);
      }
    }
  }

  /** The active tree and each snapshot refer to a cluster once at most. */
  lemma CountBound(l: Layout, rc: map<nat, nat>, c: nat)
    requires l.TreesOk() && l.Exact(rc) && l.Refs(Metadata, c) == 0
    ensures Rc(rc, c) <= TreeSum(l.l1, l.tables, c) + |l.snaps| && TreeSum(l.l1, l.tables, c) <= 1
  {
    assert l.CountedRight(rc, c);
    SnapsBound(l, |l.snaps|, c);
    if c != 0 {
      assert Single(l.l1, l.tables, c);
    }
  }

  lemma CreateFits(l: Layout, rc: map<nat, nat>)
    requires l.TreesOk() && l.Exact(rc) && |l.snaps| < MAX_SNAPSHOTS
    ensures CanCount(rc, l.l1, l.tables)
  {
    forall c: nat | TreeSum(l.l1, l.tables, c) >= 1
      ensures Rc(rc, c) < 0xffff
    {
      assert l.OneUse(c);
      CountBound(l, rc, c);
    }
  }

  lemma GotoFits(l: Layout, rc: map<nat, nat>, k: nat)
    requires l.TreesOk() && l.Exact(rc) && k < |l.snaps| <= MAX_SNAPSHOTS
    ensures CanReturn(l, rc, k)
  {
    forall c: nat | TreeSum(l.SnapL1(k), l.tables, c) >= 1
      ensures Rc(rc, c) - TreeSum(l.l1, l.tables, c) < 0xffff
    {
      l.SnapShare(k, c);
      assert l.SnapRefs(Level2, k, c) <= l.Refs(Level2, c) && l.SnapRefs(GuestData, k, c) <= l.Refs(GuestData, c);
      assert l.OneUse(c);
      CountBound(l, rc, c);
    }
  }

  // ----- when the references of an operation can be counted

  /** The operation finds room in the counts for every reference it adds. */
  ghost predicate Countable<S>(l: Layout, rc: map<nat, nat>, op: Op<S>) {
    match op
    case Create(id, _) =>
      IndexOfId(Tags(l.snaps), IdFor(Tags(l.snaps), id)) == |l.snaps| ==> CanCount(rc, l.l1, l.tables)
    case Goto(name) =>
      var k := IndexOf(Tags(l.snaps), name);
      k < |l.snaps| ==> CanReturn(l, rc, k)
    case _ => true
  }

  /** With no more than 65534 snapshots before and after it, it does. */
  lemma FewAreCountable<S(!new)>(l: Layout, rc: map<nat, nat>, image: Image<S>, op: Op<S>)
    requires l.Sound(rc) && image.tags == Tags(l.snaps) && |image.copies| == |image.tags|
    requires |image.tags| <= MAX_SNAPSHOTS && |Step(image, op).tags| <= MAX_SNAPSHOTS
    ensures Countable(l, rc, op)
  {
    if |l.snaps| < MAX_SNAPSHOTS {
      CreateFits(l, rc);
    }
    if op.Goto? && IndexOf(Tags(l.snaps), op.name) < |l.snaps| {
      GotoFits(l, rc, IndexOf(Tags(l.snaps), op.name));
    }
  }

  /** Some table of the tree names c. */
  predicate Names(l1: Table, tables: map<nat, Table>, c: nat) {
    c != 0 && exists i :: 0 <= i < |l1| && EntryNames(l1[i], tables, c)
  }

  predicate EntryNames(e: Entry, tables: map<nat, Table>, c: nat) {
    || e.cluster == c
    || (e.cluster != 0 && e.cluster in tables &&
        exists j :: 0 <= j < |tables[e.cluster]| && tables[e.cluster][j].cluster == c)
  }

  lemma NamesIff(l1: Table, tables: map<nat, Table>, c: nat)
    ensures Names(l1, tables, c) <==> TreeSum(l1, tables, c) >= 1
  {
    if Names(l1, tables, c) {
      var i :| 0 <= i < |l1| && EntryNames(l1[i], tables, c);
      if l1[i].cluster == c {
        CountEntry(l1, i);
      } else {
        var j :| 0 <= j < |tables[l1[i].cluster]| && tables[l1[i].cluster][j].cluster == c;
        CountEntry(tables[l1[i].cluster], j);
        SumEntry(l1, tables, i, c);
      }
    } else if c != 0 {
      NotNamed(l1, tables, c);
    }
  }

  lemma NotNamed(l1: Table, tables: map<nat, Table>, c: nat)
    requires c != 0 && !Names(l1, tables, c)
    ensures CountTable(l1, c) == 0 && SumTables(l1, tables, c) == 0
  {
    if CountTable(l1, c) >= 1 {
      var i := CountFind(l1, c);
      assert EntryNames(l1[i], tables, c);
    }
    if SumTables(l1, tables, c) >= 1 {
      var i := SumFind(l1, tables, c);
      var j := CountFind(Reached(l1[i], tables), c);
      assert EntryNames(l1[i], tables, c);
    }
  }

  /** Whether the clusters with a full count that the tree names are all named by the other tree. */
  predicate FullAreIn(rc: map<nat, nat>, l1: Table, other: Table, tables: map<nat, Table>) {
    forall c :: c in rc && rc[c] >= 0xffff && Names(l1, tables, c) ==> Names(other, tables, c)
  }

  lemma FullInNone(l: Layout, rc: map<nat, nat>)
    requires l.Sound(rc)
    ensures FullAreIn(rc, l.l1, [], l.tables) <==> CanCount(rc, l.l1, l.tables)
  {
    forall c: nat
      ensures Names(l.l1, l.tables, c) <==> TreeSum(l.l1, l.tables, c) >= 1
    {
      NamesIff(l.l1, l.tables, c);
    }
    if !FullAreIn(rc, l.l1, [], l.tables) {
      var c :| c in rc && rc[c] >= 0xffff && Names(l.l1, l.tables, c);
      assert TreeSum(l.l1, l.tables, c) >= 1 && Rc(rc, c) >= 0xffff;
    }
  }

  lemma FullInActive(l: Layout, rc: map<nat, nat>, k: nat)
    requires l.Sound(rc) && k < |l.snaps|
    ensures FullAreIn(rc, l.SnapL1(k), l.l1, l.tables) <==> CanReturn(l, rc, k)
  {
    forall c: nat
      ensures Names(l.SnapL1(k), l.tables, c) <==> TreeSum(l.SnapL1(k), l.tables, c) >= 1
      ensures Names(l.l1, l.tables, c) <==> TreeSum(l.l1, l.tables, c) >= 1
      ensures Rc(rc, c) <= 0xffff
    {
      NamesIff(l.SnapL1(k), l.tables, c);
      NamesIff(l.l1, l.tables, c);
      assert l.CountedRight(rc, c);
    }
    if !FullAreIn(rc, l.SnapL1(k), l.l1, l.tables) {
      var c :| c in rc && rc[c] >= 0xffff && Names(l.SnapL1(k), l.tables, c) && !Names(l.l1, l.tables, c);
      assert TreeSum(l.SnapL1(k), l.tables, c) >= 1 && Rc(rc, c) - TreeSum(l.l1, l.tables, c) >= 0xffff;
    }
  }

  // ----- what a layout shows

  /** Reading through the layout gives the image. */
  ghost predicate Shows<S(!new)>(codec: Codec<S>, data: map<Pos, S>, l: Layout, image: Image<S>)
    requires codec.cs > 0 && l.l2Size > 0
  {
    && image.tags == Tags(l.snaps) && |image.copies| == |image.tags|
    && (forall g: nat :: ReadAt(codec, l.l1, l.tables, l.l2Size, data, g) == image.active(g))
    && (forall k, g: nat :: 0 <= k < |l.snaps| ==>
        ReadAt(codec, l.SnapL1(k), l.tables, l.l2Size, data, g) == image.copies[k](g))
  }

  lemma WriteShows<S(!new)>(codec: Codec<S>, l: Layout, data: map<Pos, S>, m: Layout, now: map<Pos, S>, image: Image<S>,
        sector: nat, buf: seq<S>)
    requires codec.cs > 0 && m.l2Size == l.l2Size > 0 && Shows(codec, data, l, image)
    requires Overlaid(codec, l, data, m, now, sector, buf) && Isolated(codec, l, data, m, now)
    ensures Shows(codec, now, m, Step(image, Op.Write(sector, buf)))
  {
  }

  lemma CreateShows<S(!new)>(codec: Codec<S>, data: map<Pos, S>, l: Layout, p: Layout, image: Image<S>, id: string,
        name: string, at: nat)
    requires codec.cs > 0 && p.l2Size == l.l2Size > 0 && Shows(codec, data, l, image)
    requires IndexOfId(image.tags, IdFor(image.tags, id)) == |image.tags| && CreatedReads(codec, data, l, p)
    requires p.snaps == l.snaps + [Snapshot(at, |p.l1|, Tag(IdFor(image.tags, id), name))]
    ensures Shows(codec, data, p, Step(image, Create(id, name)))
  {
    var next := Step(image, Create(id, name));
    assert Tags(p.snaps) == Tags(l.snaps) + [Tag(IdFor(image.tags, id), name)];
    forall k, g: nat | 0 <= k < |p.snaps|
      ensures ReadAt(codec, p.SnapL1(k), p.tables, p.l2Size, data, g) == next.copies[k](g)
    {
      if k < |l.snaps| {
        assert SameReads(codec, l.l2Size, data, l.SnapL1(k), l.tables, p.SnapL1(k), p.tables);
      }
    }
  }

  lemma GotoShows<S(!new)>(codec: Codec<S>, data: map<Pos, S>, l: Layout, q: Layout, image: Image<S>, name: string)
    requires codec.cs > 0 && q.l2Size == l.l2Size > 0 && Shows(codec, data, l, image)
    requires IndexOf(image.tags, name) < |l.snaps| && GoneReads(codec, data, l, q, IndexOf(image.tags, name))
    ensures Shows(codec, data, q, Step(image, Goto(name)))
  {
    forall k, g: nat | 0 <= k < |q.snaps|
      ensures ReadAt(codec, q.SnapL1(k), q.tables, q.l2Size, data, g) == image.copies[k](g)
    {
      assert SameReads(codec, l.l2Size, data, l.SnapL1(k), l.tables, q.SnapL1(k), q.tables);
    }
  }

  lemma DeleteShows<S(!new)>(codec: Codec<S>, data: map<Pos, S>, l: Layout, o: Layout, image: Image<S>, name: string)
    requires codec.cs > 0 && o.l2Size == l.l2Size > 0 && Shows(codec, data, l, image)
    requires IndexOf(image.tags, name) < |l.snaps| && DeletedReads(codec, data, l, o, IndexOf(image.tags, name))
    ensures Shows(codec, data, o, Step(image, Delete(name)))
  {
    var i := IndexOf(image.tags, name);
    var next := Step(image, Delete(name));
    assert Tags(o.snaps) == Without(Tags(l.snaps), i);
    forall k, g: nat | 0 <= k < |o.snaps|
      ensures ReadAt(codec, o.SnapL1(k), o.tables, o.l2Size, data, g) == next.copies[k](g)
    {
      assert SameReads(codec, l.l2Size, data, l.SnapL1(Kept(i, k)), l.tables, o.SnapL1(k), o.tables);
    }
  }

  // ----- the driver

  ghost predicate DriverShows<S(!new)>(d: Driver<S>, image: Image<S>)
    reads d, d.store
    requires d.codec.cs > 0 && d.l2Size > 0
  {
    Shows(d.codec, d.data, d.L(), image)
  }

  /** A read returns what the simple form shows, and changes nothing of it. */
  method DoRead<S(!new)>(d: Driver<S>, sector: nat, count: nat, ghost image: Image<S>) returns (buf: seq<S>)
    requires d.Valid() && DriverShows(d, image)
    modifies d.cache.offsets, d.cache.counts, d.cache.tables
    ensures d.Valid() && DriverShows(d, image)
    ensures |buf| == count && forall k :: 0 <= k < count ==> buf[k] == image.active(sector + k)
  {
    buf := d.Read(sector, count);
    forall k | 0 <= k < count
      ensures buf[k] == image.active(sector + k)
    {
      assert buf[(sector + k) - sector] == ReadAt(d.codec, d.l1, d.store.tables, d.l2Size, d.data, sector + k);
    }
  }

  method DoCreate<S(!new)>(d: Driver<S>, id: string, name: string, ghost image: Image<S>)
    requires d.Valid() && DriverShows(d, image)
    modifies d, d.store, d.cache.offsets, d.cache.counts
    ensures DriverShows(d, Step(image, Create(id, name)))
    ensures d.Valid() <==> old(Countable<S>(d.L(), d.store.rc, Create(id, name)))
  {
    ghost var l, data := d.L(), d.data;
    var r := d.SnapshotCreate(id, name);
    if r == 0 {
      ghost var at :| d.snaps == l.snaps + [Snapshot(at, |d.l1|, Tag(IdFor(Tags(l.snaps), id), name))];
      CreateShows(d.codec, data, l, d.L(), image, id, name, at);
    }
  }

  method DoGoto<S(!new)>(d: Driver<S>, name: string, ghost image: Image<S>)
    requires d.Valid() && DriverShows(d, image)
    modifies d, d.store, d.cache.offsets, d.cache.counts
    ensures DriverShows(d, Step(image, Goto(name)))
    ensures d.Valid() <==> old(Countable<S>(d.L(), d.store.rc, Goto(name)))
  {
    ghost var l, data := d.L(), d.data;
    var r := d.SnapshotGoto(name);
    if r == 0 {
      GotoShows(d.codec, data, l, d.L(), image, name);
    }
  }

  method DoDelete<S(!new)>(d: Driver<S>, name: string, ghost image: Image<S>)
    requires d.Valid() && DriverShows(d, image)
    modifies d, d.store, d.cache.offsets, d.cache.counts
    ensures d.Valid() && DriverShows(d, Step(image, Delete(name)))
  {
    ghost var l, data := d.L(), d.data;
    var r := d.SnapshotDelete(name);
    if r == 0 {
      DeleteShows(d.codec, data, l, d.L(), image, name);
    }
  }

  method DoWrite<S(!new)>(d: Driver<S>, sector: nat, buf: seq<S>, ghost image: Image<S>)
    requires d.Valid() && DriverShows(d, image)
    modifies d, d.store, d.cache.offsets, d.cache.counts, d.cache.tables
    ensures d.Valid() && DriverShows(d, Step(image, Op.Write(sector, buf)))
  {
    ghost var l, data := d.L(), d.data;
    d.Write(sector, buf);
    WriteShows(d.codec, l, data, d.L(), d.data, image, sector, buf);
  }

  /** One operation: what the driver shows afterwards is what the simple form
      becomes, and it stays valid if and only if the references can be counted. */
  method Do<S(!new)>(d: Driver<S>, op: Op<S>, ghost image: Image<S>)
    requires d.Valid() && DriverShows(d, image)
    modifies d, d.store, d.cache.offsets, d.cache.counts, d.cache.tables
    ensures DriverShows(d, Step(image, op)) && (d.Valid() <==> old(Countable(d.L(), d.store.rc, op)))
  {
    match op
    case Write(sector, buf) => DoWrite(d, sector, buf, image);
    case Create(id, name) => DoCreate(d, id, name, image);
    case Goto(name) => DoGoto(d, name, image);
    case Delete(name) => DoDelete(d, name, image);
  }

  /** Whether the references of an operation can be counted, found out beforehand. */
  method Ask<S(!new)>(d: Driver<S>, op: Op<S>) returns (yes: bool)
    requires d.Valid()
    ensures yes <==> Countable(d.L(), d.store.rc, op)
  {
    yes := true;
    match op
    case Create(id, _) =>
      FullInNone(d.L(), d.store.rc);
      if IndexOfId(Tags(d.snaps), IdFor(Tags(d.snaps), id)) == |d.snaps| {
        yes := FullAreIn(d.store.rc, d.l1, [], d.store.tables);
      }
    case Goto(name) =>
      var k := IndexOf(Tags(d.snaps), name);
      if k < |d.snaps| {
        assert d.L().SnapOk(k);
        FullInActive(d.L(), d.store.rc, k);
        yes := FullAreIn(d.store.rc, d.disk[d.snaps[k].at], d.l1, d.store.tables);
      }
    case _ =>
  }

  /** Any run of operations, up to the first whose references cannot be counted:
      the counts stay exact, and the active image and every snapshot read as in
      the simple form.  With no more than 65534 snapshots at any time it is the
      whole run. */
  method DoAll<S(!new)>(d: Driver<S>, ops: seq<Op<S>>, ghost image: Image<S>) returns (n: nat)
    requires d.Valid() && DriverShows(d, image)
    modifies d, d.store, d.cache.offsets, d.cache.counts, d.cache.tables
    ensures n <= |ops| && d.Valid() && DriverShows(d, Run(image, ops[..n]))
    ensures n < |ops| ==> !Countable(d.L(), d.store.rc, ops[n])
    ensures Fits(image, ops) ==> n == |ops|
  {
    n := 0;
    assert ops[..0] == [];
    while n < |ops|
      invariant n <= |ops| && d.Valid() && DriverShows(d, Run(image, ops[..n]))
    {
      assert ops[..n + 1][..n] == ops[..n];
      var yes := Ask(d, ops[n]);
      if !yes {
        if Fits(image, ops) {
          FewAreCountable(d.L(), d.store.rc, Run(image, ops[..n]), ops[n]);
        }
        return;
      }
      Do(d, ops[n], Run(image, ops[..n]));
      n := n + 1;
    }
  }

  /** A new image, opened and used: it shows the backing image changed by the run. */
  method Session<S(!new)>(codec: Codec<S>, l2Size: nat, l1Size: nat, ops: seq<Op<S>>) returns (d: Driver<S>, n: nat)
    requires codec.Lawful() && l2Size > 0 && l1Size > 0
    ensures n <= |ops| && d.Valid() && d.codec == codec
    ensures DriverShows(d, Run(Image(codec.backing, [], []), ops[..n]))
    ensures n < |ops| ==> !Countable(d.L(), d.store.rc, ops[n])
    ensures Fits(Image(codec.backing, [], []), ops) ==> n == |ops|
  {
    var l, rc := CreateImage(l2Size, l1Size);
    d := new Driver(codec, l, rc, map[]);
    n := DoAll(d, ops, Image(codec.backing, [], []));
  }
}
