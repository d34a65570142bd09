/**
 qcow_create: the layout of a new image, which is sound.  The header is in the
 first cluster; the level-1 table, the refcount table and the refcount blocks
 follow.
 */
module Qcow2Create {
  import opened Division
  import opened Qcow2Tables
  import opened Qcow2Layout
  import opened Qcow2Cow
  import opened Qcow2Refcounts

  /** An image with nothing mapped and no snapshots, whose metadata is counted once. */
  lemma NewIsExact(l: Layout, rc: map<nat, nat>, l1Size: nat, end: nat)
    requires l.l2Size > 0 && l.l1 == Zeros(l1Size) && l.disk == map[l.l1At := l.l1] && l.snaps == [] && l.snapN == 0
    requires l.l1At > 0 && l.l1At + L1Clusters(l1Size, l.l2Size) <= end
    requires forall c: nat :: c in l.fixed <==> c < end && !Within(l.l1At, L1Clusters(l1Size, l.l2Size), c)
    requires forall c: nat :: Rc(rc, c) == One(c < end)
    ensures TreeOk(l.l1, l.tables, l.l2Size) && l.Exact(rc) && l.FlagsOk(rc)
  {
    EmptyTreeOk(l1Size, l.tables, l.l2Size);
    forall c: nat
      ensures l.CountedRight(rc, c) && l.OneUse(c)
    {
      EmptyTree(l1Size, l.tables, c);
    }
  }

  /** qcow_create for a level-1 table of l1Size entries. */
  method CreateImage(l2Size: nat, l1Size: nat) returns (l: Layout, rc: map<nat, nat>)
    requires l2Size > 0
    ensures l.l2Size == l2Size && |l.l1| == l1Size && l.snaps == []
    ensures TreeOk(l.l1, l.tables, l2Size) && l.Exact(rc) && l.FlagsOk(rc)
    ensures l1Size > 0 ==> l.Sound(rc)
    ensures forall gc: nat :: Lookup(l.l1, l.tables, l2Size, gc) == 0
  {
    var l1Clusters := L1Clusters(l1Size, l2Size);
    var table := 1 + l1Clusters;
    var block := table + 1;
    var blocks := Div(block, 4 * l2Size) + 1;
    var end := block + blocks;
    var counts := new Refcounts(map[], map[]);
    counts.UpdateRange(0, 1, 1);
    counts.UpdateRange(1, l1Clusters, 1);
    counts.UpdateRange(table, 1, 1);
    counts.UpdateRange(block, blocks, 1);
    rc := counts.rc;
    var l1 := Zeros(l1Size);
    l := Layout(l2Size, {0} + Clusters(table, end), 1, l1, map[1 := l1], [], 0, 0, map[]);
    NewIsExact(l, rc, l1Size, end);
  }
}
