/**
 The mapping tables of a qcow version 1 image, and the parts of the file they
 use.  Level-2 tables and clusters are only ever added at the end of the
 file; a level-1 or level-2 entry is a file offset in bytes, 0 for none.
 */
module Qcow1Image {
  import opened Collections
  import opened Division
  import opened Sectors

  type Table = seq<nat>

  /** Cluster and table sizes in bytes, the end of the header and level-1
      table, the file's length, and the tables. */
  datatype Image = Image(clusterBytes: nat, tableBytes: nat, headEnd: nat, length: nat,
                         l2Size: nat, l1: Table, tables: map<nat, Table>)
  {
    /** The cluster that entry j of the table under level-1 entry i names. */
    ghost function Walk(i: nat, j: nat): nat {
      if i < |l1| && l1[i] != 0 && l1[i] in tables && j < |tables[l1[i]]| then tables[l1[i]][j] else 0
    }

    ghost function TableAt(i: nat): nat {
      if i < |l1| then l1[i] else 0
    }

    ghost function Lookup(gc: nat): nat {
      Walk(Div(gc, l2Size), Mod(gc, l2Size))
    }

    /** n bytes from at are in the file, after the header. */
    ghost predicate Inside(at: nat, n: nat) {
      headEnd <= at && at + n <= length
    }

    ghost predicate TableOk(i: nat) {
      TableAt(i) != 0 ==>
        TableAt(i) in tables && |tables[TableAt(i)]| == l2Size && Inside(TableAt(i), tableBytes)
    }

    ghost predicate ClusterOk(i: nat, j: nat) {
      Walk(i, j) != 0 ==> Inside(Walk(i, j), clusterBytes) && Mod(Walk(i, j), clusterBytes) == 0
    }

    ghost predicate TablesApart(i: nat, y: nat) {
      i != y && TableAt(i) != 0 && TableAt(y) != 0 ==> Apart(TableAt(i), tableBytes, TableAt(y), tableBytes)
    }

    ghost predicate TableFromCluster(i: nat, y: nat, z: nat) {
      TableAt(i) != 0 && Walk(y, z) != 0 ==> Apart(TableAt(i), tableBytes, Walk(y, z), clusterBytes)
    }

    ghost predicate ClustersApart(i: nat, j: nat, y: nat, z: nat) {
      (i, j) != (y, z) && Walk(i, j) != 0 && Walk(y, z) != 0 ==>
          Apart(Walk(i, j), clusterBytes, Walk(y, z), clusterBytes)
    }

    /** Every table and cluster in use has its own part of the file. */
    ghost predicate Sound() {
      && clusterBytes > 0 && tableBytes > 0 && l2Size > 0 && 0 < headEnd <= length
      && (forall i: nat :: TableOk(i))
      && (forall i: nat, j: nat :: ClusterOk(i, j))
      && (forall i: nat, y: nat :: TablesApart(i, y))
      && (forall i: nat, y: nat, z: nat :: TableFromCluster(i, y, z))
      && (forall i: nat, j: nat, y: nat, z: nat :: ClustersApart(i, j, y, z))
    }

    /** Where the next table or cluster goes: the end of the file, rounded up. */
    function NextFree(): nat
      requires clusterBytes > 0
    {
      Mul(RoundUp(length, clusterBytes), clusterBytes)
    }

    ghost function WithTable(i: nat): Image
      requires clusterBytes > 0 && i < |l1|
    {
      var t: Table := l1[i := NextFree()];
      this.(l1 := t, tables := tables[NextFree() := Repeat(0, l2Size)], length := NextFree() + tableBytes)
    }

    ghost function WithCluster(i: nat, j: nat): Image
      requires clusterBytes > 0 && i < |l1| && l1[i] in tables && j < |tables[l1[i]]|
    {
      var t: Table := tables[l1[i]][j := NextFree()];
      this.(tables := tables[l1[i] := t], length := NextFree() + clusterBytes)
    }
  }

  /** Two ranges of the file have no byte in common. */
  ghost predicate Apart(a: nat, n: nat, b: nat, m: nat) {
    a + n <= b || b + m <= a
  }

  lemma NextFreeIsFree(s: Image)
    requires s.Sound()
    ensures s.length <= s.NextFree() && s.NextFree() != 0 && Mod(s.NextFree(), s.clusterBytes) == 0
  {
    QuotientIs(s.NextFree(), s.clusterBytes, RoundUp(s.length, s.clusterBytes));
  }

  /** A new table changes no walk. */
  lemma TableWalks(s: Image, i: nat)
    requires s.Sound() && i < |s.l1| && s.l1[i] == 0
    ensures forall y: nat, z: nat :: s.WithTable(i).Walk(y, z) == s.Walk(y, z)
  {
    NextFreeIsFree(s);
    var m := s.WithTable(i);
    forall y: nat, z: nat
      ensures m.Walk(y, z) == s.Walk(y, z)
    {
      assert s.TableOk(y);
    }
  }

  lemma TableKeepsSound(s: Image, i: nat)
    requires s.Sound() && i < |s.l1| && s.l1[i] == 0
    ensures s.WithTable(i).Sound()
  {
    NextFreeIsFree(s);
    TableWalks(s, i);
    var m := s.WithTable(i);
    forall y: nat
      ensures m.TableOk(y)
    {
      assert s.TableOk(y);
    }
    forall y: nat, z: nat
      ensures m.ClusterOk(y, z) && m.TablesApart(y, z)
    {
      assert s.ClusterOk(y, z) && s.TablesApart(y, z) && s.TableOk(y) && s.TableOk(z);
    }
    forall y: nat, a: nat, b: nat
      ensures m.TableFromCluster(y, a, b)
    {
      assert s.TableFromCluster(y, a, b) && s.ClusterOk(a, b);
    }
    forall a: nat, b: nat, y: nat, z: nat
      ensures m.ClustersApart(a, b, y, z)
    {
      assert s.ClustersApart(a, b, y, z);
    }
  }

  /** A new cluster changes one walk. */
  lemma ClusterWalks(s: Image, i: nat, j: nat)
    requires s.Sound() && i < |s.l1| && s.l1[i] != 0 && s.l1[i] in s.tables && j < s.l2Size &&
      |s.tables[s.l1[i]]| == s.l2Size
    ensures forall y: nat, z: nat ::
      s.WithCluster(i, j).Walk(y, z) == if y == i && z == j then s.NextFree() else s.Walk(y, z)
  {
    var m := s.WithCluster(i, j);
    forall y: nat, z: nat
      ensures m.Walk(y, z) == if y == i && z == j then s.NextFree() else s.Walk(y, z)
    {
      assert s.TablesApart(i, y);
    }
  }

  lemma ClusterKeepsSound(s: Image, i: nat, j: nat)
    requires s.Sound() && i < |s.l1| && s.l1[i] != 0 && s.l1[i] in s.tables && j < s.l2Size &&
      |s.tables[s.l1[i]]| == s.l2Size
    ensures s.WithCluster(i, j).Sound()
  {
    NextFreeIsFree(s);
    ClusterWalks(s, i, j);
    var m := s.WithCluster(i, j);
    forall y: nat
      ensures m.TableOk(y)
    {
      assert s.TableOk(y);
    }
    forall y: nat, z: nat
      ensures m.ClusterOk(y, z) && m.TablesApart(y, z)
    {
      assert s.ClusterOk(y, z) && s.TablesApart(y, z);
    }
    forall y: nat, a: nat, b: nat
      ensures m.TableFromCluster(y, a, b)
    {
      assert s.TableFromCluster(y, a, b) && s.TableOk(y);
    }
    forall a: nat, b: nat, y: nat, z: nat
      ensures m.ClustersApart(a, b, y, z)
    {
      assert s.ClustersApart(a, b, y, z) && s.ClusterOk(a, b) && s.ClusterOk(y, z);
    }
  }

  /** Distinct guest clusters have disjoint host ranges. */
  lemma DisjointRanges(s: Image, x: nat, y: nat)
    requires s.Sound() && x != y && s.Lookup(x) != 0 && s.Lookup(y) != 0
    ensures Apart(s.Lookup(x), s.clusterBytes, s.Lookup(y), s.clusterBytes)
    ensures s.Lookup(x) != s.Lookup(y)
  {
    DivModDiffer(x, y, s.l2Size);
    assert s.ClustersApart(Div(x, s.l2Size), Mod(x, s.l2Size), Div(y, s.l2Size), Mod(y, s.l2Size));
  }

  // ----- what a guest reads

  /** Guest sector g: unmapped clusters read from the backing image. */
  ghost function Content<S(!new)>(codec: Codec<S>, s: Image, data: map<Pos, S>, g: nat): S
  {
    var h := s.Lookup(Div(g, codec.cs));
    if h == 0 then codec.backing(g) else codec.Open(g, codec.Get(data, Pos(h, Mod(g, codec.cs))))
  }
}
