/**
 Reference counting in the qcow2 driver: single counts, runs of clusters,
 allocation, and the walk over a whole tree that snapshots use.
 */
module Qcow2Refcounts {
  import opened Qcow2Tables
  import opened Qcow2Layout

  const EINVAL: int := 22

  lemma {:induction false} Bounded(s: set<nat>) returns (limit: nat)
    ensures forall c :: c in s ==> c < limit
  {
    limit := 0;
    if s != {} {
      var c :| c in s;
      var rest := Bounded(s - {c});
      limit := if rest <= c then c + 1 else rest;
      assert forall x :: x in s ==> x == c || x in s - {c};
    }
  }

  class Refcounts {
    var rc: map<nat, nat>
    var freeIndex: nat
    var tables: map<nat, Table>

    constructor (rc: map<nat, nat>, tables: map<nat, Table>)
      ensures this.rc == rc && this.tables == tables && freeIndex == 0
    {
      this.rc, this.tables, freeIndex := rc, tables, 0;
    }

    /** update_cluster_refcount, for a cluster whose refcount block exists. */
    method UpdateCluster(c: nat, addend: int) returns (r: int)
      modifies `rc, `freeIndex
      ensures var n := Rc(old(rc), c) + addend;
        if 0 <= n <= 0xffff then r == n && rc == old(rc)[c := n]
        else r == -EINVAL && rc == old(rc)
      ensures r == 0 ==> freeIndex <= c
      ensures freeIndex <= old(freeIndex)
    {
      var n := Rc(rc, c) + addend;
      if n < 0 || n > 0xffff {
        return -EINVAL;
      }
      if n == 0 && c < freeIndex {
        freeIndex := c;
      }
      rc := rc[c := n];
      return n;
    }

    /** update_refcount over n whole clusters: a count that would leave 0 to 0xffff is kept. */
    method UpdateRange(at: nat, n: nat, addend: int)
      requires -1 <= addend <= 1
      modifies `rc, `freeIndex
      ensures forall c: nat :: Rc(rc, c) == Bump(Rc(old(rc), c), addend, One(Within(at, n, c)))
    {
      var i := 0;
      while i < n
        invariant i <= n
        invariant forall c: nat :: Rc(rc, c) == Bump(Rc(old(rc), c), addend, One(Within(at, i, c)))
      {
        var r := UpdateCluster(at + i, addend);
        i := i + 1;
      }
    }

    /** free_clusters, for clusters that have a reference to give back. */
    method FreeRange(at: nat, n: nat)
      requires forall c: nat :: Within(at, n, c) ==> 1 <= Rc(rc, c) <= 0xffff
      modifies `rc, `freeIndex
      ensures forall c: nat :: Rc(old(rc), c) == Rc(rc, c) + One(Within(at, n, c))
    {
      UpdateRange(at, n, -1);
    }

    /** alloc_clusters_noref: look for n consecutive unused clusters from
        free_cluster_index on, starting over after each used one. */
    method FindFree(n: nat) returns (at: nat)
      modifies `freeIndex
      ensures forall c: nat :: Within(at, n, c) ==> Rc(rc, c) == 0
      ensures at + n == freeIndex && old(freeIndex) <= at
    {
      ghost var limit := Bounded(rc.Keys);
      var i := 0;
      while i < n
        invariant i <= n && old(freeIndex) <= freeIndex - i
        invariant forall c: nat :: Within(freeIndex - i, i, c) ==> Rc(rc, c) == 0
        decreases if freeIndex < limit then limit - freeIndex else 0, n - i
      {
        var c := freeIndex;
        freeIndex := freeIndex + 1;
        i := if Rc(rc, c) != 0 then 0 else i + 1;
      }
      at := freeIndex - n;
    }

    /** alloc_clusters: take them and count one reference each. */
    method Alloc(n: nat) returns (at: nat)
      modifies `rc, `freeIndex
      ensures forall c: nat :: Within(at, n, c) ==> Rc(old(rc), c) == 0
      ensures forall c: nat :: Rc(rc, c) == Rc(old(rc), c) + One(Within(at, n, c))
    {
      at := FindFree(n);
      UpdateRange(at, n, 1);
    }

    /** Give back one reference to each cluster of a list. */
    method FreeAll(olds: Table)
      requires forall i :: 0 <= i < |olds| ==> olds[i].cluster != 0
      requires forall c: nat :: CountTable(olds, c) <= Rc(rc, c) <= 0xffff
      modifies `rc, `freeIndex
      ensures forall c: nat :: Rc(rc, c) + CountTable(olds, c) == Rc(old(rc), c)
    {
      var i := 0;
      while i < |olds|
        invariant i <= |olds|
        invariant forall c: nat :: Rc(rc, c) + CountTable(olds[..i], c) == Rc(old(rc), c)
      {
        forall c: nat
          ensures CountTable(olds[..i + 1], c) ==
            CountTable(olds[..i], c) + One(olds[i].cluster == c) <= CountTable(olds, c)
        {
          CountPrefix(olds, i, c);
        }
        FreeRange(olds[i].cluster, 1);
        i := i + 1;
      }
      assert olds[..i] == olds;
    }

    // ----- update_snapshot_refcount

    /** The count of one cluster is changed, or only looked up. */
    method Recount(c: nat, addend: int) returns (refcount: int)
      requires -1 <= addend <= 1
      modifies `rc, `freeIndex
      ensures forall x: nat :: Rc(rc, x) == if x == c then Bump(Rc(old(rc), c), addend, 1) else Rc(old(rc), x)
      ensures refcount == 1 <==> Rc(rc, c) == 1
    {
      if addend != 0 {
        refcount := UpdateCluster(c, addend);
      } else {
        refcount := Rc(rc, c);
      }
    }

    /** The inner loop: every data cluster one level-2 table names. */
    method WalkTable(ghost pass: Pass, ghost n: nat, ghost i: nat, table: Table, addend: int) returns (r: Table)
      requires pass.Ok(n) && i < |pass.l1| && table == Reached(pass.l1[i], pass.tables) && addend == pass.addend
      requires forall c: nat :: c != 0 ==> Rc(rc, c) == pass.Before(i, c)
      modifies `rc, `freeIndex
      ensures forall c: nat :: c != 0 ==> Rc(rc, c) == pass.Midway(i, |table|, c)
      ensures r == pass.FlagTable(table)
      ensures Rc(rc, 0) == Rc(old(rc), 0)
    {
      r := table;
      var j := 0;
      while j < |table|
        invariant j <= |table| == |r|
        invariant forall c: nat :: c != 0 ==> Rc(rc, c) == pass.Midway(i, j, c)
        invariant forall x :: 0 <= x < j ==> r[x] == pass.FlagEntry(table[x])
        invariant forall x :: j <= x < |table| ==> r[x] == table[x]
        invariant Rc(rc, 0) == Rc(old(rc), 0)
      {
        var c := r[j].cluster;
        if c != 0 {
          pass.EntryVisitedOnce(n, i, j);
          var refcount := Recount(c, addend);
          r := r[j := Entry(c, refcount == 1)];
        }
        forall x: nat | x != 0
          ensures Rc(rc, x) == pass.Midway(i, j + 1, x)
        {
          pass.MidwayNext(i, j, x);
        }
        j := j + 1;
      }
    }

    /** One level-1 entry: the table it leads to, then that table's own cluster. */
    method WalkEntry(ghost pass: Pass, ghost n: nat, ghost i: nat, c: nat, addend: int) returns (e: Entry)
      requires pass.Ok(n) && i < |pass.l1| && addend == pass.addend
      requires pass.l1[i].cluster == c != 0 && c in tables && c in pass.tables && tables[c] == pass.tables[c]
      requires forall x: nat :: x != 0 ==> Rc(rc, x) == pass.Before(i, x)
      modifies `rc, `freeIndex, `tables
      ensures forall x: nat :: x != 0 ==> Rc(rc, x) == pass.Before(i + 1, x)
      ensures tables == old(tables)[c := pass.FlagTable(pass.tables[c])]
      ensures e == pass.FlagEntry(pass.l1[i])
      ensures Rc(rc, 0) == Rc(old(rc), 0)
    {
      var table := WalkTable(pass, n, i, tables[c], addend);
      tables := tables[c := table];
      pass.TableVisitedOnce(n, i);
      var refcount := Recount(c, addend);
      e := Entry(c, refcount == 1);
      forall x: nat | x != 0 && x != c
        ensures Rc(rc, x) == pass.Before(i + 1, x)
      {
        pass.BeforeNext(i, x);
      }
    }

    /** One iteration of the outer loop. */
    method WalkStep(ghost pass: Pass, ghost n: nat, i: nat, l1: Table, addend: int, u: Table) returns (v: Table)
      requires pass.Ok(n) && pass.l1 == l1 && i < |l1| && addend == pass.addend
      requires forall c: nat :: c != 0 ==> Rc(rc, c) == pass.Before(i, c)
      requires pass.Walked(i, tables, u)
      modifies `rc, `freeIndex, `tables
      ensures forall c: nat :: c != 0 ==> Rc(rc, c) == pass.Before(i + 1, c)
      ensures pass.Walked(i + 1, tables, v)
      ensures Rc(rc, 0) == Rc(old(rc), 0)
    {
      v := u;
      if l1[i].cluster != 0 {
        pass.WalkOne(n, i, tables, u);
        var e := WalkEntry(pass, n, i, l1[i].cluster, addend);
        v := u[i := e];
      } else {
        pass.WalkEmpty(n, i, tables, u);
        forall x: nat | x != 0
          ensures Rc(rc, x) == pass.Before(i + 1, x)
        {
          pass.BeforeNext(i, x);
        }
      }
    }

    /** update_snapshot_refcount on a level-1 table: add to the count of every
        cluster the tree refers to, and make the COPIED flags of the tree agree
        with the counts that result. */
    method WalkTree(l1: Table, addend: int, ghost n: nat) returns (u: Table)
      requires Pass(rc, addend, l1, tables).Ok(n)
      modifies `rc, `freeIndex, `tables
      ensures var pass := Pass(old(rc), addend, l1, old(tables));
        && (forall c: nat :: c != 0 ==> Rc(rc, c) == pass.Final(c))
        && u == pass.FlagTable(l1) && tables == pass.ResultTables()
      ensures Rc(rc, 0) == Rc(old(rc), 0)
    {
      ghost var pass := Pass(rc, addend, l1, tables);
      u := l1;
      var i := 0;
      while i < |l1|
        invariant i <= |l1|
        invariant forall c: nat :: c != 0 ==> Rc(rc, c) == pass.Before(i, c)
        invariant pass.Walked(i, tables, u)
        invariant Rc(rc, 0) == Rc(old(rc), 0)
      {
        u := WalkStep(pass, n, i, l1, addend, u);
        i := i + 1;
      }
      assert l1[..|l1|] == l1;
      pass.WalkedAll(tables, u);
    }
  }
}
