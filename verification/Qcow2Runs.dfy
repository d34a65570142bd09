/** Runs of entries in a level-2 table, as the qcow2 driver counts them. */
module Qcow2Runs {
  import opened Division
  import opened Qcow2Tables
  import opened Qcow2Cow
  import opened Qcow2Link

  /** Entry base + k names the k-th cluster after the one entry base names;
      with the flags compared too unless they are masked out. */
  predicate Follows(t: Table, base: nat, k: nat, masked: bool)
    requires base + k < |t|
  {
    t[base + k].cluster == t[base].cluster + k && (masked || t[base + k].copied == t[base].copied)
  }

  /** count_contiguous_clusters. */
  method CountContiguous(nb: nat, t: Table, base: nat, start: nat, masked: bool) returns (r: nat)
    requires base + start + nb <= |t| && base < |t|
    ensures r <= nb && forall k :: start <= k < start + r ==> Follows(t, base, k, masked)
    ensures t[base].cluster == 0 && (masked || !t[base].copied) ==> r == 0
    ensures t[base].cluster != 0 && r < nb ==> !Follows(t, base, start + r, masked)
  {
    if t[base].cluster == 0 && (masked || !t[base].copied) {
      return 0;
    }
    var i := start;
    while i < start + nb
      invariant start <= i <= start + nb
      invariant forall k :: start <= k < i ==> Follows(t, base, k, masked)
    {
      if !Follows(t, base, i, masked) {
        break;
      }
      i := i + 1;
    }
    return i - start;
  }

  /** count_contiguous_free_clusters. */
  method CountFree(nb: nat, t: Table, base: nat) returns (r: nat)
    requires base + nb <= |t|
    ensures r <= nb && forall k :: base <= k < base + r ==> t[k] == UNMAPPED
    ensures r < nb ==> t[base + r] != UNMAPPED
  {
    r := 0;
    while r < nb && t[base + r] == UNMAPPED
      invariant r <= nb
      invariant forall k :: base <= k < base + r ==> t[k] == UNMAPPED
    {
      r := r + 1;
    }
  }

  /** How many clusters alloc_cluster_offset allocates at once: it stops at a
      mapped entry only, before any COPIED one, and takes at least one.  The
      reads one past the last entry wanted are guarded. */
  method SelectRun(nb: nat, t: Table, base: nat) returns (i: nat)
    requires nb > 0 && base + nb <= |t| && !t[base].copied && Clean(t)
    ensures 0 < i <= nb && NoneCopied(t, base, i)
    ensures i < nb ==> t[base + i] != UNMAPPED
  {
    i := 0;
    while i < nb
      invariant i <= nb && NoneCopied(t, base, i)
      invariant i < nb ==> !t[base + i].copied
    {
      ghost var was := i;
      var c := CountContiguous(nb - i, t, base, i, false);
      i := i + c;
      forall j | base <= j < base + i
        ensures !t[j].copied
      {
        if was <= j - base {
          assert Follows(t, base, j - base, false);
        }
      }
      assert t[base] != UNMAPPED ==> Follows(t, base, 0, false);
      if i < nb && t[base + i] != UNMAPPED {
        break;
      }
      if i < nb {
        var f := CountFree(nb - i, t, base + i);
        i := i + f;
        if i < nb && t[base + i].copied {
          break;
        }
      }
    }
  }

  /** The walks of the guest sectors in n sectors from sector, when those stay
      within c clusters and within one level-2 table. */
  lemma RunInTable(cs: nat, l2Size: nat, sector: nat, c: nat, k: nat)
    requires cs > 0 && l2Size > 0 && Mod(Div(sector, cs), l2Size) + c <= l2Size && Mod(sector, cs) + k < Mul(c, cs)
    ensures Div(sector, cs) <= Div(sector + k, cs) < Div(sector, cs) + c
    ensures Div(Div(sector + k, cs), l2Size) == Div(Div(sector, cs), l2Size)
    ensures Mod(Div(sector + k, cs), l2Size) == Mod(Div(sector, cs), l2Size) + (Div(sector + k, cs) - Div(sector, cs))
  {
    DivFrom(sector, k, cs);
    var q := Div(Mod(sector, cs) + k, cs);
    DivBelow(Mod(sector, cs) + k, cs, c);
    StepInside(Div(sector, cs), l2Size, q);
  }

  /** c entries from j of the table under level-1 entry i name the clusters from h, or none. */
  ghost predicate TableRun(l1: Table, tables: map<nat, Table>, i: nat, j: nat, h: nat, c: nat) {
    forall y :: j <= y < j + c ==> Walk(l1, tables, i, y) == if h == 0 then 0 else h + (y - j)
  }

  /** Every one of n guest sectors lies where its own walk says, counted from h. */
  ghost predicate SectorRun(l1: Table, tables: map<nat, Table>, l2Size: nat, cs: nat, h: nat, sector: nat, n: nat)
    requires cs > 0 && l2Size > 0
  {
    forall g :: sector <= g < sector + n ==>
      Lookup(l1, tables, l2Size, Div(g, cs)) == if h == 0 then 0 else h + (Div(g, cs) - Div(sector, cs))
  }

  lemma TableRunIsSectorRun(l1: Table, tables: map<nat, Table>, l2Size: nat, cs: nat, h: nat, sector: nat,
        c: nat, n: nat)
    requires cs > 0 && l2Size > 0 && Mod(Div(sector, cs), l2Size) + c <= l2Size && Mod(sector, cs) + n <= Mul(c, cs)
    requires TableRun(l1, tables, Div(Div(sector, cs), l2Size), Mod(Div(sector, cs), l2Size), h, c)
    ensures SectorRun(l1, tables, l2Size, cs, h, sector, n)
  {
    forall g | sector <= g < sector + n
      ensures Lookup(l1, tables, l2Size, Div(g, cs)) == if h == 0 then 0 else h + (Div(g, cs) - Div(sector, cs))
    {
      RunInTable(cs, l2Size, sector, c, g - sector);
    }
  }

  lemma FollowsIsTableRun(l1: Table, tables: map<nat, Table>, i: nat, j: nat, c: nat, masked: bool)
    requires i < |l1| && j + c <= |Reached(l1[i], tables)| && c > 0 && Reached(l1[i], tables)[j].cluster != 0
    requires forall k :: 0 <= k < c ==> Follows(Reached(l1[i], tables), j, k, masked)
    ensures TableRun(l1, tables, i, j, Reached(l1[i], tables)[j].cluster, c)
  {
    var t := Reached(l1[i], tables);
    forall y | j <= y < j + c
      ensures Walk(l1, tables, i, y) == t[j].cluster + (y - j)
    {
      assert Follows(t, j, y - j, masked);
    }
  }
}
