/** StopGap's bookkeeping of free space: every gap is held in an index by position
    and in an index by size, and both are kept in step while gaps shrink and merge. */
module Gaps {
  import opened Options
  import opened Multimaps
  import opened Sequences
  import opened Extents

  type RegionId = nat

  datatype Region = Region(lcn: nat, length: nat)

  type Sizes = Multimap
  type Memory = map<RegionId, Region>

  // -------------------------------------------------------------- the indices

  /** regions_ maps each extent's first cluster to its region. */
  ghost predicate IndexOk(memory: Memory, regions: map<nat, RegionId>) {
    forall l :: l in regions ==> regions[l] in memory && memory[regions[l]].lcn == l
  }

  ghost function ExtentsOf(memory: Memory, regions: map<nat, RegionId>): Extents {
    map l | l in regions && regions[l] in memory :: memory[regions[l]].length
  }

  ghost predicate Indexed(memory: Memory, regions: map<nat, RegionId>, id: RegionId) {
    id in memory && memory[id].lcn in regions && regions[memory[id].lcn] == id
  }

  /** sizes_ lists exactly the indexed regions, each once, under its length, in order. */
  ghost predicate SizesOk(memory: Memory, regions: map<nat, RegionId>, sizes: Sizes) {
    && NoDup(sizes) && Sorted(sizes)
    && (forall e :: e in sizes <==> Indexed(memory, regions, e.1) && memory[e.1].length == e.0)
  }

  // ------------------------------------------------------- changing the index

  /** Region g at l leaves the indices. */
  lemma DropRegion(memory: Memory, regions: map<nat, RegionId>, sizes: Sizes, l: nat)
    requires IndexOk(memory, regions) && SizesOk(memory, regions, sizes) && l in regions
    ensures var g := regions[l];
      && IndexOk(memory, regions - {l})
      && SizesOk(memory, regions - {l}, Without(sizes, (memory[g].length, g)))
      && ExtentsOf(memory, regions - {l}) == ExtentsOf(memory, regions) - {l}
  {
    var g := regions[l];
    WithoutSpec(sizes, (memory[g].length, g));
    SortedWithout(sizes, (memory[g].length, g));
    hide NoDup, Sorted;
  }

  /** A new region enters the indices. */
  lemma AddRegion(memory: Memory, regions: map<nat, RegionId>, sizes: Sizes, id: RegionId, r: Region)
    requires IndexOk(memory, regions) && SizesOk(memory, regions, sizes) && r.lcn !in regions
    requires forall l :: l in regions ==> regions[l] != id
    ensures IndexOk(memory[id := r], regions[r.lcn := id])
    ensures SizesOk(memory[id := r], regions[r.lcn := id], Inserted(sizes, (r.length, id)))
    ensures ExtentsOf(memory[id := r], regions[r.lcn := id]) == ExtentsOf(memory, regions)[r.lcn := r.length]
  {
    assert !Indexed(memory, regions, id);
    InsertedOk(sizes, (r.length, id));
    hide NoDup, Sorted;
  }

  /** Region g, which was at l, now is r. */
  lemma MoveRegion(memory: Memory, regions: map<nat, RegionId>, sizes: Sizes, l: nat, r: Region)
    requires IndexOk(memory, regions) && SizesOk(memory, regions, sizes) && l in regions
    requires r.lcn == l || r.lcn !in regions
    ensures var g := regions[l];
      var memory', regions' := memory[g := r], (regions - {l})[r.lcn := g];
      && IndexOk(memory', regions')
      && SizesOk(memory', regions', Inserted(Without(sizes, (memory[g].length, g)), (r.length, g)))
      && ExtentsOf(memory', regions') == (ExtentsOf(memory, regions) - {l})[r.lcn := r.length]
  {
    hide SizesOk, ExtentsOf;
    var g := regions[l];
    DropRegion(memory, regions, sizes, l);
    AddRegion(memory, regions - {l}, Without(sizes, (memory[g].length, g)), g, r);
  }

  // ------------------------------------------------------------- scan results

  /** What a volume scan yields: non-empty extents with used clusters in between. */
  predicate WellFormed(found: seq<Region>) {
    && (forall i :: 0 <= i < |found| ==> found[i].length > 0)
    && (forall i, j :: 0 <= i < |found| && 0 <= j < |found| && i != j ==>
          found[i].lcn + found[i].length < found[j].lcn || found[j].lcn + found[j].length < found[i].lcn)
  }

  ghost function Found(found: seq<Region>): Extents {
    if found == [] then map[] else Found(found[..|found| - 1])[found[|found| - 1].lcn := found[|found| - 1].length]
  }

  lemma {:induction false} FoundAt(found: seq<Region>, i: nat)
    requires WellFormed(found) && i < |found|
    ensures found[i].lcn in Found(found) && Found(found)[found[i].lcn] == found[i].length
  {
    var n := |found| - 1;
    if i < n {
      FoundAt(found[..n], i);
    }
  }

  lemma {:induction false} FoundFrom(found: seq<Region>, l: nat) returns (i: nat)
    requires l in Found(found)
    ensures i < |found| && found[i] == Region(l, Found(found)[l])
  {
    var n := |found| - 1;
    if found[n].lcn == l {
      i := n;
    } else {
      i := FoundFrom(found[..n], l);
    }
  }

  lemma FoundExactly(found: seq<Region>)
    requires WellFormed(found)
    ensures forall l, n :: l in Found(found) && Found(found)[l] == n <==> Region(l, n) in found
  {
    hide Found;
    forall l, n | Region(l, n) in found
      ensures l in Found(found) && Found(found)[l] == n
    {
      var i :| 0 <= i < |found| && found[i] == Region(l, n);
      FoundAt(found, i);
    }
    forall l | l in Found(found)
      ensures Region(l, Found(found)[l]) in found
    {
      var i := FoundFrom(found, l);
    }
  }

  lemma FoundCoalesced(found: seq<Region>)
    requires WellFormed(found)
    ensures Coalesced(Found(found))
  {
    var e := Found(found);
    forall a | a in e
      ensures e[a] > 0
    {
      var i := FoundFrom(found, a);
    }
    forall a, b | a in e && b in e && a < b
      ensures a + e[a] < b
    {
      var i := FoundFrom(found, a);
      var j := FoundFrom(found, b);
    }
  }

  /** The next structure starts at a cluster not indexed yet. */
  lemma FoundNew(found: seq<Region>, i: nat)
    requires WellFormed(found) && i < |found|
    ensures found[i].lcn !in Found(found[..i])
    ensures Found(found[..i + 1]) == Found(found[..i])[found[i].lcn := found[i].length]
  {
    assert found[..i + 1][..i] == found[..i];
    if found[i].lcn in Found(found[..i]) {
      var j := FoundFrom(found[..i], found[i].lcn);
      assert false;
    }
  }

  lemma ExtentAt(memory: Memory, regions: map<nat, RegionId>, l: nat)
    requires IndexOk(memory, regions)
    ensures l in ExtentsOf(memory, regions) <==> l in regions
    ensures l in regions ==> regions[l] in memory && memory[regions[l]] == Region(l, ExtentsOf(memory, regions)[l])
  {
  }

  /** Every indexed region is one of the allocated structures. */
  lemma IndexAllocated(memory: Memory, regions: map<nat, RegionId>, next: RegionId)
    requires IndexOk(memory, regions) && forall id :: id in memory ==> id < next
    ensures forall l :: l in regions ==> regions[l] != next
  {
  }

  /** Every indexed region has its entry in the index by size, once. */
  lemma SizeListed(memory: Memory, regions: map<nat, RegionId>, sizes: Sizes, l: nat)
    requires IndexOk(memory, regions) && SizesOk(memory, regions, sizes) && l in regions
    ensures var e := (memory[regions[l]].length, regions[l]); |Without(sizes, e)| == |sizes| - 1
  {
    var e := (memory[regions[l]].length, regions[l]);
    assert Indexed(memory, regions, e.1);
    assert e in sizes;
    WithoutSpec(sizes, e);
  }

  lemma SizesListed(memory: Memory, regions: map<nat, RegionId>, sizes: Sizes)
    requires SizesOk(memory, regions, sizes)
    ensures Sorted(sizes) && forall j :: 0 <= j < |sizes| ==> sizes[j].1 in memory
  {
    forall j | 0 <= j < |sizes|
      ensures sizes[j].1 in memory
    {
      assert sizes[j] in sizes;
    }
  }

  /** A gap larger than this is large enough not to leave a small remainder. */
  function Ample(clusters: nat): (a: nat)
    ensures a >= clusters + 512 && a >= clusters * 3 / 2 && (a == clusters + 512 || a == clusters * 3 / 2)
  {
    if clusters * 3 / 2 > clusters + 512 then clusters * 3 / 2 else clusters + 512
  }

  /** The region that must not be returned: where it starts, and which structure it is,
      if it is one of the enumeration's own and not a copy. */
  datatype Barred = Barred(lcn: nat, id: Option<RegionId>)

  // ---------------------------------------------------------------- the class

  class GapEnumeration {
    var memory: Memory                 // the winx_volume_region structures
    var regions: map<nat, RegionId>    // regions_
    var sizes: Sizes                   // sizes_
    var listed: bool                   // info_ is not null
    var next: RegionId                 // structures allocated so far

    ghost function View(): Extents
      reads this
    {
      ExtentsOf(memory, regions)
    }

    ghost predicate Valid()
      reads this
    {
      && IndexOk(memory, regions) && SizesOk(memory, regions, sizes) && Coalesced(View())
      && (forall id :: id in memory ==> id < next) && (regions != map[] ==> listed)
    }

    constructor ()
      ensures Valid()
    {
      memory, regions, sizes, listed, next := map[], map[], [], false, 0;
      new;
      Scan();
    }

    /** Rebuild both indices from the structures a scan returned. */
    method Filter(found: seq<Region>)
      requires WellFormed(found)
      modifies this
      ensures Valid() && View() == Found(found)
      ensures forall l, n :: l in View() && View()[l] == n <==> Region(l, n) in found
    {
      hide Coalesced, Inserted, SizesOk, ExtentsOf, IndexOk, WellFormed, Found;
      memory, regions, sizes, next := map[], map[], [], 0;
      listed := found != [];
      EmptyIndex();
      assert found[..0] == [];
      for i := 0 to |found|
        invariant IndexOk(memory, regions) && SizesOk(memory, regions, sizes)
        invariant next == i && forall id :: id in memory ==> id < next
        invariant View() == Found(found[..i])
        invariant listed == (found != [])
      {
        FoundNew(found, i);
        ExtentAt(memory, regions, found[i].lcn);
        IndexAllocated(memory, regions, next);
        AddRegion(memory, regions, sizes, next, found[i]);
        memory := memory[next := found[i]];
        regions := regions[found[i].lcn := next];
        sizes := Inserted(sizes, (found[i].length, next));
        next := next + 1;
      }
      assert found[..|found|] == found;
      FoundCoalesced(found);
      NothingFound(memory, regions, found);
      FoundExactly(found);
    }

    /** The volume is scanned anew; any well-formed result is possible. */
    method Scan()
      modifies this
      ensures Valid()
    {
      var found: seq<Region> := *;
      if WellFormed(found) {
        Filter(found);
      } else {
        Filter([]);
      }
    }

    /** The region's entry leaves the index by size. */
    method EraseSize(length: nat, id: RegionId)
      modifies this`sizes
      ensures sizes == Without(old(sizes), (length, id))
    {
      sizes := Erase(sizes, (length, id));
    }

    /** Where sizes of at least n begin. */
    method LowerBound(n: nat) returns (i: nat)
      requires Sorted(sizes)
      ensures Bound(n, i)
    {
      i := 0;
      while i < |sizes| && sizes[i].0 < n
        invariant i <= |sizes| && forall j :: 0 <= j < i ==> sizes[j].0 < n
      {
        i := i + 1;
      }
    }

    /** i is where sizes of at least n begin. */
    ghost predicate Bound(n: nat, i: nat)
      reads this
    {
      i <= |sizes| && forall j :: 0 <= j < |sizes| ==> (j < i <==> sizes[j].0 < n)
    }

    /** No entry from lo to hi - 1 may be returned. */
    ghost predicate Unsuited(lo: nat, hi: nat, barred: Option<Barred>, behindOnly: bool)
      requires forall j :: 0 <= j < |sizes| ==> sizes[j].1 in memory
      requires hi <= |sizes|
      reads this
    {
      forall j :: lo <= j < hi ==> !Suits(j, barred, behindOnly)
    }

    lemma BoundOrder(n: nat, lo: nat, hi: nat)
      requires Bound(n, lo) && Bound(n + 1, hi)
      ensures lo <= hi <= |sizes| && forall j :: lo <= j < hi ==> sizes[j].0 == n
    {
      assert hi < |sizes| ==> sizes[hi].0 >= n + 1;
    }

    lemma NothingSized(clusters: nat, barred: Option<Barred>, behindOnly: bool)
      requires sizes == []
      ensures NoneIn(clusters, barred, behindOnly)
    {
    }

    lemma BoundAtMost(n: nat, i: nat)
      requires Bound(n, i)
      ensures i <= |sizes|
    {
    }

    lemma ExactPreferred(clusters: nat, barred: Option<Barred>, behindOnly: bool, lo: nat, k: nat)
      requires forall j :: 0 <= j < |sizes| ==> sizes[j].1 in memory
      requires Bound(clusters, lo) && lo <= k < |sizes| && sizes[k].0 == clusters && Unsuited(lo, k, barred, behindOnly)
      requires Suits(k, barred, behindOnly)
      ensures Preferred(clusters, barred, behindOnly, k) && !NoneIn(clusters, barred, behindOnly)
    {
      hide Suits, Ample;
    }

    lemma AmplePreferred(clusters: nat, barred: Option<Barred>, behindOnly: bool, lo: nat, hi: nat, ample: nat, k: nat)
      requires forall j :: 0 <= j < |sizes| ==> sizes[j].1 in memory
      requires Bound(clusters, lo) && Bound(clusters + 1, hi) && Bound(Ample(clusters) + 1, ample)
      requires Unsuited(lo, hi, barred, behindOnly) && ample <= k < |sizes| && Unsuited(ample, k, barred, behindOnly)
      requires Suits(k, barred, behindOnly)
      ensures Preferred(clusters, barred, behindOnly, k) && !NoneIn(clusters, barred, behindOnly)
    {
      hide Suits, Ample;
    }

    lemma LargestPreferred(clusters: nat, barred: Option<Barred>, behindOnly: bool, lo: nat, hi: nat, ample: nat,
                           k: nat)
      requires forall j :: 0 <= j < |sizes| ==> sizes[j].1 in memory
      requires Bound(clusters, lo) && Bound(clusters + 1, hi) && Bound(Ample(clusters) + 1, ample)
      requires Unsuited(lo, hi, barred, behindOnly) && Unsuited(ample, |sizes|, barred, behindOnly)
      requires lo <= k <= |sizes| && Unsuited(k, |sizes|, barred, behindOnly) &&
               (k > lo ==> Suits(k - 1, barred, behindOnly))
      ensures k > lo ==> Preferred(clusters, barred, behindOnly, k - 1)
      ensures NoneIn(clusters, barred, behindOnly) <==> k == lo
    {
      hide Suits, Ample;
    }

    /** No gap of at least the given size may be returned. */
    ghost predicate NoneIn(clusters: nat, barred: Option<Barred>, behindOnly: bool)
      requires forall j :: 0 <= j < |sizes| ==> sizes[j].1 in memory
      reads this
    {
      forall j :: 0 <= j < |sizes| && sizes[j].0 >= clusters ==> !Suits(j, barred, behindOnly)
    }

    /** The region at entry i of the index by size may be returned. */
    predicate Suits(i: nat, barred: Option<Barred>, behindOnly: bool)
      requires i < |sizes| && sizes[i].1 in memory
      reads this
    {
      && !(behindOnly && barred.Some? && memory[sizes[i].1].lcn <= barred.value.lcn)
      && !(barred.Some? && barred.value.id == Some(sizes[i].1))
    }

    /** The first entry in lo .. hi - 1 that may be returned, or hi. */
    method FirstSuitable(lo: nat, hi: nat, barred: Option<Barred>, behindOnly: bool) returns (i: nat)
      requires lo <= hi <= |sizes| && (forall j :: 0 <= j < |sizes| ==> sizes[j].1 in memory)
      ensures lo <= i <= hi && (i < hi ==> Suits(i, barred, behindOnly))
      ensures Unsuited(lo, i, barred, behindOnly)
    {
      i := lo;
      while i < hi && !Suits(i, barred, behindOnly)
        invariant lo <= i <= hi && forall j :: lo <= j < i ==> !Suits(j, barred, behindOnly)
      {
        i := i + 1;
      }
    }

    /** One more than the last entry from lo on that may be returned, or lo. */
    method LastSuitable(lo: nat, barred: Option<Barred>, behindOnly: bool) returns (i: nat)
      requires lo <= |sizes| && (forall j :: 0 <= j < |sizes| ==> sizes[j].1 in memory)
      ensures lo <= i <= |sizes| && (i > lo ==> Suits(i - 1, barred, behindOnly))
      ensures Unsuited(i, |sizes|, barred, behindOnly)
    {
      i := |sizes|;
      while i > lo && !Suits(i - 1, barred, behindOnly)
        invariant lo <= i <= |sizes| && forall j :: i <= j < |sizes| ==> !Suits(j, barred, behindOnly)
      {
        i := i - 1;
      }
    }

    /** The gap to move a file of the given size to.  There is none exactly when no
        eligible gap is large enough.  An exact fit comes first, then the least gap
        that leaves much room, then the largest gap of all. */
    method Best(clusters: nat, barred: Option<Barred>, behindOnly: bool) returns (g: Option<RegionId>, ghost k: nat)
      requires Valid()
      ensures g.Some? ==>
        && Indexed(memory, regions, g.value) && memory[g.value].length >= clusters
        && (barred.Some? ==> barred.value.id != g && (behindOnly ==> memory[g.value].lcn > barred.value.lcn))
      ensures g.None? ==> forall l :: l in regions && regions[l] in memory && memory[regions[l]].length >= clusters ==>
        barred.Some? && (barred.value.id == Some(regions[l]) || (behindOnly && l <= barred.value.lcn))
      ensures forall j :: 0 <= j < |sizes| ==> sizes[j].1 in memory
      ensures g.None? <==> NoneIn(clusters, barred, behindOnly)
      ensures g.Some? ==> k < |sizes| && g.value == sizes[k].1 && Suits(k, barred, behindOnly)
                          && Preferred(clusters, barred, behindOnly, k)
    {
      g, k := Choose(clusters, barred, behindOnly);
      if g.Some? {
        assert sizes[k] in sizes;
      } else {
        forall l | l in regions && regions[l] in memory && memory[regions[l]].length >= clusters
          ensures barred.Some? && (barred.value.id == Some(regions[l]) || (behindOnly && l <= barred.value.lcn))
        {
          assert Indexed(memory, regions, regions[l]);
          assert (memory[regions[l]].length, regions[l]) in sizes;
        }
      }
    }

    /** The three searches of the index by size, one after the other. */
    method Choose(clusters: nat, barred: Option<Barred>, behindOnly: bool) returns (g: Option<RegionId>, ghost k: nat)
      requires Valid()
      ensures forall j :: 0 <= j < |sizes| ==> sizes[j].1 in memory
      ensures g.None? <==> NoneIn(clusters, barred, behindOnly)
      ensures g.Some? ==> k < |sizes| && g.value == sizes[k].1 && Suits(k, barred, behindOnly)
                          && Preferred(clusters, barred, behindOnly, k)
    {
      hide IndexOk, SizesOk, Coalesced, ExtentsOf, Suits, Ample, Sorted, Preferred, NoneIn, Bound, Unsuited;
      k := 0;
      SizesListed(memory, regions, sizes);
      if sizes == [] {
        NothingSized(clusters, barred, behindOnly);
        return None, k;
      }
      var lo := LowerBound(clusters);
      var hi := LowerBound(clusters + 1);
      BoundOrder(clusters, lo, hi);
      var i := FirstSuitable(lo, hi, barred, behindOnly);
      if i < hi {
        ExactPreferred(clusters, barred, behindOnly, lo, i);
        return Some(sizes[i].1), i;
      }
      var ample := LowerBound(Ample(clusters) + 1);
      BoundAtMost(Ample(clusters) + 1, ample);
      i := FirstSuitable(ample, |sizes|, barred, behindOnly);
      if i < |sizes| {
        AmplePreferred(clusters, barred, behindOnly, lo, hi, ample, i);
        return Some(sizes[i].1), i;
      }
      i := LastSuitable(lo, barred, behindOnly);
      LargestPreferred(clusters, barred, behindOnly, lo, hi, ample, i);
      if i > lo {
        return Some(sizes[i - 1].1), i - 1;
      }
      return None, 0;
    }

    /** Entry k is the choice: an exact fit if any is eligible, else the smallest ample
        one, else the largest one; among equals the one indexed first or last. */
    ghost predicate Preferred(clusters: nat, barred: Option<Barred>, behindOnly: bool, k: nat)
      requires forall j :: 0 <= j < |sizes| ==> sizes[j].1 in memory
      requires k < |sizes|
      reads this
    {
      && sizes[k].0 >= clusters
      && forall j :: 0 <= j < |sizes| && sizes[j].0 >= clusters && Suits(j, barred, behindOnly) ==>
        && (sizes[j].0 == clusters ==> sizes[k].0 == clusters && k <= j)
        && (sizes[j].0 > Ample(clusters) && sizes[k].0 != clusters ==> sizes[k].0 > Ample(clusters) && k <= j)
        && (clusters < sizes[k].0 <= Ample(clusters) ==> j <= k)
    }

    /** Clusters lcn .. lcn + length - 1 are taken from the front of the gap at lcn; a
        gap that is not known makes the volume be scanned again.  A gap that is too short
        is a breakpoint trap, with the gap's entry gone from the index by size. */
    method Pop(lcn: nat, length: nat) returns (ok: bool)
      requires Valid()
      modifies this
      ensures ok <==> (lcn in old(regions) ==> length <= old(View())[lcn])
      ensures ok ==> Valid()
      ensures ok && lcn in old(regions) ==>
        View() == Taken(old(View()), lcn, length) && FreeMinus(old(View()), View(), lcn, length)
      ensures !ok ==> View() == old(View()) && regions == old(regions) && |sizes| == |old(sizes)| - 1
    {
      hide Coalesced, SizesOk, Inserted, FreeMinus, IndexOk, ExtentsOf;
      ExtentAt(memory, regions, lcn);
      if lcn !in regions {
        Scan();
        return true;
      }
      ghost var e := View();
      var g := regions[lcn];
      var r := memory[g];
      if r.length > length {
        TakenOk(e, lcn, length);
        TakenFresh(e, lcn, length);
        ExtentAt(memory, regions, lcn + length);
        MoveRegion(memory, regions, sizes, lcn, Region(lcn + length, r.length - length));
        EraseSize(r.length, g);
        regions := regions - {lcn};
        memory := memory[g := Region(r.lcn + length, r.length - length)];
        regions := regions[lcn + length := g];
        sizes := Inserted(sizes, (r.length - length, g));
        return true;
      }
      SizeListed(memory, regions, sizes, lcn);
      if r.length < length {
        EraseSize(r.length, g);
        return false;
      }
      TakenOk(e, lcn, length);
      DropRegion(memory, regions, sizes, lcn);
      EraseSize(r.length, g);
      regions := regions - {lcn};
      return true;
    }

    /** All blocks of a file, one after the other.  When each lies at the front of a gap
        as its turn comes, exactly the blocks are taken. */
    method PopFile(blocks: seq<Region>) returns (ok: bool)
      requires Valid()
      modifies this
      ensures ok ==> Valid()
      ensures Poppable(old(View()), blocks) ==> ok && View() == TakenAll(old(View()), blocks)
    {
      hide Coalesced, SizesOk, IndexOk, ExtentsOf, FreeMinus, Taken;
      ghost var e := View();
      assert blocks[0..] == blocks;
      for i := 0 to |blocks|
        invariant Valid()
        invariant Poppable(e, blocks) ==>
          Poppable(View(), blocks[i..]) && TakenAll(View(), blocks[i..]) == TakenAll(e, blocks)
      {
        assert blocks[i..][1..] == blocks[i + 1..];
        ExtentAt(memory, regions, blocks[i].lcn);
        ok := Pop(blocks[i].lcn, blocks[i].length);
        if !ok {
          return;
        }
      }
      return true;
    }

    /** std::prev of the lower bound: the last region that starts before l, if any. */
    method Preceding(l: nat) returns (p: Option<nat>)
      requires IndexOk(memory, regions)
      ensures p.Some? ==> p.value in regions && IsBefore(View(), l, p.value)
      ensures p.None? ==> forall a :: a in View() ==> a >= l
    {
      var below := set a | a in regions && a < l;
      forall a
        ensures a in View() <==> a in regions
      {
        ExtentAt(memory, regions, a);
      }
      assert forall a :: a in regions && a < l ==> a in below;
      if below == {} {
        p := None;
      } else {
        ghost var m := GreatestOf(below);
        var q :| q in below && forall a :: a in below ==> a <= q;
        p := Some(q);
      }
    }

    /** One used block becomes free: it joins the gap that ends where it begins, the gap
        that begins where it ends, both, or neither. */
    method PushBlock(b: Region)
      requires Valid() && listed && b.length > 0 && BlockUsed(View(), b.lcn, b.length)
      requires regions != map[]
      modifies this
      ensures Valid() && listed && FreePlus(old(View()), View(), b.lcn, b.length) && regions != map[]
    {
      hide Coalesced, SizesOk, Inserted, FreePlus, IndexOk, ExtentsOf, BlockUsed;
      ghost var e := View();
      var prev := Preceding(b.lcn);
      ghost var p := if prev.Some? then prev.value else b.lcn + b.length;
      assert View() == e;
      GivenOk(e, b.lcn, b.length, p);
      ExtentAt(memory, regions, p);
      ExtentAt(memory, regions, b.lcn);
      ExtentAt(memory, regions, b.lcn + b.length);
      UsedNotStart(e, b.lcn, b.length);
      var mergePrev := prev.Some? && prev.value + memory[regions[prev.value]].length == b.lcn;
      var mergeNext := b.lcn + b.length in regions;
      if mergePrev && mergeNext {
        MergeBoth(b, prev.value);
      } else if mergePrev {
        GrowForward(b, prev.value);
      } else if mergeNext {
        GrowBackward(b, p);
      } else {
        NewGap(b, p);
      }
    }

    /** All blocks of a file become free.  Without any scanned region the volume is
        scanned again instead.  An isolated block needs an existing region to be
        inserted after. */
    method PushFile(blocks: seq<Region>)
      requires Valid() && Pushable(View(), blocks)
      requires listed ==> regions != map[] || forall b :: b in blocks ==> b.length == 0
      modifies this
      ensures Valid()
      ensures old(listed) ==> FreePlusAll(old(View()), View(), blocks)
    {
      hide Coalesced, SizesOk, IndexOk, ExtentsOf, BlockUsed, FreePlusAll, FreePlus, Pushable;
      ghost var e := View();
      PushedNone(e, blocks);
      for i := 0 to |blocks|
        invariant Valid() && listed == old(listed)
        invariant listed ==> regions != map[] || forall b :: b in blocks ==> b.length == 0
        invariant FreePlusAll(e, View(), blocks[..i])
      {
        ghost var e1 := View();
        if blocks[i].length > 0 {
          if !listed {
            Scan();
            return;
          }
          StillUsed(e, e1, blocks, i);
          PushBlock(blocks[i]);
        }
        PushedOne(e, e1, View(), blocks, i);
      }
      assert blocks[..|blocks|] == blocks;
    }

    /** Taking clusters from the front of a gap and giving them back as one block
        leaves exactly the same gaps, unless no gap was left in between. */
    method PopThenPush(lcn: nat, length: nat)
      requires Valid() && lcn in regions && length <= View()[lcn] && (length < View()[lcn] || |regions| > 1)
      modifies this
      ensures Valid() && View() == old(View())
    {
      hide Coalesced, SizesOk, IndexOk, ExtentsOf, FreeMinus, FreePlusAll, BlockUsed;
      ghost var e := View();
      ExtentAt(memory, regions, lcn);
      SomethingLeft(memory, regions, lcn, length);
      var ok := Pop(lcn, length);
      TakenUsed(e, lcn, length);
      ghost var e1 := View();
      StillIndexed(memory, regions);
      var b := Region(lcn, length);
      PushFile([b]);
      OneBlock(e1, View(), b);
      TakeGiveBack(e, lcn, length, View());
    }

    method MergeBoth(b: Region, p: nat)
      requires IndexOk(memory, regions) && SizesOk(memory, regions, sizes) && (forall id :: id in memory ==> id < next)
      requires p in regions && b.lcn + b.length in regions && p < b.lcn && memory[regions[p]].length + p == b.lcn
      modifies this`memory, this`regions, this`sizes
      ensures IndexOk(memory, regions) && SizesOk(memory, regions, sizes) && (forall id :: id in memory ==> id < next)
      ensures View() == Given(old(View()), b.lcn, b.length, p) && regions != map[]
    {
      hide SizesOk, Inserted, IndexOk, ExtentsOf;
      var n := b.lcn + b.length;
      ExtentAt(memory, regions, p);
      ExtentAt(memory, regions, n);
      var pg, ng := regions[p], regions[n];
      var plen, nlen := memory[pg].length, memory[ng].length;
      ghost var e := View();
      DropRegion(memory, regions, sizes, n);
      ghost var sizes1 := Without(sizes, (nlen, ng));
      MoveRegion(memory, regions - {n}, sizes1, p, Region(p, plen + b.length + nlen));
      WithoutCommutes<(nat, RegionId)>(sizes, (plen, pg), (nlen, ng));
      EraseSize(plen, pg);
      EraseSize(nlen, ng);
      memory := memory[pg := Region(p, plen + b.length + nlen)];
      regions := regions - {n};
      SameEntry(regions, p);
      sizes := Inserted(sizes, (plen + b.length + nlen, pg));
      assert View() == Given(e, b.lcn, b.length, p);
      assert MergedStart(e, b.lcn, p) in regions;
    }

    method GrowForward(b: Region, p: nat)
      requires IndexOk(memory, regions) && SizesOk(memory, regions, sizes) && (forall id :: id in memory ==> id < next)
      requires p in regions && b.lcn + b.length !in regions && p < b.lcn && memory[regions[p]].length + p == b.lcn
      modifies this`memory, this`sizes
      ensures IndexOk(memory, regions) && SizesOk(memory, regions, sizes) && (forall id :: id in memory ==> id < next)
      ensures View() == Given(old(View()), b.lcn, b.length, p) && regions != map[]
    {
      hide SizesOk, Inserted, IndexOk, ExtentsOf;
      ExtentAt(memory, regions, p);
      ExtentAt(memory, regions, b.lcn + b.length);
      var pg := regions[p];
      var plen := memory[pg].length;
      ghost var e := View();
      MoveRegion(memory, regions, sizes, p, Region(p, plen + b.length));
      EraseSize(plen, pg);
      memory := memory[pg := Region(p, plen + b.length)];
      SameEntry(regions, p);
      sizes := Inserted(sizes, (plen + b.length, pg));
      assert View() == Given(e, b.lcn, b.length, p);
      assert MergedStart(e, b.lcn, p) in regions;
    }

    method GrowBackward(b: Region, ghost p: nat)
      requires IndexOk(memory, regions) && SizesOk(memory, regions, sizes) && (forall id :: id in memory ==> id < next)
      requires b.lcn + b.length in regions && b.lcn !in regions && !EndsAt(View(), p, b.lcn)
      modifies this`memory, this`regions, this`sizes
      ensures IndexOk(memory, regions) && SizesOk(memory, regions, sizes) && (forall id :: id in memory ==> id < next)
      ensures View() == Given(old(View()), b.lcn, b.length, p) && regions != map[]
    {
      hide SizesOk, Inserted, IndexOk, ExtentsOf;
      var n := b.lcn + b.length;
      ExtentAt(memory, regions, n);
      var g := regions[n];
      var nlen := memory[g].length;
      ghost var e := View();
      MoveRegion(memory, regions, sizes, n, Region(b.lcn, nlen + b.length));
      EraseSize(nlen, g);
      regions := regions - {n};
      memory := memory[g := Region(b.lcn, nlen + b.length)];
      regions := regions[b.lcn := g];
      sizes := Inserted(sizes, (nlen + b.length, g));
      assert View() == Given(e, b.lcn, b.length, p);
      assert MergedStart(e, b.lcn, p) in regions;
    }

    method NewGap(b: Region, ghost p: nat)
      requires IndexOk(memory, regions) && SizesOk(memory, regions, sizes) && (forall id :: id in memory ==> id < next)
      requires b.lcn + b.length !in regions && b.lcn !in regions && !EndsAt(View(), p, b.lcn)
      modifies this`memory, this`regions, this`sizes, this`next
      ensures IndexOk(memory, regions) && SizesOk(memory, regions, sizes) && (forall id :: id in memory ==> id < next)
      ensures View() == Given(old(View()), b.lcn, b.length, p) && regions != map[]
    {
      hide SizesOk, Inserted, IndexOk, ExtentsOf;
      ExtentAt(memory, regions, b.lcn + b.length);
      ghost var e := View();
      IndexAllocated(memory, regions, next);
      AddRegion(memory, regions, sizes, next, b);
      memory := memory[next := b];
      regions := regions[b.lcn := next];
      sizes := Inserted(sizes, (b.length, next));
      next := next + 1;
      assert View() == Given(e, b.lcn, b.length, p);
      assert MergedStart(e, b.lcn, p) in regions;
    }
  }

  /** The blocks' clusters are in use, and no two blocks share one. */
  ghost predicate Pushable(e: Extents, blocks: seq<Region>) {
    && (forall i :: 0 <= i < |blocks| ==> BlockUsed(e, blocks[i].lcn, blocks[i].length))
    && (forall i, j :: 0 <= i < j < |blocks| ==>
          blocks[i].lcn + blocks[i].length <= blocks[j].lcn || blocks[j].lcn + blocks[j].length <= blocks[i].lcn)
  }

  ghost predicate InBlocks(blocks: seq<Region>, c: nat) {
    exists i :: 0 <= i < |blocks| && blocks[i].lcn <= c < blocks[i].lcn + blocks[i].length
  }

  /** The free clusters of e' are those of e and those of the blocks. */
  ghost predicate FreePlusAll(e: Extents, e': Extents, blocks: seq<Region>) {
    forall c: nat :: IsFree(e', c) <==> IsFree(e, c) || InBlocks(blocks, c)
  }

  lemma PushedOne(e: Extents, e1: Extents, e2: Extents, blocks: seq<Region>, i: nat)
    requires i < |blocks| && FreePlusAll(e, e1, blocks[..i])
    requires if blocks[i].length == 0 then e2 == e1 else FreePlus(e1, e2, blocks[i].lcn, blocks[i].length)
    ensures FreePlusAll(e, e2, blocks[..i + 1])
  {
    forall c: nat
      ensures InBlocks(blocks[..i + 1], c) <==>
        InBlocks(blocks[..i], c) || blocks[i].lcn <= c < blocks[i].lcn + blocks[i].length
    {
      if InBlocks(blocks[..i], c) {
        var j :| 0 <= j < i && blocks[..i][j].lcn <= c < blocks[..i][j].lcn + blocks[..i][j].length;
        assert blocks[..i + 1][j] == blocks[j];
      }
      assert blocks[..i + 1][i] == blocks[i];
      if InBlocks(blocks[..i + 1], c) {
        var j :| 0 <= j < i + 1 && blocks[..i + 1][j].lcn <= c < blocks[..i + 1][j].lcn + blocks[..i + 1][j].length;
        if j < i {
          assert blocks[..i][j] == blocks[j];
        }
      }
    }
  }

  lemma StillUsed(e: Extents, e1: Extents, blocks: seq<Region>, i: nat)
    requires i < |blocks| && Pushable(e, blocks) && FreePlusAll(e, e1, blocks[..i])
    ensures BlockUsed(e1, blocks[i].lcn, blocks[i].length)
  {
    assert BlockUsed(e, blocks[i].lcn, blocks[i].length);
    forall c: nat | blocks[i].lcn <= c < blocks[i].lcn + blocks[i].length
      ensures !InBlocks(blocks[..i], c)
    {
      forall j | 0 <= j < i
        ensures !(blocks[..i][j].lcn <= c < blocks[..i][j].lcn + blocks[..i][j].length)
      {
        assert blocks[..i][j] == blocks[j];
      }
    }
  }

  lemma UsedNotStart(e: Extents, l: nat, n: nat)
    requires Coalesced(e) && BlockUsed(e, l, n) && n > 0
    ensures l !in e
  {
    FreeAt(e, l, l);
  }

  lemma PushedNone(e: Extents, blocks: seq<Region>)
    ensures FreePlusAll(e, e, blocks[..0])
  {
  }

  lemma OneBlock(e: Extents, e': Extents, b: Region)
    requires FreePlusAll(e, e', [b])
    ensures FreePlus(e, e', b.lcn, b.length)
  {
    forall c: nat
      ensures InBlocks([b], c) <==> b.lcn <= c < b.lcn + b.length
    {
      assert [b][0] == b;
    }
  }

  lemma SomethingLeft(memory: Memory, regions: map<nat, RegionId>, l: nat, n: nat)
    requires IndexOk(memory, regions) && l in regions && n <= memory[regions[l]].length
    requires n < memory[regions[l]].length || |regions| > 1
    ensures l in ExtentsOf(memory, regions) && Taken(ExtentsOf(memory, regions), l, n) != map[]
  {
    var e := ExtentsOf(memory, regions);
    ExtentAt(memory, regions, l);
    if n < e[l] {
      assert l + n in Taken(e, l, n);
    } else {
      assert |regions.Keys - {l}| >= 1;
      var a :| a in regions.Keys - {l};
      ExtentAt(memory, regions, a);
      assert a in Taken(e, l, n);
    }
  }

  lemma StillIndexed(memory: Memory, regions: map<nat, RegionId>)
    requires IndexOk(memory, regions) && ExtentsOf(memory, regions) != map[]
    ensures regions != map[]
  {
    var l :| l in ExtentsOf(memory, regions).Keys;
    ExtentAt(memory, regions, l);
  }

  lemma SameEntry(regions: map<nat, RegionId>, p: nat)
    requires p in regions
    ensures (regions - {p})[p := regions[p]] == regions
  {
  }

  lemma {:induction false} WithoutCommutes<T>(q: seq<T>, a: T, b: T)
    ensures Without(Without(q, a), b) == Without(Without(q, b), a)
  {
    if q != [] {
      WithoutCommutes(q[1..], a, b);
      assert q == [q[0]] + q[1..];
    }
  }

  lemma GreatestOf(keys: set<nat>) returns (p: nat)
    requires keys != {}
    ensures p in keys && forall q :: q in keys ==> q <= p
    decreases keys
  {
    var c :| c in keys;
    var greater := set q | q in keys && q > c;
    p := c;
    if greater != {} {
      p := GreatestOf(greater);
    }
    forall q | q in keys
      ensures q <= p
    {
      assert q in greater || q <= c;
    }
  }

  /** Each block lies at the front of a gap once the blocks before it are taken. */
  ghost predicate Poppable(e: Extents, blocks: seq<Region>)
    decreases |blocks|
  {
    blocks == [] || (blocks[0].lcn in e && blocks[0].length <= e[blocks[0].lcn]
                     && Poppable(Taken(e, blocks[0].lcn, blocks[0].length), blocks[1..]))
  }

  ghost function TakenAll(e: Extents, blocks: seq<Region>): Extents
    requires Poppable(e, blocks)
    decreases |blocks|
  {
    if blocks == [] then e else TakenAll(Taken(e, blocks[0].lcn, blocks[0].length), blocks[1..])
  }

  /** Popping a file's blocks frees nothing and takes exactly the blocks' clusters. */
  lemma {:induction false} TakenAllFree(e: Extents, blocks: seq<Region>)
    requires Coalesced(e) && Poppable(e, blocks)
    ensures Coalesced(TakenAll(e, blocks))
    ensures forall c: nat :: IsFree(TakenAll(e, blocks), c) <==> IsFree(e, c) && !InBlocks(blocks, c)
    ensures forall c: nat :: InBlocks(blocks, c) ==> IsFree(e, c)
    decreases |blocks|
  {
    hide Coalesced, IsFree;
    if blocks != [] {
      var b := blocks[0];
      TakenOk(e, b.lcn, b.length);
      TakenAllFree(Taken(e, b.lcn, b.length), blocks[1..]);
      forall c: nat
        ensures InBlocks(blocks, c) <==> InBlocks(blocks[1..], c) || b.lcn <= c < b.lcn + b.length
        ensures b.lcn <= c < b.lcn + b.length ==> IsFree(e, c)
      {
        FirstBlock(blocks, c);
        FrontFree(e, b.lcn, b.length, c);
      }
    }
  }

  lemma FirstBlock(blocks: seq<Region>, c: nat)
    requires blocks != []
    ensures InBlocks(blocks, c) <==> InBlocks(blocks[1..], c) || blocks[0].lcn <= c < blocks[0].lcn + blocks[0].length
  {
    if InBlocks(blocks[1..], c) {
      var j :| 0 <= j < |blocks[1..]| && blocks[1..][j].lcn <= c < blocks[1..][j].lcn + blocks[1..][j].length;
      assert blocks[j + 1] == blocks[1..][j];
    }
    if InBlocks(blocks, c) {
      var j :| 0 <= j < |blocks| && blocks[j].lcn <= c < blocks[j].lcn + blocks[j].length;
      if j > 0 {
        assert blocks[1..][j - 1] == blocks[j];
      }
    }
  }

  lemma FrontFree(e: Extents, l: nat, n: nat, c: nat)
    requires l in e && n <= e[l]
    ensures l <= c < l + n ==> IsFree(e, c)
  {
  }

  lemma EmptyIndex()
    ensures IndexOk(map[], map[]) && SizesOk(map[], map[], []) && ExtentsOf(map[], map[]) == map[] == Found([])
  {
  }

  lemma NothingFound(memory: Memory, regions: map<nat, RegionId>, found: seq<Region>)
    requires IndexOk(memory, regions) && ExtentsOf(memory, regions) == Found(found)
    ensures regions != map[] ==> found != []
  {
    if regions != map[] {
      var l :| l in regions;
      ExtentAt(memory, regions, l);
    }
  }

  lemma TakenFresh(e: Extents, l: nat, n: nat)
    requires Coalesced(e) && l in e && n < e[l]
    ensures l + n == l || l + n !in e
  {
  }
}
