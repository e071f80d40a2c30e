/** StopGap's index of movable files: by size, and lazily by the cluster at which each
    of their blocks starts. */
module Files {
  import opened Options
  import opened Multimaps
  import opened Sequences
  import FileChoice

  type FileId = nat

  datatype Block = Block(lcn: nat, length: nat)
  datatype Record = Record(blocks: seq<Block>, clusters: nat)

  type Buckets = Multimap

  // -------------------------------------------------------- ordering the blocks

  /** The circular list of blocks, entered at block k. */
  function Rotated(blocks: seq<Block>, k: nat): seq<Block>
    requires k <= |blocks|
  {
    blocks[k..] + blocks[..k]
  }

  ghost predicate LeastFirst(blocks: seq<Block>) {
    blocks != [] && forall b :: b in blocks ==> blocks[0].lcn <= b.lcn
  }

  /** The list is entered at the first block with the least start. */
  method Order(blocks: seq<Block>) returns (r: seq<Block>, ghost k: nat)
    ensures k <= |blocks| && r == Rotated(blocks, k)
    ensures blocks != [] ==> LeastFirst(r) && k < |blocks|
    ensures forall j :: 0 <= j < k < |blocks| ==> blocks[j].lcn > blocks[k].lcn
    ensures forall b :: b in r <==> b in blocks
  {
    k := 0;
    r := blocks;
    if |blocks| <= 1 {
      assert blocks[0..] + blocks[..0] == blocks;
      return;
    }
    var least := 0;
    for i := 1 to |blocks|
      invariant 0 <= least < i
      invariant forall j :: 0 <= j < i ==> blocks[least].lcn <= blocks[j].lcn
      invariant forall j :: 0 <= j < least ==> blocks[j].lcn > blocks[least].lcn
    {
      if blocks[i].lcn < blocks[least].lcn {
        least := i;
      }
    }
    k := least;
    assert blocks == blocks[..k] + blocks[k..];
    r := Rotated(blocks, least);
  }

  // ------------------------------------------------------------- the two indices

  ghost predicate StartsIn(blocks: seq<Block>, l: nat) {
    exists b :: b in blocks && b.lcn == l
  }

  ghost predicate Listed(buckets: Buckets, f: FileId) {
    exists n :: (n, f) in buckets
  }

  /** File f is listed and one of its blocks starts at l. */
  ghost predicate Holds(files: map<FileId, Record>, buckets: Buckets, f: FileId, l: nat) {
    Listed(buckets, f) && f in files && StartsIn(files[f].blocks, l)
  }

  /** Each file is listed once, under its size, and its first block is the lowest. */
  ghost predicate BucketsOk(files: map<FileId, Record>, buckets: Buckets) {
    && NoDup(buckets) && Sorted(buckets)
    && forall e :: e in buckets ==> e.1 in files && files[e.1].clusters == e.0 && LeastFirst(files[e.1].blocks)
  }

  /** No cluster belongs to two files. */
  ghost predicate Apart(files: map<FileId, Record>, buckets: Buckets) {
    forall f, g, l :: Holds(files, buckets, f, l) && Holds(files, buckets, g, l) ==> f == g
  }

  /** The index by start is exact. */
  ghost predicate Exact(files: map<FileId, Record>, buckets: Buckets, lcns: map<nat, FileId>) {
    forall l, f :: (l in lcns && lcns[l] == f) <==> Holds(files, buckets, f, l)
  }

  // ------------------------------------------------------- changing the indices

  /** lcns' is lcns with the starts of the given blocks entered for f; a start that is
      already there stays as it is. */
  ghost predicate Entered(lcns: map<nat, FileId>, blocks: seq<Block>, f: FileId, lcns': map<nat, FileId>) {
    forall l :: && (l in lcns' <==> l in lcns || StartsIn(blocks, l))
                && (l in lcns ==> lcns'[l] == lcns[l])
                && (l in lcns' && l !in lcns ==> lcns'[l] == f)
  }

  ghost predicate Erased(lcns: map<nat, FileId>, blocks: seq<Block>, lcns': map<nat, FileId>) {
    forall l :: && (l in lcns' <==> l in lcns && !StartsIn(blocks, l))
                && (l in lcns' ==> lcns'[l] == lcns[l])
  }

  method EnterBlocks(lcns: map<nat, FileId>, blocks: seq<Block>, f: FileId) returns (r: map<nat, FileId>)
    ensures Entered(lcns, blocks, f, r)
  {
    r := lcns;
    for i := 0 to |blocks|
      invariant Entered(lcns, blocks[..i], f, r)
    {
      assert blocks[..i + 1] == blocks[..i] + [blocks[i]];
      forall l
        ensures StartsIn(blocks[..i + 1], l) <==> StartsIn(blocks[..i], l) || l == blocks[i].lcn
      {
        OneMoreStart(blocks[..i], blocks[i], l);
      }
      if blocks[i].lcn !in r {
        r := r[blocks[i].lcn := f];
      }
    }
    assert blocks[..|blocks|] == blocks;
  }

  method EraseBlocks(lcns: map<nat, FileId>, blocks: seq<Block>) returns (r: map<nat, FileId>)
    ensures Erased(lcns, blocks, r)
  {
    r := lcns;
    for i := 0 to |blocks|
      invariant Erased(lcns, blocks[..i], r)
    {
      assert blocks[..i + 1] == blocks[..i] + [blocks[i]];
      forall l
        ensures StartsIn(blocks[..i + 1], l) <==> StartsIn(blocks[..i], l) || l == blocks[i].lcn
      {
        OneMoreStart(blocks[..i], blocks[i], l);
      }
      r := r - {blocks[i].lcn};
    }
    assert blocks[..|blocks|] == blocks;
  }

  lemma OneMoreStart(blocks: seq<Block>, b: Block, l: nat)
    ensures StartsIn(blocks + [b], l) <==> StartsIn(blocks, l) || l == b.lcn
  {
    if StartsIn(blocks, l) {
      var x :| x in blocks && x.lcn == l;
      assert x in blocks + [b];
    }
    assert b in blocks + [b];
  }

  /** Entering a file's starts extends an exact index to that file. */
  lemma EnterExact(files: map<FileId, Record>, some: Buckets, more: Buckets, e: (nat, FileId), lcns: map<nat, FileId>,
                   lcns': map<nat, FileId>)
    requires Exact(files, some, lcns) && e.1 in files && Entered(lcns, files[e.1].blocks, e.1, lcns')
    requires (forall x :: x in more <==> x in some || x == e) && Apart(files, more)
    ensures Exact(files, more, lcns')
  {
    hide Entered, StartsIn, Apart;
    forall l, f
      ensures (l in lcns' && lcns'[l] == f) <==> Holds(files, more, f, l)
    {
      ListedMore(some, more, e, f);
      ListedMore(some, more, e, e.1);
      EnterOne(files, some, more, e, lcns, lcns', l, f);
    }
  }

  lemma EnterOne(files: map<FileId, Record>, some: Buckets, more: Buckets, e: (nat, FileId), lcns: map<nat, FileId>,
                 lcns': map<nat, FileId>, l: nat, f: FileId)
    requires Exact(files, some, lcns) && e.1 in files && Entered(lcns, files[e.1].blocks, e.1, lcns')
    requires Apart(files, more)
    requires Listed(more, f) <==> Listed(some, f) || f == e.1
    requires forall g :: Listed(some, g) ==> Listed(more, g)
    requires Listed(more, e.1)
    ensures (l in lcns' && lcns'[l] == f) <==> Holds(files, more, f, l)
  {
    hide Listed, StartsIn;
    if l in lcns {
      assert Holds(files, some, lcns[l], l);
      assert Holds(files, more, lcns[l], l);
    } else {
      assert !Holds(files, some, f, l);
    }
  }

  lemma ListedMore(some: Buckets, more: Buckets, e: (nat, FileId), f: FileId)
    requires forall x :: x in more <==> x in some || x == e
    ensures Listed(more, f) <==> Listed(some, f) || f == e.1
    ensures forall g :: Listed(some, g) ==> Listed(more, g)
  {
    if Listed(some, f) {
      var n :| (n, f) in some;
      assert (n, f) in more;
    }
    assert (e.0, e.1) in more;
  }

  /** Erasing a file's starts leaves an exact index of the other files. */
  lemma EraseExact(files: map<FileId, Record>, buckets: Buckets, less: Buckets, f: FileId, lcns: map<nat, FileId>,
                   lcns': map<nat, FileId>)
    requires Exact(files, buckets, lcns) && Apart(files, buckets) && Listed(buckets, f) && f in files
    requires forall g :: Listed(less, g) <==> Listed(buckets, g) && g != f
    requires Erased(lcns, files[f].blocks, lcns')
    ensures Exact(files, less, lcns')
  {
    hide Listed, StartsIn;
    forall l, g
      ensures (l in lcns' && lcns'[l] == g) <==> Holds(files, less, g, l)
    {
      if StartsIn(files[f].blocks, l) {
        assert Holds(files, buckets, f, l);
      }
      assert Holds(files, less, g, l) <==> Holds(files, buckets, g, l) && g != f;
      assert l in lcns && lcns[l] == g <==> Holds(files, buckets, g, l);
      assert l in lcns && lcns[l] == f <==> Holds(files, buckets, f, l);
    }
  }

  /** Taking one entry away unlists exactly its file. */
  lemma Unlisted(files: map<FileId, Record>, buckets: Buckets, f: FileId)
    requires BucketsOk(files, buckets) && Listed(buckets, f)
    ensures f in files && (files[f].clusters, f) in buckets
    ensures var less := Without(buckets, (files[f].clusters, f));
      BucketsOk(files, less) && forall g :: Listed(less, g) <==> Listed(buckets, g) && g != f
  {
    var n :| (n, f) in buckets;
    var e := (files[f].clusters, f);
    WithoutSpec(buckets, e);
    SortedWithout(buckets, e);
    hide NoDup, Sorted, LeastFirst;
    var less := Without(buckets, e);
    forall g
      ensures Listed(less, g) <==> Listed(buckets, g) && g != f
    {
      if Listed(buckets, g) && g != f {
        var m :| (m, g) in buckets;
        assert (m, g) in less;
      }
    }
  }

  lemma FewerApart(files: map<FileId, Record>, buckets: Buckets, less: Buckets)
    requires Apart(files, buckets) && forall g :: Listed(less, g) ==> Listed(buckets, g)
    ensures Apart(files, less)
  {
    hide Listed, StartsIn;
    forall f, g, l | Holds(files, less, f, l) && Holds(files, less, g, l)
      ensures f == g
    {
      assert Holds(files, buckets, f, l) && Holds(files, buckets, g, l);
    }
  }

  lemma NothingListed()
    ensures BucketsOk(map[], []) && Apart(map[], []) && forall f: FileId :: !Listed([], f)
  {
  }

  lemma NoneExact(files: map<FileId, Record>)
    ensures Exact(files, [], map[])
  {
  }

  lemma PrefixApart(files: map<FileId, Record>, buckets: Buckets, i: nat)
    requires i <= |buckets| && Apart(files, buckets)
    ensures Apart(files, buckets[..i])
  {
    forall f: FileId | Listed(buckets[..i], f)
      ensures Listed(buckets, f)
    {
      var n :| (n, f) in buckets[..i];
      assert (n, f) in buckets;
    }
    FewerApart(files, buckets, buckets[..i]);
  }

  /** Files that hold the same records for the listed files hold the same starts. */
  lemma SameHolds(files: map<FileId, Record>, files': map<FileId, Record>, buckets: Buckets, f: FileId)
    requires !Listed(buckets, f) && forall g :: g != f ==>
      (g in files <==> g in files') && (g in files ==> files[g] == files'[g])
    ensures forall g, l :: Holds(files, buckets, g, l) <==> Holds(files', buckets, g, l)
  {
    hide Listed, StartsIn;
  }

  lemma SameStarts(a: seq<Block>, b: seq<Block>)
    requires forall x :: x in a <==> x in b
    ensures forall l :: StartsIn(a, l) <==> StartsIn(b, l)
  {
  }

  lemma PushListed(files: map<FileId, Record>, buckets: Buckets, f: FileId, record: Record)
    requires BucketsOk(files, buckets) && !Listed(buckets, f) && LeastFirst(record.blocks)
    ensures BucketsOk(files[f := record], Inserted(buckets, (record.clusters, f)))
    ensures forall e :: e in Inserted(buckets, (record.clusters, f)) <==> e in buckets || e == (record.clusters, f)
    ensures forall g :: Listed(Inserted(buckets, (record.clusters, f)), g) <==> Listed(buckets, g) || g == f
  {
    hide LeastFirst;
    var e := (record.clusters, f);
    assert e !in buckets;
    InsertedOk(buckets, e);
    hide NoDup, Sorted;
    forall x | x in buckets
      ensures x.1 != f
    {
      assert (x.0, x.1) in buckets;
    }
    forall g
      ensures Listed(Inserted(buckets, e), g) <==> Listed(buckets, g) || g == f
    {
      ListedMore(buckets, Inserted(buckets, e), e, g);
    }
  }

  lemma PushApart(files: map<FileId, Record>, buckets: Buckets, more: Buckets, f: FileId, blocks: seq<Block>)
    requires Apart(files, buckets) && f in files && files[f].blocks == blocks && !Listed(buckets, f)
    requires forall g :: Listed(more, g) <==> Listed(buckets, g) || g == f
    requires forall g, l :: Holds(files, buckets, g, l) ==> !StartsIn(blocks, l)
    ensures Apart(files, more)
  {
    hide Listed, StartsIn;
    forall g, h, l | Holds(files, more, g, l) && Holds(files, more, h, l)
      ensures g == h
    {
      assert g != f ==> Holds(files, buckets, g, l);
      assert h != f ==> Holds(files, buckets, h, l);
    }
  }

  lemma PushOk(files: map<FileId, Record>, buckets: Buckets, f: FileId, record: Record, blocks: seq<Block>,
               lcns: map<nat, FileId>, lcns': map<nat, FileId>)
    requires BucketsOk(files, buckets) && Apart(files, buckets) && !Listed(buckets, f)
    requires lcns == map[] || Exact(files, buckets, lcns)
    requires forall g, l :: Holds(files, buckets, g, l) ==> !StartsIn(record.blocks, l)
    requires LeastFirst(blocks) && forall b :: b in blocks <==> b in record.blocks
    requires if lcns == map[] then lcns' == map[] else Entered(lcns, record.blocks, f, lcns')
    ensures var files', buckets' := files[f := Record(blocks, record.clusters)],
            Inserted(buckets, (record.clusters, f));
      && BucketsOk(files', buckets') && Apart(files', buckets')
      && (lcns' == map[] || Exact(files', buckets', lcns'))
      && (forall g :: Listed(buckets', g) <==> Listed(buckets, g) || g == f)
      && (forall l :: Holds(files', buckets', f, l) <==> StartsIn(record.blocks, l))
  {
    hide BucketsOk, LeastFirst, StartsIn, Inserted;
    var files', buckets' := files[f := Record(blocks, record.clusters)], Inserted(buckets, (record.clusters, f));
    SameStarts(blocks, record.blocks);
    SameHolds(files, files', buckets, f);
    PushListed(files, buckets, f, Record(blocks, record.clusters));
    hide Listed;
    assert Apart(files', buckets);
    PushApart(files', buckets, buckets', f, blocks);
    if lcns != map[] {
      assert Exact(files', buckets, lcns);
      EnterExact(files', buckets, buckets', (record.clusters, f), lcns, lcns');
    }
  }

  // ------------------------------------------------- choosing files for a gap

  /** The index by size as the chooser sees it. */
  function View(files: map<FileId, Record>, buckets: Buckets): (v: seq<FileChoice.File>)
    requires forall e :: e in buckets ==> e.1 in files && files[e.1].blocks != []
    ensures |v| == |buckets|
    ensures forall i :: 0 <= i < |v| ==>
      v[i] == FileChoice.File(buckets[i].0, buckets[i].1, files[buckets[i].1].blocks[0].lcn)
  {
    seq(|buckets|, i requires 0 <= i < |buckets| =>
      assert buckets[i] in buckets;
      FileChoice.File(buckets[i].0, buckets[i].1, files[buckets[i].1].blocks[0].lcn))
  }

  function Ids(found: seq<FileChoice.File>): (r: seq<FileId>)
    ensures |r| == |found| && forall i :: 0 <= i < |r| ==> r[i] == found[i].id
  {
    seq(|found|, i requires 0 <= i < |found| => found[i].id)
  }

  /** Clusters of the given files together, each counted as often as it appears. */
  ghost function TotalOf(files: map<FileId, Record>, ids: seq<FileId>): nat
    requires forall f :: f in ids ==> f in files
  {
    if ids == [] then 0
    else TotalOf(files, ids[..|ids| - 1]) + files[ids[|ids| - 1]].clusters
  }

  lemma ViewOk(files: map<FileId, Record>, buckets: Buckets)
    requires BucketsOk(files, buckets)
    ensures forall e :: e in buckets ==> e.1 in files && files[e.1].blocks != []
    ensures FileChoice.Ordered(View(files, buckets))
  {
  }

  /** What was found are listed files that start where the chooser thought. */
  lemma FoundOk(files: map<FileId, Record>, buckets: Buckets, x: FileChoice.File)
    requires BucketsOk(files, buckets) && forall e :: e in buckets ==> e.1 in files && files[e.1].blocks != []
    requires x in View(files, buckets)
    ensures Listed(buckets, x.id) && x.id in files && files[x.id].blocks != []
    ensures files[x.id].blocks[0].lcn == x.lcn && files[x.id].clusters == x.clusters
  {
    var v := View(files, buckets);
    var i :| 0 <= i < |v| && v[i] == x;
    assert buckets[i] in buckets;
    assert (buckets[i].0, x.id) in buckets;
  }

  /** Listed file f starts behind the gap and would fit beside `used` clusters. */
  ghost predicate Fits(files: map<FileId, Record>, buckets: Buckets, f: FileId, lcn: nat, length: nat, used: nat) {
    && Listed(buckets, f) && f in files && files[f].blocks != [] && files[f].blocks[0].lcn > lcn
    && 0 < files[f].clusters && used + files[f].clusters <= length
  }

  /** File g is of f's size and starts no earlier. */
  ghost predicate NoEarlier(files: map<FileId, Record>, f: FileId, g: FileId) {
    && f in files && g in files && files[f].clusters == files[g].clusters
    && files[f].blocks != [] && files[g].blocks != [] && files[f].blocks[0].lcn <= files[g].blocks[0].lcn
  }

  lemma FitMatched(files: map<FileId, Record>, buckets: Buckets, found: seq<FileChoice.File>, lcn: nat, length: nat,
                   f: FileId) returns (g: FileId)
    requires BucketsOk(files, buckets) && forall e :: e in buckets ==> e.1 in files && files[e.1].blocks != []
    requires Fits(files, buckets, f, lcn, length, FileChoice.Total(found))
    requires FileChoice.Maximal(View(files, buckets), lcn, length, found)
    requires forall x :: x in found ==> x in View(files, buckets)
    ensures g in Ids(found) && NoEarlier(files, f, g)
  {
    var v := View(files, buckets);
    var n :| (n, f) in buckets;
    var i :| 0 <= i < |buckets| && buckets[i] == (n, f);
    assert v[i] in v;
    var k :| k in found && k.clusters == v[i].clusters && k.lcn >= v[i].lcn;
    FoundOk(files, buckets, k);
    var j :| 0 <= j < |found| && found[j] == k;
    g := k.id;
    assert Ids(found)[j] == g;
  }

  lemma {:induction false} IdsTotal(files: map<FileId, Record>, found: seq<FileChoice.File>)
    requires forall x :: x in found ==> x.id in files && files[x.id].clusters == x.clusters
    ensures forall f :: f in Ids(found) ==> f in files
    ensures TotalOf(files, Ids(found)) == FileChoice.Total(found)
  {
    if found != [] {
      var n := |found| - 1;
      IdsTotal(files, found[..n]);
      assert Ids(found)[..n] == Ids(found[..n]);
    }
  }

  // ------------------------------------------------------------------- the class

  class FileEnumeration {
    var files: map<FileId, Record>    // the winx_file_info structures
    var buckets: Buckets              // buckets_
    var lcns: map<nat, FileId>        // lcns_

    ghost predicate Valid()
      reads this
    {
      && BucketsOk(files, buckets) && Apart(files, buckets)
      && (lcns == map[] || Exact(files, buckets, lcns))
    }

    /** The volume is scanned; files without a block map and excluded ones stay out. */
    constructor (found: seq<Record>, excluded: seq<bool>)
      requires |excluded| == |found|
      requires forall i, j, l: nat :: 0 <= i < j < |found| && StartsIn(found[i].blocks, l) ==>
        !StartsIn(found[j].blocks, l)
      ensures Valid()
      ensures forall f: FileId :: Listed(buckets, f) <==> f < |found| && found[f].blocks != [] && !excluded[f]
      ensures forall f: FileId, l: nat :: Listed(buckets, f) ==>
        (Holds(files, buckets, f, l) <==> StartsIn(found[f].blocks, l))
    {
      files, buckets, lcns := map[], [], map[];
      new;
      hide BucketsOk, StartsIn, Exact, LeastFirst, Apart;
      NothingListed();
      for i := 0 to |found|
        invariant Valid() && lcns == map[]
        invariant forall f: FileId :: Listed(buckets, f) <==> f < i && found[f].blocks != [] && !excluded[f]
        invariant forall f: FileId, l: nat :: Listed(buckets, f) ==>
          (Holds(files, buckets, f, l) <==> StartsIn(found[f].blocks, l))
      {
        if found[i].blocks != [] && !excluded[i] {
          Push(i, found[i]);
        }
      }
    }

    /** The file one of whose blocks starts at l; the index is built on first use. */
    method FindAt(l: nat) returns (r: Option<FileId>)
      requires Valid()
      modifies this`lcns
      ensures Valid()
      ensures forall f: FileId :: r == Some(f) <==> Holds(files, buckets, f, l)
    {
      hide NoDup, Sorted, LeastFirst, Listed, StartsIn, Entered;
      if lcns == map[] {
        NoneExact(files);
        assert buckets[..0] == [];
        for i := 0 to |buckets|
          invariant Exact(files, buckets[..i], lcns)
        {
          var e := buckets[i];
          assert e in buckets;
          assert buckets[..i + 1] == buckets[..i] + [e];
          PrefixApart(files, buckets, i + 1);
          var lcns' := EnterBlocks(lcns, files[e.1].blocks, e.1);
          EnterExact(files, buckets[..i], buckets[..i + 1], e, lcns, lcns');
          lcns := lcns';
        }
        assert buckets[..|buckets|] == buckets;
      }
      if l in lcns {
        r := Some(lcns[l]);
      } else {
        r := None;
      }
    }

    /** File f is no longer listed. */
    method Pop(f: FileId)
      requires Valid() && Listed(buckets, f)
      modifies this`lcns, this`buckets
      ensures Valid()
      ensures forall g :: Listed(buckets, g) <==> old(Listed(buckets, g)) && g != f
    {
      hide NoDup, Sorted, LeastFirst, Listed, Holds, Erased, BucketsOk, Exact, Apart;
      Unlisted(files, buckets, f);
      ghost var less := Without(buckets, (files[f].clusters, f));
      FewerApart(files, buckets, less);
      if lcns != map[] {
        var lcns' := EraseBlocks(lcns, files[f].blocks);
        EraseExact(files, buckets, less, f, lcns, lcns');
        lcns := lcns';
      }
      EraseBucket(files[f].clusters, f);
    }

    /** The file's entry leaves the index by size. */
    method EraseBucket(clusters: nat, f: FileId)
      requires (clusters, f) in buckets
      modifies this`buckets
      ensures buckets == Without(old(buckets), (clusters, f))
    {
      buckets := Erase(buckets, (clusters, f));
    }

    /** File f, whose structure now says what `record` says, is listed again. */
    method Push(f: FileId, record: Record)
      requires Valid() && !Listed(buckets, f) && record.blocks != []
      requires forall g, l :: Holds(files, buckets, g, l) ==> !StartsIn(record.blocks, l)
      modifies this
      ensures Valid()
      ensures forall g :: Listed(buckets, g) <==> old(Listed(buckets, g)) || g == f
      ensures f in files && files[f].clusters == record.clusters && LeastFirst(files[f].blocks)
      ensures forall l :: Holds(files, buckets, f, l) <==> StartsIn(record.blocks, l)
      ensures old(lcns) == map[] ==> lcns == map[]
      ensures forall g :: g != f ==> (g in files <==> g in old(files)) && (g in files ==> files[g] == old(files)[g])
    {
      hide NoDup, Sorted, LeastFirst, Listed, Holds, Entered, BucketsOk, Exact, Apart, StartsIn, Inserted;
      ghost var lists := buckets;
      var lcns' := lcns;
      if lcns != map[] {
        lcns' := EnterBlocks(lcns, record.blocks, f);
      }
      ghost var k;
      var blocks: seq<Block>;
      blocks, k := Order(record.blocks);
      PushOk(files, buckets, f, record, blocks, lcns, lcns');
      files := files[f := Record(blocks, record.clusters)];
      buckets := Inserted(buckets, (record.clusters, f));
      lcns := lcns';
    }

    /** The files to move into the gap at lcn. */
    method FindBest(lcn: nat, length: nat, partialOK: bool) returns (rvs: seq<FileId>)
      requires Valid()
      ensures forall f :: f in rvs ==>
        Listed(buckets, f) && f in files && files[f].blocks != [] && files[f].blocks[0].lcn > lcn
      ensures TotalOf(files, rvs) <= length
      ensures !partialOK && rvs != [] ==> TotalOf(files, rvs) == length
      ensures partialOK ==> forall f :: Fits(files, buckets, f, lcn, length, TotalOf(files, rvs)) ==>
        exists g :: g in rvs && NoEarlier(files, f, g)
      ensures BucketsOk(files, buckets)
      ensures exists found ::
        rvs == Ids(found) && FileChoice.Outcome(View(files, buckets), lcn, length, partialOK, found)
    {
      hide BucketsOk, Exact, Apart, FileChoice.Outcome, FileChoice.Total, FileChoice.Ordered, Listed;
      ViewOk(files, buckets);
      var view := View(files, buckets);
      var found := FileChoice.FindBest(view, lcn, length, partialOK);
      forall x | x in found
        ensures x in view
        ensures Listed(buckets, x.id) && x.id in files && files[x.id].blocks != []
        ensures files[x.id].blocks[0].lcn > lcn && files[x.id].clusters == x.clusters
      {
        FoundOk(files, buckets, x);
      }
      IdsTotal(files, found);
      rvs := Ids(found);
      if partialOK {
        forall f | Fits(files, buckets, f, lcn, length, TotalOf(files, rvs))
          ensures exists g :: g in rvs && NoEarlier(files, f, g)
        {
          var g := FitMatched(files, buckets, found, lcn, length, f);
        }
      }
    }
  }
}
