/** The page-level allocator itself: the fields it updates in place, and its
    searching, releasing and growing loops.

    The operating system is an oracle.  A release request may be refused unless
    `releaseWorks`; `System` says what each request for memory yields and whether the
    page map has room for it.  `limitPages` is the heap limit flag in pages (zero: no
    limit) and `rate` is the release rate flag. */
module PageHeapClass {
  import opened FiniteSets
  import opened Options
  import opened Sequences
  import opened PageHeapState
  import opened PageHeapOps

  const MAX_VALID_PAGES: nat := 0x7_FFFF_FFFF_FFFF     // kMaxValidPages
  const MIN_SYSTEM_ALLOC: nat := MAX_PAGES             // kMinSystemAlloc
  const DEFAULT_RELEASE_DELAY := 0x4_0000              // kDefaultReleaseDelay
  const MAX_RELEASE_DELAY := 0x10_0000                 // kMaxReleaseDelay
  const COALESCE_INTERVAL := 0x800_0000                // kForcedCoalesceInterval

  /** Releasing moves free pages to the system and does nothing else: clients,
      the managed pages and their number stay, no free run gets shorter, and what is
      not released stays as it was. */
  ghost predicate ReleaseOnly(h: Heap, h': Heap) {
    && Client(h'.spans) == Client(h.spans)
    && h'.owner.Keys == h.owner.Keys && h'.lost == h.lost && h'.systemBytes == h.systemBytes
    && h'.freeBytes + h'.unmappedBytes == h.freeBytes + h.unmappedBytes
    && h'.unmappedBytes >= h.unmappedBytes
    && (forall n: nat :: HasFree(h.spans, n) ==> HasFree(h'.spans, n))
    && (forall s :: s in h'.spans && h'.spans[s].location == Normal ==> s in h.spans && h.spans[s] == h'.spans[s])
  }

  lemma ReleaseOnlyReturn(h0: Heap, h: Heap, s: SpanId)
    requires ReleaseOnly(h0, h) && Inv(h) && s in h.spans && h.spans[s].location == Normal
    ensures Inv(Return(h, s)) && ReleaseOnly(h0, Return(h, s))
    ensures Return(h, s).freeBytes == h.freeBytes - Bytes(h.spans[s].length)
    ensures Return(h, s).unmappedBytes == h.unmappedBytes + Bytes(h.spans[s].length)
  {
    hide Partition, PagemapOk, ListsOk, CountOk, Coalesced, Return, Client, HasFree;
    FreeShape(h);
    ReturnKeeps(h, s, 0);
    forall n: nat | HasFree(h.spans, n)
      ensures HasFree(Return(h, s).spans, n)
    {
      ReturnKeeps(h, s, n);
    }
    var h' := Return(h, s);
    forall u | u in h'.spans && h'.spans[u].location == Normal
      ensures u in h0.spans && h0.spans[u] == h'.spans[u]
    {
      ReturnNormals(h, s, u);
    }
  }

  /** So many pages were released because one span less would not have been enough. */
  ghost predicate Enough(spans: Spans, released: int, num: int) {
    released == 0 || exists s :: s in spans && spans[s].location == Normal && released < num + spans[s].length
  }

  lemma NoneEnough(spans: Spans, num: int)
    ensures Enough(spans, 0, num)
  {
  }

  lemma EnoughBefore(h: Heap, h': Heap, released: int, num: int)
    requires ReleaseOnly(h, h') && Enough(h'.spans, released, num)
    ensures Enough(h.spans, released, num)
  {
    hide Client, HasFree;
    if released != 0 {
      var s :| s in h'.spans && h'.spans[s].location == Normal && released < num + h'.spans[s].length;
      assert h.spans[s] == h'.spans[s];
    }
  }

  lemma ReleaseOnlySame(h: Heap)
    ensures ReleaseOnly(h, h)
  {
  }

  lemma ReleaseOnlyPages(h: Heap, h': Heap)
    requires ReleaseOnly(h, h')
    ensures h'.owner.Keys == h.owner.Keys && h'.freeBytes + h'.unmappedBytes == h.freeBytes + h.unmappedBytes
    ensures Client(h'.spans) == Client(h.spans) && h'.systemBytes == h.systemBytes
  {
  }

  lemma ReleaseOnlyTrans(a: Heap, b: Heap, c: Heap)
    requires ReleaseOnly(a, b) && ReleaseOnly(b, c)
    ensures ReleaseOnly(a, c)
  {
    hide Client, HasFree;
  }

  /** The counters are not negative, and empty normal lists mean no free bytes. */
  lemma CountersNatural(h: Heap)
    requires Inv(h)
    ensures h.freeBytes >= 0 && h.unmappedBytes >= 0 && h.systemBytes >= h.unmappedBytes + h.freeBytes
    ensures h.freeBytes % 8192 == 0 && h.unmappedBytes % 8192 == 0
  {
    hide Partition, PagemapOk, ListsOk, Coalesced;
    var a, b := PagesAt(h.spans, h.owner, Normal, {}), PagesAt(h.spans, h.owner, Returned, {});
    assert a !! b;
    SubsetSize(a + b, h.owner.Keys);
    assert |h.owner| == |h.owner.Keys|;
  }

  lemma NoNormalSpans(h: Heap)
    requires Inv(h) && forall i :: 0 <= i <= MAX_PAGES ==> h.normal[i] == []
    ensures h.freeBytes == 0
  {
    hide Partition, PagemapOk, NoDup;
    var a := PagesAt(h.spans, h.owner, Normal, {});
    forall s | s in h.spans
      ensures h.spans[s].location != Normal
    {
      var i := ListIndex(h.spans[s].length);
      assert ListOk(h.spans, h.normal[i], i, Normal, {});
      assert !Belongs(h.spans, s, i, Normal, {});
    }
    assert a == {};
  }

  /** A span on a list is live, of the list's kind and of the list's length. */
  lemma ListedSpan(h: Heap, where: Location, i: nat, k: nat)
    requires Inv(h) && where != InUse && i <= MAX_PAGES
    requires var q := if where == Normal then h.normal else h.returned; k < |q[i]|
    ensures var q := if where == Normal then h.normal else h.returned;
      var s := q[i][k];
      s in h.spans && h.spans[s].location == where && ListIndex(h.spans[s].length) == i && h.spans[s].length > 0
  {
    hide PagemapOk, Coalesced, CountOk, NoDup;
    var q := if where == Normal then h.normal else h.returned;
    assert ListOk(h.spans, q[i], i, where, {});
    assert q[i][k] in q[i];
    assert Belongs(h.spans, q[i][k], i, where, {});
  }

  lemma FreeClassless(h: Heap, s: SpanId)
    requires Inv(h) && s in h.spans
    ensures ListsShaped(h) && h.spans[s].length > 0 && (h.spans[s].Free() ==> h.spans[s].sizeclass == 0)
  {
    BoundaryAt(h.spans, h.pagemap, h.owner, s);
  }

  /** Both neighbours' page map entries name live spans that touch `s`. */
  lemma Tags(h: Heap, s: SpanId)
    requires InvX(h, {s}) && s in h.spans
    ensures ListsShaped(h) && h.spans[s].length > 0 && h.spans[s].start > 0
    ensures var p := h.spans[s].start; p - 1 in h.pagemap ==>
      var q := h.pagemap[p - 1];
      q in h.spans && q != s && h.spans[q].length > 0 && h.spans[q].start + h.spans[q].length == p
    ensures var e := h.spans[s].start + h.spans[s].length; e in h.pagemap ==>
      var q := h.pagemap[e];
      q in h.spans && q != s && h.spans[q].length > 0 && h.spans[q].start == e
  {
    hide Partition, PagemapOk, ListsOk, CountOk, Coalesced;
    TagBefore(h, s);
    TagAfter(h, s);
    SpanShape(h.spans, h.owner, s);
    forall q | q in h.spans
      ensures h.spans[q].length > 0
    {
      SpanShape(h.spans, h.owner, q);
    }
  }

  lemma FreeShape(h: Heap)
    requires Inv(h)
    ensures ListsShaped(h) && ReleaseOnly(h, h)
  {
  }

  /** A normal free span that has left its list may be relabelled and merged. */
  lemma ReturnTransit(h: Heap, s: SpanId)
    requires Inv(h) && s in h.spans && h.spans[s].location == Normal
    ensures InvX(Relabel(Detach(h, s), s, Returned, 0), {s})
  {
    hide Partition, PagemapOk, ListsOk, CountOk, Coalesced;
    DetachKeeps(h, s, {});
    assert {} + {s} == {s};
    RelabelKeeps(Detach(h, s), s, Returned, {s});
  }

  lemma DeleteTransit(h: Heap, s: SpanId)
    requires Inv(h) && s in h.spans && h.spans[s].location == InUse
    ensures InvX(Relabel(h, s, Normal, 0), {s})
  {
    hide Partition, PagemapOk, ListsOk, CountOk, Coalesced;
    TransitIrrelevant(h, s, {});
    assert {} + {s} == {s};
    RelabelKeeps(h, s, Normal, {s});
  }

  function Max(a: int, b: int): int {
    if a < b then b else a
  }

  // Address-ordered best fit.

  predicate Better(a: Span, b: Span) {
    a.length < b.length || (a.length == b.length && a.start < b.start)
  }

  ghost predicate Large(d: Span, n: nat) {
    d.Free() && d.length >= MAX_PAGES && d.length >= n
  }

  ghost predicate HasLarge(spans: Spans, n: nat) {
    exists s :: s in spans && Large(spans[s], n)
  }

  ghost predicate HasLargeNormal(spans: Spans, n: nat) {
    exists s :: s in spans && Large(spans[s], n) && spans[s].location == Normal
  }

  ghost predicate BestLarge(spans: Spans, s: SpanId, n: nat) {
    && s in spans && Large(spans[s], n)
    && (forall u :: u in spans && Large(spans[u], n) ==> !Better(spans[u], spans[s]))
  }

  /** What a search does: release some free spans, and then either nothing or carve
      `n` pages from a free span. */
  ghost predicate Served(h: Heap, mid: Heap, h': Heap, r: Option<SpanId>, n: nat, t: SpanId) {
    && ReleaseOnly(h, mid) && Inv(mid)
    && match r
       case None => h' == mid
       case Some(s) =>
         && s in mid.spans && mid.spans[s].Free() && 0 < n <= mid.spans[s].length && t !in mid.spans
         && h' == Carve(mid, s, n, t)
  }

  lemma ServedTrans(h: Heap, h1: Heap, mid: Heap, h': Heap, r: Option<SpanId>, n: nat, t: SpanId)
    requires ReleaseOnly(h, h1) && Served(h1, mid, h', r, n, t)
    ensures Served(h, mid, h', r, n, t)
  {
    hide Inv, ReleaseOnly, Carve;
    ReleaseOnlyTrans(h, h1, mid);
  }

  /** The two lists of large spans hold exactly the large free spans. */
  lemma LargeLists(h: Heap)
    requires Inv(h)
    ensures forall s :: s in h.normal[MAX_PAGES] <==>
      s in h.spans && h.spans[s].location == Normal && h.spans[s].length >= MAX_PAGES
    ensures forall s :: s in h.returned[MAX_PAGES] <==>
      s in h.spans && h.spans[s].location == Returned && h.spans[s].length >= MAX_PAGES
  {
    hide Partition, PagemapOk, CountOk, Coalesced, NoDup;
    assert ListOk(h.spans, h.normal[MAX_PAGES], MAX_PAGES, Normal, {});
    assert ListOk(h.spans, h.returned[MAX_PAGES], MAX_PAGES, Returned, {});
    forall s
      ensures Belongs(h.spans, s, MAX_PAGES, Normal, {}) <==>
        s in h.spans && h.spans[s].location == Normal && h.spans[s].length >= MAX_PAGES
      ensures Belongs(h.spans, s, MAX_PAGES, Returned, {}) <==>
        s in h.spans && h.spans[s].location == Returned && h.spans[s].length >= MAX_PAGES
    {
    }
  }

  /** What the two scans of AllocLarge establish together. */
  lemma LargeSearch(h: Heap, n: nat, bestNormal: Option<SpanId>, best: Option<SpanId>)
    requires Inv(h)
    requires bestNormal.Some? ==>
      bestNormal.value in h.spans && h.spans[bestNormal.value].length >= n && bestNormal.value in h.normal[MAX_PAGES]
    requires forall k :: 0 <= k < |h.normal[MAX_PAGES]| ==> h.normal[MAX_PAGES][k] in h.spans
    requires forall k :: 0 <= k < |h.returned[MAX_PAGES]| ==> h.returned[MAX_PAGES][k] in h.spans
    requires forall k :: 0 <= k < |h.normal[MAX_PAGES]| && h.spans[h.normal[MAX_PAGES][k]].length >= n ==>
      bestNormal.Some? && !Better(h.spans[h.normal[MAX_PAGES][k]], h.spans[bestNormal.value])
    requires best.Some? ==>
      best.value in h.spans && h.spans[best.value].length >= n &&
        (best == bestNormal || best.value in h.returned[MAX_PAGES])
    requires best.None? ==> bestNormal.None?
    requires forall k :: 0 <= k < |h.returned[MAX_PAGES]| && h.spans[h.returned[MAX_PAGES][k]].length >= n ==>
      best.Some? && !Better(h.spans[h.returned[MAX_PAGES][k]], h.spans[best.value])
    requires bestNormal.Some? ==> best == bestNormal || Better(h.spans[best.value], h.spans[bestNormal.value])
    ensures if best.Some? then BestLarge(h.spans, best.value, n) else !HasLarge(h.spans, n)
    ensures bestNormal.Some? <==> HasLargeNormal(h.spans, n)
    ensures HasLargeNormal(h.spans, n) ==> h.freeBytes >= Bytes(n)
    ensures best.Some? && best != bestNormal ==> h.spans[best.value].location == Returned
    ensures best.Some? && best == bestNormal ==> h.spans[best.value].location == Normal
  {
    hide Inv;
    LargeLists(h);
    if bestNormal.Some? {
      FreeAtLeast(h, bestNormal.value);
    }
  }

  /** Shortest free span of at least n pages; among large ones, the one at the
      least address. */
  ghost predicate BestFree(spans: Spans, s: SpanId, n: nat) {
    && s in spans && spans[s].Free() && spans[s].length >= n
    && (forall u :: u in spans && spans[u].Free() && spans[u].length >= n ==> spans[s].length <= spans[u].length)
    && (forall u :: u in spans && spans[u].Free() && spans[u].length >= n && spans[s].length >= MAX_PAGES ==>
      !Better(spans[u], spans[s]))
  }

  lemma BestIsFree(spans: Spans, s: SpanId, n: nat)
    requires BestFree(spans, s, n)
    ensures HasFree(spans, n)
  {
  }

  /** A normal span is a best fit, so that the heap limit does not matter. */
  ghost predicate NormalBest(spans: Spans, n: nat) {
    exists b :: BestFree(spans, b, n) && spans[b].location == Normal
  }

  ghost predicate NormalBestLarge(spans: Spans, n: nat) {
    exists b :: BestLarge(spans, b, n) && spans[b].location == Normal
  }

  /** There is one best large span. */
  lemma OneBestLarge(spans: Spans, owner: map<nat, SpanId>, a: SpanId, b: SpanId, n: nat)
    requires Partition(spans, owner) && BestLarge(spans, a, n) && BestLarge(spans, b, n)
    ensures a == b
  {
    assert spans[a].start == spans[b].start;
    assert spans[a].Covers(spans[a].start) && spans[b].Covers(spans[a].start);
  }

  lemma NormalLargeServed(h: Heap, best: Option<SpanId>, n: nat)
    requires Inv(h) && NormalBestLarge(h.spans, n)
    requires if best.Some? then BestLarge(h.spans, best.value, n) else !HasLarge(h.spans, n)
    ensures best.Some? && h.spans[best.value].location == Normal
  {
    hide Inv;
    if best.Some? {
      NormalLargeIsBest(h, best.value, n);
    }
  }

  lemma NormalLargeIsBest(h: Heap, a: SpanId, n: nat)
    requires Inv(h) && BestLarge(h.spans, a, n) && NormalBestLarge(h.spans, n)
    ensures h.spans[a].location == Normal
  {
    hide Inv, Better;
    InvPartition(h);
    var b :| BestLarge(h.spans, b, n) && h.spans[b].location == Normal;
    OneBestLarge(h.spans, h.owner, a, b, n);
  }

  /** If a normal span fits best and the lists below s pages are empty, then the normal
      list of s pages is not empty, or both are. */
  lemma NormalFirst(h: Heap, n: nat, s: nat)
    requires Inv(h) && NormalBest(h.spans, n) && n <= s < MAX_PAGES && ListsShaped(h)
    requires forall i :: n <= i < s ==> h.normal[i] == [] && h.returned[i] == []
    ensures h.normal[s] != [] || h.returned[s] == []
  {
    hide Inv, Better;
    if h.returned[s] != [] {
      var b :| BestFree(h.spans, b, n) && h.spans[b].location == Normal;
      NoneShorter(h, n, s);
      ListedSpan(h, Returned, s, 0);
      assert h.spans[b].length == s;
      OnItsList(h, b);
    }
  }

  lemma OnItsList(h: Heap, b: SpanId)
    requires Inv(h) && b in h.spans && h.spans[b].location == Normal
    ensures ListIndex(h.spans[b].length) < |h.normal| && b in h.normal[ListIndex(h.spans[b].length)]
  {
    hide Partition, PagemapOk, CountOk, Coalesced, NoDup;
    var i := ListIndex(h.spans[b].length);
    assert ListOk(h.spans, h.normal[i], i, Normal, {});
    assert Belongs(h.spans, b, i, Normal, {});
  }

  /** With nothing on the small lists, a normal best fit is a large one. */
  lemma NormalLarge(h: Heap, n: nat)
    requires Inv(h) && NormalBest(h.spans, n)
    requires forall i :: n <= i < MAX_PAGES ==> h.normal[i] == [] && h.returned[i] == []
    ensures NormalBestLarge(h.spans, n)
  {
    hide Inv;
    var b :| BestFree(h.spans, b, n) && h.spans[b].location == Normal;
    NoneShorter(h, n, MAX_PAGES);
    assert BestLarge(h.spans, b, n);
  }

  /** Empty lists n .. s - 1 of both kinds mean no free span that long. */
  lemma NoneShorter(h: Heap, n: nat, s: nat)
    requires Inv(h) && s <= MAX_PAGES && forall i :: n <= i < s ==> h.normal[i] == [] && h.returned[i] == []
    ensures forall u :: u in h.spans && h.spans[u].Free() && h.spans[u].length >= n ==> h.spans[u].length >= s
  {
    hide Partition, PagemapOk, CountOk, Coalesced, NoDup;
    forall u | u in h.spans && h.spans[u].Free() && n <= h.spans[u].length < MAX_PAGES
      ensures h.spans[u].length >= s
    {
      var i := h.spans[u].length;
      assert ListOk(h.spans, h.normal[i], i, Normal, {}) && ListOk(h.spans, h.returned[i], i, Returned, {});
      assert Belongs(h.spans, u, i, h.spans[u].location, {});
    }
  }

  /** A span of the first non-empty lists, which are those of length s, is a best fit. */
  lemma FirstFit(h: Heap, u: SpanId, n: nat, s: nat)
    requires Inv(h) && n <= s < MAX_PAGES && forall i :: n <= i < s ==> h.normal[i] == [] && h.returned[i] == []
    requires u in h.spans && h.spans[u].Free() && h.spans[u].length == s
    ensures BestFree(h.spans, u, n)
  {
    hide Inv;
    NoneShorter(h, n, s);
  }

  lemma OnlyLarge(h: Heap, n: nat, r: Option<SpanId>)
    requires Inv(h) && forall i :: n <= i < MAX_PAGES ==> h.normal[i] == [] && h.returned[i] == []
    requires if r.Some? then BestLarge(h.spans, r.value, n) else !HasLarge(h.spans, n)
    ensures if r.Some? then BestFree(h.spans, r.value, n) else !HasFree(h.spans, n)
  {
    hide Inv;
    NoneShorter(h, n, MAX_PAGES);
    assert forall u :: u in h.spans && h.spans[u].Free() && h.spans[u].length >= n ==> Large(h.spans[u], n);
  }

  lemma InvPartition(h: Heap)
    requires Inv(h)
    ensures Partition(h.spans, h.owner)
  {
  }

  lemma LoseKeeps(h: Heap, n: nat)
    requires Inv(h)
    ensures Inv(Lose(h, n))
  {
    hide Partition, PagemapOk, ListsOk, Coalesced, CountOk;
  }

  lemma FreeShorter(spans: Spans, m: nat, n: nat)
    requires HasFree(spans, m) && n <= m
    ensures HasFree(spans, n)
  {
    var s :| s in spans && spans[s].Free() && spans[s].length >= m;
    assert s in spans && spans[s].Free() && spans[s].length >= n;
  }

  predicate InRun(run: (nat, nat), p: nat) {
    run.0 <= p < run.0 + run.1
  }

  lemma AddRunGrows(owner: map<nat, SpanId>, p: nat, n: nat, s: SpanId)
    requires Unmanaged(owner, p, n) && n > 0
    ensures owner.Keys < PutRange(owner, p, n, s).Keys
    ensures forall q :: q in PutRange(owner, p, n, s) <==> q in owner || InRun((p, n), q)
  {
    hide PutRange;
    assert p in PutRange(owner, p, n, s);
    assert p !in owner;
  }

  lemma AddRunClient(spans: Spans, d: Span, s: SpanId)
    requires s !in spans && d.location == InUse
    ensures Client(spans[s := d]) - {s} == Client(spans)
  {
  }

  /** The outcome of an allocation as the client sees it: nothing changed, or one
      more span of exactly n pages is in use. */
  ghost predicate Allocated(client: Spans, spans: Spans, r: Option<SpanId>, n: nat) {
    match r
    case None => Client(spans) == client
    case Some(s) =>
      && s !in client && s in spans && spans[s].length == n && spans[s].location == InUse && spans[s].sizeclass == 0
      && Client(spans) == client[s := spans[s]]
  }

  /** The condition under which New returns every free page before growing. */
  ghost predicate ForcesRelease(h: Heap, n: nat) {
    && h.freeBytes != 0 && h.unmappedBytes != 0 && h.freeBytes + h.unmappedBytes >= h.systemBytes / 4
    && h.systemBytes / COALESCE_INTERVAL != (h.systemBytes + Bytes(n)) / COALESCE_INTERVAL
  }

  /** h' is mid with n pages carved from its free span s. */
  ghost predicate Carved(mid: Heap, h': Heap, s: SpanId, n: nat, t: SpanId) {
    && Inv(mid) && s in mid.spans && mid.spans[s].Free() && 0 < n <= mid.spans[s].length && t !in mid.spans
    && mid.owner.Keys == h'.owner.Keys && h' == Carve(mid, s, n, t)
  }

  /** Whether n free pages are contiguous depends on the spans and their pages only. */
  lemma SameFreeRuns(h: Heap, h': Heap, n: nat)
    requires h'.spans == h.spans && h'.owner == h.owner
    ensures forall lo :: FreeRun(h, lo, n) <==> FreeRun(h', lo, n)
  {
  }

  lemma ServedClient(h: Heap, mid: Heap, h': Heap, r: Option<SpanId>, n: nat, t: SpanId)
    requires Served(h, mid, h', r, n, t)
    ensures Allocated(Client(h.spans), h'.spans, r, n)
    ensures h'.owner.Keys == h.owner.Keys
    ensures r.None? ==> h' == mid && ReleaseOnly(h, h')
    ensures r.Some? ==> Carved(mid, h', r.value, n, t) && Client(mid.spans) == Client(h.spans)
  {
    hide Partition, PagemapOk, ListsOk, CountOk, Coalesced, HasFree, Carve;
    if r.Some? {
      CarveClient(mid, r.value, n, t);
      assert r.value in Client(h'.spans);
    }
  }

  lemma Ends(h: Heap, s: SpanId)
    requires Inv(h) && s in h.spans
    ensures h.spans[s].length > 0 && BoundaryOk(h.spans[s], s, h.pagemap)
  {
    BoundaryAt(h.spans, h.pagemap, h.owner, s);
  }

  lemma PutNothing(m: map<nat, SpanId>, p: nat, s: SpanId)
    ensures PutRange(m, p, 0, s) == m
  {
  }

  lemma PutOneMore(m: map<nat, SpanId>, p: nat, n: nat, s: SpanId)
    ensures PutRange(m, p, n + 1, s) == PutRange(m, p, n, s)[p + n := s]
  {
    hide PutRange;
  }

  /** Filling the interior is filling everything when the ends are right already. */
  lemma PutWhole(m: map<nat, SpanId>, p: nat, n: nat, inner: nat, s: SpanId)
    requires n > 0 && p in m && m[p] == s && p + n - 1 in m && m[p + n - 1] == s
    requires inner == if n < 2 then 0 else n - 2
    ensures PutRange(m, p + 1, inner, s) == PutRange(m, p, n, s)
  {
    hide PutRange;
  }

  lemma LargeStays(h: Heap, h': Heap, n: nat)
    requires ReleaseOnly(h, h')
    ensures HasLargeNormal(h.spans, n) ==> HasLarge(h'.spans, n)
  {
    if s :| s in h.spans && Large(h.spans[s], n) && h.spans[s].location == Normal {
      var m := Max(n, MAX_PAGES);
      assert HasFree(h.spans, m);
      var u :| u in h'.spans && h'.spans[u].Free() && h'.spans[u].length >= m;
      assert Large(h'.spans[u], n);
    }
  }

  lemma FreeAtLeast(h: Heap, s: SpanId)
    requires Inv(h) && s in h.spans && h.spans[s].location == Normal
    ensures h.freeBytes >= Bytes(h.spans[s].length)
  {
    hide Partition, PagemapOk, ListsOk, Coalesced, PagesAt;
    PagesWithout(h.spans, h.owner, Normal, s, {});
  }

  /** Carving takes exactly n pages off the carved span's own counter. */
  lemma CarveCounters(h: Heap, s: SpanId, n: nat, t: SpanId)
    requires ListsShaped(h) && s in h.spans && h.spans[s].Free() && 0 < n <= h.spans[s].length && t !in h.spans
    ensures var h' := Carve(h, s, n, t);
      && h'.freeBytes == h.freeBytes - (if h.spans[s].location == Normal then Bytes(n) else 0)
      && h'.unmappedBytes == h.unmappedBytes - (if h.spans[s].location == Returned then Bytes(n) else 0)
      && h'.systemBytes == h.systemBytes && h'.lost == h.lost
  {
    hide CutOwner;
  }

  // The round robin over the lists 0 .. MAX_PAGES: the list an index stands for,
  // and which lists i steps from `first` have looked at.

  function Wrap(index: nat): (i: nat)
    ensures index <= 2 * MAX_PAGES + 1 ==> i <= MAX_PAGES
  {
    if index > MAX_PAGES then index - (MAX_PAGES + 1) else index
  }

  ghost predicate Visited(first: nat, i: nat, j: nat) {
    first <= j < first + i || j < first + i - (MAX_PAGES + 1)
  }

  /** Recycled descriptors are not in use and nothing past `bump` ever was. */
  ghost predicate IdsOk(live: set<SpanId>, recycled: seq<SpanId>, bump: SpanId) {
    && NoDup(recycled)
    && (forall i :: 0 <= i < |recycled| ==> recycled[i] < bump && recycled[i] !in live)
    && (forall s :: s in live ==> s < bump)
  }

  lemma BumpFresh(live: set<SpanId>, recycled: seq<SpanId>, bump: SpanId)
    requires IdsOk(live, recycled, bump)
    ensures bump !in live
  {
  }

  /** How many freed pages to wait for after so many were released: a thousand for each at
      rate one, fewer at higher rates, within bounds; without a rate, or with nothing
      released, the default. */
  function Delay(rate: real, released: int): (d: int)
    ensures released >= 0 ==> 0 <= d <= MAX_RELEASE_DELAY
  {
    if rate <= 0.000001 || released == 0 then DEFAULT_RELEASE_DELAY
    else
      var wait := 1000.0 / rate * released as real;
      if wait > MAX_RELEASE_DELAY as real then MAX_RELEASE_DELAY else wait.Floor
  }

  /** The delay times the rate is a thousand pages for each released one, rounded down,
      unless the bound is reached. */
  lemma DelayPerPage(rate: real, released: int)
    requires rate > 0.000001 && released > 0 && 1000.0 * released as real <= MAX_RELEASE_DELAY as real * rate
    ensures var d := Delay(rate, released); d as real * rate <= 1000.0 * released as real < (d + 1) as real * rate
  {
    var wait := 1000.0 / rate * released as real;
    assert wait * rate == 1000.0 * released as real by {
      TimesRate(1000.0 / rate, released as real, rate);
      assert 1000.0 / rate * rate == 1000.0;
    }
    ScaleReal(wait, MAX_RELEASE_DELAY as real, rate);
    ScaleReal(wait.Floor as real, wait, rate);
    ScaleReal((wait.Floor + 1) as real, wait, rate);
  }

  lemma NoDelay(rate: real)
    ensures Delay(rate, 0) == DEFAULT_RELEASE_DELAY
    ensures rate <= 0.000001 ==> forall n :: Delay(rate, n) == DEFAULT_RELEASE_DELAY
  {
  }

  lemma TimesRate(a: real, b: real, c: real)
    ensures a * b * c == (a * c) * b
  {
  }

  lemma ScaleReal(a: real, b: real, c: real)
    requires c > 0.0
    ensures a <= b <==> a * c <= b * c
  {
    assert (b - a) * c == b * c - a * c;
  }

  /** The system is asked for no fewer pages than this at first. */
  function Most(n: nat): nat {
    if n > MIN_SYSTEM_ALLOC then n else MIN_SYSTEM_ALLOC
  }

  /** What the system answers: the run that the k-th request for memory yields, if any,
      and whether the page map has room for the k-th run that is to be added. */
  class System {
    const grants: nat -> Option<(nat, nat)>
    const room: nat -> bool
    var asked: nat
    var added: nat

    constructor (grants: nat -> Option<(nat, nat)>, room: nat -> bool)
      ensures this.grants == grants && this.room == room && asked == added == 0
    {
      this.grants, this.room, asked, added := grants, room, 0, 0;
    }

    /** The k-th request yields at least n pages, none of them managed already. */
    ghost predicate Grants(k: nat, n: nat, managed: set<nat>) {
      && grants(k).Some? && grants(k).value.0 > 0 && grants(k).value.1 >= n
      && forall p :: InRun(grants(k).value, p) ==> p !in managed
    }

    /** What asking first for the system minimum and then for n pages yields from the k-th
        request on, where `most` and `some` say whether the heap limit allows the two. */
    ghost function Yield(k: nat, n: nat, managed: set<nat>, most: bool, some: bool): Option<(nat, nat)> {
      var next := if most then k + 1 else k;
      if most && Grants(k, Most(n), managed) then grants(k)
      else if n < MIN_SYSTEM_ALLOC && some && Grants(next, n, managed) then grants(next)
      else None
    }
  }

  /** A run lies apart from every span exactly when its pages are not managed. */
  lemma RunApart(spans: Spans, owner: map<nat, SpanId>, p: nat, n: nat)
    requires Partition(spans, owner) && n > 0
    ensures (forall s :: s in spans ==> spans[s].start + spans[s].length <= p || p + n <= spans[s].start) <==>
            Unmanaged(owner, p, n)
  {
    if Unmanaged(owner, p, n) {
      forall s | s in spans
        ensures spans[s].start + spans[s].length <= p || p + n <= spans[s].start
      {
        var q := if spans[s].start < p then p else spans[s].start;
        if spans[s].Covers(q) {
          OwnedAt(spans, owner, s, q);
        }
      }
    }
  }

  lemma GrantedSome(os: System, k: nat, n: nat, managed: set<nat>)
    requires os.Grants(k, n, managed)
    ensures os.grants(k).Some?
  {
  }

  lemma GrantedRun(os: System, k: nat, n: nat, owner: map<nat, SpanId>, run: (nat, nat), most: bool, some: bool)
    requires os.Yield(k, n, owner.Keys, most, some) == Some(run)
    ensures run.0 > 0 && run.1 >= n && Unmanaged(owner, run.0, run.1)
  {
  }

  class PageHeap {
    const os: System
    const limitPages: nat
    const releaseWorks: bool
    const rate: real

    var spans: Spans
    var pagemap: map<nat, SpanId>
    var normal: Lists
    var returned: Lists
    var freeBytes: int
    var unmappedBytes: int
    var systemBytes: int
    var systemTaken: nat
    var scavengeCounter: int
    var releaseIndex: nat

    // the span descriptor allocator: recycled descriptors, then fresh ones
    var recycled: seq<SpanId>
    var bump: SpanId

    ghost var owner: map<nat, SpanId>
    ghost var lost: nat

    ghost function View(): Heap
      reads this
    {
      Heap(spans, pagemap, normal, returned, freeBytes, unmappedBytes, systemBytes, owner, lost)
    }

    ghost predicate Valid()
      reads this
    {
      Inv(View()) && IdsOk(spans.Keys, recycled, bump) && releaseIndex <= MAX_PAGES + 1 && systemTaken >= systemBytes
    }

    constructor (os: System, limitPages: nat, releaseWorks: bool, rate: real)
      ensures Valid() && spans == map[] && systemBytes == 0 && this.os == os
      ensures this.limitPages == limitPages && this.releaseWorks == releaseWorks && this.rate == rate
    {
      this.os, this.limitPages, this.releaseWorks, this.rate := os, limitPages, releaseWorks, rate;
      spans, pagemap, owner, lost := map[], map[], map[], 0;
      normal := seq(MAX_PAGES + 1, _ => []);
      returned := seq(MAX_PAGES + 1, _ => []);
      freeBytes, unmappedBytes, systemBytes, systemTaken := 0, 0, 0, 0;
      scavengeCounter, releaseIndex := 0, MAX_PAGES;
      recycled, bump := [], 0;
    }

    // ------------------------------------------------------------- descriptors

    /** A zeroed descriptor for the given pages; its location is set at once. */
    method NewSpan(start: nat, length: nat, where: Location) returns (s: SpanId)
      requires IdsOk(spans.Keys, recycled, bump)
      modifies this`spans, this`recycled, this`bump, this`systemTaken
      ensures s !in old(spans) && spans == old(spans)[s := Span(start, length, where, 0)]
      ensures spans.Keys == old(spans).Keys + {s}
      ensures IdsOk(spans.Keys, recycled, bump) && systemTaken >= old(systemTaken)
    {
      if recycled != [] {
        s := recycled[0];
        recycled := recycled[1..];
      } else {
        s := bump;
        bump := bump + 1;
        var metadata: int := *;
        systemTaken := systemTaken + (if metadata > 0 then metadata else 0);
      }
      spans := spans[s := Span(start, length, where, 0)];
    }

    method DeleteSpan(s: SpanId)
      requires IdsOk(spans.Keys, recycled, bump) && s in spans
      modifies this`spans, this`recycled
      ensures spans == old(spans) - {s} && IdsOk(spans.Keys, recycled, bump)
    {
      spans := spans - {s};
      recycled := [s] + recycled;
    }

    // -------------------------------------------------------------- free lists

    method RemoveFromFreeList(s: SpanId)
      requires s in spans && ListsShaped(View())
      modifies this`normal, this`returned, this`freeBytes, this`unmappedBytes
      ensures View() == Detach(old(View()), s) && ListsShaped(View())
    {
      var d := spans[s];
      var i := ListIndex(d.length);
      if d.location == Normal {
        freeBytes := freeBytes - Bytes(d.length);
        normal := normal[i := Without(normal[i], s)];
      } else {
        unmappedBytes := unmappedBytes - Bytes(d.length);
        returned := returned[i := Without(returned[i], s)];
      }
    }

    method PrependToFreeList(s: SpanId)
      requires s in spans && ListsShaped(View())
      modifies this`normal, this`returned, this`freeBytes, this`unmappedBytes
      ensures View() == Attach(old(View()), s)
      ensures var i := ListIndex(spans[s].length);
        && i < |old(normal)| == |old(returned)|
        && (if spans[s].location == Normal
            then normal == old(normal)[i := [s] + old(normal[i])] && returned == old(returned)
            else returned == old(returned)[i := [s] + old(returned[i])] && normal == old(normal))
    {
      var d := spans[s];
      var i := ListIndex(d.length);
      if d.location == Normal {
        freeBytes := freeBytes + Bytes(d.length);
        normal := normal[i := [s] + normal[i]];
      } else {
        unmappedBytes := unmappedBytes + Bytes(d.length);
        returned := returned[i := [s] + returned[i]];
      }
    }

    method RecordSpan(s: SpanId)
      requires s in spans && spans[s].length > 0
      modifies this`pagemap
      ensures pagemap == old(pagemap)[spans[s].start := s][spans[s].start + spans[s].length - 1 := s]
    {
      pagemap := pagemap[spans[s].start := s];
      if spans[s].length > 1 {
        pagemap := pagemap[spans[s].start + spans[s].length - 1 := s];
      }
    }

    // -------------------------------------------------- changing one descriptor

    method Relocate(s: SpanId, where: Location)
      requires s in spans
      modifies this`spans
      ensures View() == Relabel(old(View()), s, where, 0) && spans.Keys == old(spans).Keys
    {
      spans := spans[s := spans[s].(location := where, sizeclass := 0)];
    }

    /** Cut `s` to `n` pages; the leftover gets a descriptor and its own page map entries. */
    method CutSpan(s: SpanId, n: nat, where: Location) returns (leftover: SpanId)
      requires s in spans && 0 < n < spans[s].length && IdsOk(spans.Keys, recycled, bump)
      modifies this`spans, this`pagemap, this`owner, this`recycled, this`bump, this`systemTaken
      ensures leftover !in old(spans) && View() == CutAt(old(View()), s, n, leftover, where) && leftover in spans
      ensures IdsOk(spans.Keys, recycled, bump) && systemTaken >= old(systemTaken)
    {
      hide IdsOk, CutOwner;
      ghost var before := spans;
      var d := spans[s];
      leftover := NewSpan(d.start + n, d.length - n, where);
      RecordSpan(leftover);
      pagemap := pagemap[d.start + n - 1 := s];
      spans := spans[s := d.(length := n)];
      owner := CutOwner(owner, s, d.start + n, leftover);
      assert spans.Keys == before.Keys + {leftover};
    }

    method Absorb(s: SpanId, q: SpanId)
      requires IdsOk(spans.Keys, recycled, bump) && s in spans && q in spans && s != q
      requires spans[q].length > 0 && spans[s].length > 0
      requires spans[q].start + spans[q].length == spans[s].start || spans[s].start + spans[s].length == spans[q].start
      modifies this`spans, this`pagemap, this`owner, this`recycled
      ensures IdsOk(spans.Keys, recycled, bump)
      ensures View() == if old(spans[q].start + spans[q].length == spans[s].start)
                        then AbsorbPrev(old(View()), s, q) else AbsorbNext(old(View()), s, q)
    {
      hide IdsOk, JoinOwner;
      var d := spans[s];
      var len := spans[q].length;
      var before := spans[q].start + len == d.start;
      DeleteSpan(q);
      ghost var live := spans.Keys;
      if before {
        spans := spans[s := d.(start := d.start - len, length := d.length + len)];
        pagemap := pagemap[d.start - len := s];
      } else {
        spans := spans[s := d.(length := d.length + len)];
        pagemap := pagemap[d.start + d.length + len - 1 := s];
      }
      owner := JoinOwner(owner, s, q);
      assert spans.Keys == live;
    }

    // ---------------------------------------------------------- carve and split

    method Carve(s: SpanId, n: nat) returns (ghost t: SpanId)
      requires Valid() && s in spans && spans[s].Free() && 0 < n <= spans[s].length
      modifies this
      ensures t !in old(spans) && View() == PageHeapOps.Carve(old(View()), s, n, t)
      ensures Valid() && systemTaken >= old(systemTaken)
      ensures scavengeCounter == old(scavengeCounter) && releaseIndex == old(releaseIndex)
    {
      hide Inv, InvX, IdsOk, Attach, CutAt, Detach;
      ghost var h := View();
      FreeClassless(h, s);
      var was := spans[s];
      RemoveFromFreeList(s);
      Relocate(s, InUse);
      if was.length > n {
        var leftover := CutSpan(s, n, was.location);
        t := leftover;
        PrependToFreeList(leftover);
      } else {
        t := bump;
        BumpFresh(spans.Keys, recycled, bump);
      }
      CarveKeeps(h, s, n, t);
    }

    method Split(s: SpanId, n: nat) returns (leftover: SpanId)
      requires Valid() && s in spans && 0 < n < spans[s].length
      requires spans[s].location == InUse && spans[s].sizeclass == 0
      modifies this
      ensures leftover !in old(spans) && View() == CutAt(old(View()), s, n, leftover, InUse)
      ensures Valid() && systemTaken >= old(systemTaken)
      ensures Client(spans) == old(Client(spans))[s := spans[s]][leftover := spans[leftover]]
      ensures spans[s] == Span(old(spans[s].start), n, InUse, 0)
      ensures spans[leftover] == Span(old(spans[s].start) + n, old(spans[s].length) - n, InUse, 0)
    {
      hide Inv, InvX, IdsOk;
      ghost var h := View();
      leftover := CutSpan(s, n, InUse);
      SplitKeeps(h, s, n, leftover);
    }

    // --------------------------------------------------------------- coalescing

    method MergePreceding(s: SpanId)
      requires InvX(View(), {s}) && s in spans && spans[s].Free() && IdsOk(spans.Keys, recycled, bump)
      modifies this`spans, this`pagemap, this`normal, this`returned, this`freeBytes, this`unmappedBytes, this`owner,
               this`recycled
      ensures View() == MergeLeft(old(View()), s) && IdsOk(spans.Keys, recycled, bump)
    {
      hide InvX, IdsOk, Detach, AbsorbPrev;
      Tags(View(), s);
      var p := spans[s].start;
      if p - 1 in pagemap {
        var prev := pagemap[p - 1];
        if spans[prev].location == spans[s].location {
          RemoveFromFreeList(prev);
          Absorb(s, prev);
        }
      }
    }

    method MergeFollowing(s: SpanId)
      requires InvX(View(), {s}) && s in spans && spans[s].Free() && IdsOk(spans.Keys, recycled, bump)
      modifies this`spans, this`pagemap, this`normal, this`returned, this`freeBytes, this`unmappedBytes, this`owner,
               this`recycled
      ensures View() == MergeRight(old(View()), s) && IdsOk(spans.Keys, recycled, bump)
    {
      hide InvX, IdsOk, Detach, AbsorbNext;
      Tags(View(), s);
      var e := spans[s].start + spans[s].length;
      if e in pagemap {
        var next := pagemap[e];
        if spans[next].location == spans[s].location {
          RemoveFromFreeList(next);
          Absorb(s, next);
        }
      }
    }

    method MergeIntoFreeList(s: SpanId)
      requires InvX(View(), {s}) && s in spans && spans[s].Free() && IdsOk(spans.Keys, recycled, bump)
      modifies this`spans, this`pagemap, this`normal, this`returned, this`freeBytes, this`unmappedBytes, this`owner,
               this`recycled
      ensures View() == Merge(old(View()), s) && Inv(View()) && IdsOk(spans.Keys, recycled, bump)
    {
      hide InvX, IdsOk, MergeLeft, MergeRight, Attach;
      ghost var h := View();
      MergeKeeps(h, s);
      MergeLeftKeeps(h, s);
      MergePreceding(s);
      MergeRightKeeps(View(), s);
      MergeFollowing(s);
      Tags(View(), s);
      PrependToFreeList(s);
    }

    // ------------------------------------------------------------------ release

    /** TCMalloc_SystemRelease: arbitrary, unless the platform supports it. */
    method SystemRelease() returns (ok: bool)
      ensures releaseWorks ==> ok
    {
      ok := *;
      ok := ok || releaseWorks;
    }

    method ReleaseLastNormalSpan(i: nat) returns (n: nat)
      requires Valid() && i <= MAX_PAGES && normal[i] != []
      modifies this`spans, this`pagemap, this`normal, this`returned, this`freeBytes, this`unmappedBytes, this`owner,
               this`recycled
      ensures Valid() && ReleaseOnly(old(View()), View())
      ensures Bytes(n) == unmappedBytes - old(unmappedBytes) == old(freeBytes) - freeBytes
      ensures releaseWorks ==> n > 0
      ensures n == 0 ==> View() == old(View())
      ensures var s := old(normal[i][|normal[i]| - 1]);
        s in old(spans) && (n > 0 ==> n == old(spans)[s].length && View() == Return(old(View()), s))
    {
      hide Inv, InvX, IdsOk, Detach, Merge, ReleaseOnly;
      ghost var h := View();
      FreeShape(h);
      ListedSpan(h, Normal, i, |normal[i]| - 1);
      var s := normal[i][|normal[i]| - 1];
      var ok := SystemRelease();
      if ok {
        n := spans[s].length;
        ReleaseOnlyReturn(h, h, s);
        ReturnTransit(h, s);
        RemoveFromFreeList(s);
        Relocate(s, Returned);
        MergeIntoFreeList(s);
      } else {
        n := 0;
      }
    }

    /** One step of the round robin: release the last normal span of the list at
        the release index, if that list has one, and move the index on. */
    method VisitNextList() returns (len: nat, refused: bool)
      requires Valid()
      modifies this`spans, this`pagemap, this`normal, this`returned, this`freeBytes, this`unmappedBytes, this`owner,
               this`recycled, this`releaseIndex
      ensures Valid() && ReleaseOnly(old(View()), View())
      ensures Bytes(len) == unmappedBytes - old(unmappedBytes) == old(freeBytes) - freeBytes
      ensures len > 0 ==> exists s :: s in old(spans) && old(spans)[s].location == Normal && len == old(spans)[s].length
      ensures refused ==> !releaseWorks && View() == old(View())
      ensures !refused ==> releaseIndex == Wrap(old(releaseIndex)) + 1
      ensures !refused && len == 0 ==>
        View() == old(View()) && Wrap(old(releaseIndex)) < |normal| && normal[Wrap(old(releaseIndex))] == []
    {
      hide Inv, InvX, IdsOk, ReleaseOnly, Return;
      FreeShape(View());
      len, refused := 0, false;
      if releaseIndex > MAX_PAGES {
        releaseIndex := 0;
      }
      if normal[releaseIndex] != [] {
        ListedSpan(View(), Normal, releaseIndex, |normal[releaseIndex]| - 1);
        len := ReleaseLastNormalSpan(releaseIndex);
        if len == 0 {
          return 0, true;
        }
      }
      releaseIndex := releaseIndex + 1;
    }

    /** One pass of ReleaseAtLeastNPages over all lists, `sofar` pages having been
        released before it.  A pass that is neither stopped by a refusal nor done
        releases something, or there was nothing to release. */
    method ReleaseRound(num: nat, sofar: nat) returns (released: nat, refused: bool)
      requires Valid()
      modifies this`spans, this`pagemap, this`normal, this`returned, this`freeBytes, this`unmappedBytes, this`owner,
               this`recycled, this`releaseIndex
      ensures Valid() && ReleaseOnly(old(View()), View())
      ensures Bytes(released - sofar) == unmappedBytes - old(unmappedBytes) == old(freeBytes) - freeBytes
      ensures released == sofar || Enough(old(spans), released, num)
      ensures refused ==> !releaseWorks
      ensures refused || released >= num || released > sofar || freeBytes == 0
    {
      hide Inv, InvX, IdsOk, ReleaseOnly;
      ghost var h := View();
      FreeShape(h);
      ghost var first := Wrap(releaseIndex);
      released, refused := sofar, false;
      var i := 0;
      while i < MAX_PAGES + 1 && released < num
        invariant i <= MAX_PAGES + 1 && released >= sofar
        invariant Valid() && ReleaseOnly(h, View())
        invariant Bytes(released - sofar) == unmappedBytes - h.unmappedBytes == h.freeBytes - freeBytes
        invariant released == sofar || Enough(h.spans, released, num)
        invariant Wrap(releaseIndex) == Wrap(first + i)
        invariant released == sofar ==> View() == h && forall j :: 0 <= j <= MAX_PAGES && Visited(first, i, j) ==>
          h.normal[j] == []
      {
        ghost var mid := View();
        var len;
        len, refused := VisitNextList();
        ReleaseOnlyTrans(h, mid, View());
        if refused {
          return;
        }
        released := released + len;
        if len > 0 {
          assert Enough(mid.spans, released, num);
          EnoughBefore(h, mid, released, num);
        }
        i := i + 1;
      }
      if released == sofar && released < num {
        NoNormalSpans(h);
      }
    }

    method ReleaseAtLeastNPages(num: nat) returns (released: nat)
      requires Valid()
      modifies this`spans, this`pagemap, this`normal, this`returned, this`freeBytes, this`unmappedBytes, this`owner,
               this`recycled, this`releaseIndex
      ensures Valid() && ReleaseOnly(old(View()), View())
      ensures Bytes(released) == unmappedBytes - old(unmappedBytes) == old(freeBytes) - freeBytes
      ensures releaseWorks ==> released >= num || freeBytes == 0
      ensures Enough(old(spans), released, num) && (num == 0 ==> released == 0)
    {
      hide Inv, InvX, IdsOk, ReleaseOnly, Enough;
      ghost var h := View();
      FreeShape(h);
      released := 0;
      NoneEnough(spans, num);
      while released < num && freeBytes > 0
        invariant Enough(h.spans, released, num) && (num == 0 ==> released == 0)
        invariant Valid() && ReleaseOnly(h, View())
        invariant Bytes(released) == unmappedBytes - h.unmappedBytes == h.freeBytes - freeBytes
        decreases freeBytes
      {
        ghost var mid := View();
        var refused;
        ghost var sofar := released;
        released, refused := ReleaseRound(num, released);
        ReleaseOnlyTrans(h, mid, View());
        if released != sofar {
          EnoughBefore(h, mid, released, num);
        }
        if refused {
          return;
        }
      }
      CountersNatural(View());
    }

    // ---------------------------------------------------------------- heap limit

    /** Pages taken from the system and not returned to it. */
    ghost function Taken(): int
      reads this
    {
      systemTaken / 8192 - unmappedBytes / 8192
    }

    /** `n` more pages would stay within the limit. */
    ghost predicate WithinLimit(n: nat)
      reads this
    {
      limitPages == 0 || Taken() + n <= limitPages
    }

    /** The answer is right about the state it leaves behind.  With release, and on a
        platform that supports it, it is yes exactly when giving back every free
        page would make room. */
    method EnsureLimit(n: nat, withRelease: bool) returns (ok: bool)
      requires Valid()
      modifies this`spans, this`pagemap, this`normal, this`returned, this`freeBytes, this`unmappedBytes, this`owner,
               this`recycled, this`releaseIndex
      ensures Valid() && ReleaseOnly(old(View()), View()) && unmappedBytes >= old(unmappedBytes)
      ensures ok <==> WithinLimit(n)
      ensures !withRelease || limitPages == 0 || old(WithinLimit(n)) ==> View() == old(View())
      ensures withRelease && releaseWorks ==>
        (ok <==> limitPages == 0 || old(Taken() - freeBytes / 8192) + n <= limitPages)
      ensures Enough(old(spans), (unmappedBytes - old(unmappedBytes)) / 8192, old(Taken()) + n - limitPages)
    {
      hide Inv, InvX, IdsOk, ReleaseOnly, Enough;
      NoneEnough(spans, old(Taken()) + n - limitPages);
      FreeShape(View());
      if limitPages == 0 {
        return true;
      }
      CountersNatural(View());
      var takenPages := systemTaken / 8192;
      takenPages := takenPages - unmappedBytes / 8192;
      if takenPages + n > limitPages && withRelease {
        var released := ReleaseAtLeastNPages(takenPages + n - limitPages);
        takenPages := takenPages - released;
      }
      CountersNatural(View());
      ok := takenPages + n <= limitPages;
    }

    // -------------------------------------------------------------------- Delete

    method IncrementalScavenge(n: nat)
      requires Valid()
      modifies this`spans, this`pagemap, this`normal, this`returned, this`freeBytes, this`unmappedBytes, this`owner,
               this`recycled, this`releaseIndex, this`scavengeCounter
      ensures Valid() && ReleaseOnly(old(View()), View())
      ensures old(scavengeCounter) >= n ==> View() == old(View()) && scavengeCounter == old(scavengeCounter) - n
      ensures old(scavengeCounter) < n ==>
        scavengeCounter == Delay(rate, (unmappedBytes - old(unmappedBytes)) / 8192)
      ensures old(scavengeCounter) < n && rate <= 0.000001 ==> View() == old(View())
      ensures old(scavengeCounter) < n && rate > 0.000001 && releaseWorks ==>
        unmappedBytes > old(unmappedBytes) || freeBytes == 0
      ensures Enough(old(spans), (unmappedBytes - old(unmappedBytes)) / 8192, 1)
    {
      hide Inv, InvX, IdsOk, ReleaseOnly, Delay, Enough;
      NoneEnough(spans, 1);
      FreeShape(View());
      NoDelay(rate);
      scavengeCounter := scavengeCounter - n;
      if scavengeCounter >= 0 {
        return;
      }
      if rate <= 0.000001 {
        scavengeCounter := DEFAULT_RELEASE_DELAY;
        return;
      }
      var released := ReleaseAtLeastNPages(1);
      if released == 0 {
        scavengeCounter := DEFAULT_RELEASE_DELAY;
      } else {
        scavengeCounter := Wait(rate, released);
      }
      assert (unmappedBytes - old(unmappedBytes)) / 8192 == released;
    }

    /** How long to wait until memory is returned again. */
    static method Wait(rate: real, released: nat) returns (d: int)
      requires rate > 0.000001 && released > 0
      ensures d == Delay(rate, released)
    {
      var mult := 1000.0 / rate;
      var wait := mult * released as real;
      if wait > MAX_RELEASE_DELAY as real {
        wait := MAX_RELEASE_DELAY as real;
      }
      d := wait.Floor;
    }

    method Delete(s: SpanId)
      requires Valid() && s in spans && spans[s].location == InUse
      modifies this`spans, this`pagemap, this`normal, this`returned, this`freeBytes, this`unmappedBytes, this`owner,
               this`recycled, this`releaseIndex, this`scavengeCounter
      ensures Valid() && ReleaseOnly(PageHeapOps.Delete(old(View()), s), View())
      ensures Client(spans) == old(Client(spans)) - {s}
      ensures owner.Keys == old(owner.Keys) && systemBytes == old(systemBytes)
      ensures freeBytes + unmappedBytes == old(freeBytes + unmappedBytes) + Bytes(old(spans[s].length))
      ensures HasFree(spans, old(spans[s].length))
      ensures old(scavengeCounter) >= old(spans[s].length) || rate <= 0.000001 ==> unmappedBytes == old(unmappedBytes)
    {
      hide Inv, InvX, IdsOk, Merge, Client, HasFree;
      ghost var h := View();
      FreeShape(h);
      DeleteKeeps(h, s, spans[s].length);
      DeleteTransit(h, s);
      var n := spans[s].length;
      Relocate(s, Normal);
      MergeIntoFreeList(s);
      IncrementalScavenge(n);
    }

    // ---------------------------------------------------------------- best fit

    /** The search loop of AllocLarge over one list, starting from `best`. */
    method BestFit(list: seq<SpanId>, n: nat, best: Option<SpanId>) returns (r: Option<SpanId>)
      requires forall k :: 0 <= k < |list| ==> list[k] in spans
      requires best.Some? ==> best.value in spans && spans[best.value].length >= n
      ensures r.Some? ==> r.value in spans && spans[r.value].length >= n && (r == best || r.value in list)
      ensures r.None? ==> best.None?
      ensures forall k :: 0 <= k < |list| && spans[list[k]].length >= n ==>
        r.Some? && !Better(spans[list[k]], spans[r.value])
      ensures best.Some? ==> r == best || Better(spans[r.value], spans[best.value])
    {
      r := best;
      for k := 0 to |list|
        invariant r.Some? ==> r.value in spans && spans[r.value].length >= n && (r == best || r.value in list)
        invariant r.None? ==> best.None?
        invariant forall j :: 0 <= j < k && spans[list[j]].length >= n ==>
          r.Some? && !Better(spans[list[j]], spans[r.value])
        invariant best.Some? ==> r == best || Better(spans[r.value], spans[best.value])
      {
        if spans[list[k]].length >= n && (r.None? || Better(spans[list[k]], spans[r.value])) {
          r := Some(list[k]);
        }
      }
    }

    /** The two scans of AllocLarge; isNormal says that the second one found nothing better. */
    method LargeFit(n: nat) returns (best: Option<SpanId>, isNormal: bool)
      requires Valid()
      ensures if best.Some? then BestLarge(spans, best.value, n) else isNormal && !HasLarge(spans, n)
      ensures best.Some? ==> best.value in spans && spans[best.value].length >= n && spans[best.value].Free()
      ensures best.Some? ==> (isNormal <==> spans[best.value].location == Normal)
      ensures best.None? ==> !HasLargeNormal(spans, n)
      ensures HasLargeNormal(spans, n) ==> freeBytes >= Bytes(n)
    {
      hide Inv, InvX, IdsOk, HasLarge, HasLargeNormal;
      FreeShape(View());
      LargeLists(View());
      var bestNormal := BestFit(normal[MAX_PAGES], n, None);
      best := BestFit(returned[MAX_PAGES], n, bestNormal);
      LargeSearch(View(), n, bestNormal, best);
      isNormal := best == bestNormal;
    }

    /** Carve n pages from a span that the limit lets the heap take: the pages taken and not
        returned stay within it. */
    method CarveFound(s: SpanId, n: nat) returns (ghost t: SpanId)
      requires Valid() && s in spans && spans[s].Free() && 0 < n <= spans[s].length
      requires spans[s].location == Normal || WithinLimit(n)
      modifies this
      ensures Valid() && Served(old(View()), old(View()), View(), Some(s), n, t) && systemTaken >= old(systemTaken)
      ensures old(systemTaken) / 8192 - unmappedBytes / 8192 <= Max(limitPages, old(Taken())) || limitPages == 0
    {
      hide Inv, InvX, IdsOk, ReleaseOnly, PageHeapOps.Carve;
      ghost var h := View();
      FreeShape(h);
      CountersNatural(h);
      t := Carve(s, n);
      CarveCounters(h, s, n, t);
    }

    /** The first try: the best fit is taken unless it is a returned span and the limit
        forbids it. */
    method TryLarge(n: nat) returns (r: Option<SpanId>, done: bool, ghost t: SpanId)
      requires Valid() && n > 0
      modifies this
      ensures Valid()
      ensures done ==> Served(old(View()), old(View()), View(), r, n, t)
      ensures done ==> if r.Some? then BestLarge(old(spans), r.value, n) else !HasLarge(old(spans), n)
      ensures !done ==> View() == old(View()) && r.None? && !WithinLimit(n)
      ensures old(NormalBestLarge(spans, n)) ==> done && r.Some? && old(spans)[r.value].location == Normal
      ensures systemTaken >= old(systemTaken) && (r.None? ==> systemTaken == old(systemTaken))
      ensures old(systemTaken) / 8192 - unmappedBytes / 8192 <= Max(limitPages, old(Taken())) || limitPages == 0
      ensures HasLargeNormal(old(spans), n) ==> r.Some? || (!done && freeBytes >= Bytes(n))
    {
      hide Inv, InvX, IdsOk, ReleaseOnly, HasLarge, HasLargeNormal, BestLarge, PageHeapOps.Carve, NormalBestLarge;
      ghost var h := View();
      t := 0;
      FreeShape(h);
      var best, isNormal := LargeFit(n);
      if NormalBestLarge(h.spans, n) {
        NormalLargeServed(h, best, n);
      }
      if isNormal {
        if best.Some? {
          t := CarveFound(best.value, n);
        }
        return best, true, t;
      }
      var ok := EnsureLimit(n, false);
      if ok {
        t := CarveFound(best.value, n);
        return best, true, t;
      }
      return None, false, t;
    }

    method AllocLarge(n: nat) returns (r: Option<SpanId>, ghost mid: Heap, ghost t: SpanId, ghost retries: nat)
      requires Valid() && n > 0
      modifies this
      ensures Valid() && Served(old(View()), mid, View(), r, n, t)
      ensures old(WithinLimit(n)) ==>
        mid == old(View()) && (if r.Some? then BestLarge(mid.spans, r.value, n) else !HasLarge(mid.spans, n))
      ensures old(NormalBestLarge(spans, n)) ==>
        r.Some? && mid == old(View()) && BestLarge(mid.spans, r.value, n) && mid.spans[r.value].location == Normal
      ensures retries <= (if old(WithinLimit(n)) then 0 else 1)
      ensures systemTaken >= old(systemTaken) && (r.None? ==> systemTaken == old(systemTaken))
      ensures old(systemTaken) / 8192 - unmappedBytes / 8192 <= Max(limitPages, old(Taken())) || limitPages == 0
      ensures r.None? && HasLargeNormal(old(spans), n) ==> !releaseWorks || old(Taken()) > limitPages
      decreases if WithinLimit(n) then 0 else 1
    {
      hide Inv, InvX, IdsOk, ReleaseOnly, HasLarge, HasLargeNormal, BestLarge, PageHeapOps.Carve, NormalBestLarge;
      ghost var h := View();
      FreeShape(h);
      CountersNatural(h);
      var done;
      r, done, t := TryLarge(n);
      if done {
        return r, h, t, 0;
      }
      var ok := EnsureLimit(n, true);
      ghost var h1 := View();
      if ok {
        r, mid, t, retries := AllocLarge(n);
        ServedTrans(h, h1, mid, View(), r, n, t);
        LargeStays(h, h1, n);
        return r, mid, t, retries + 1;
      }
      return None, View(), 0, 0;
    }

    /** One round of the search: the two lists of spans of s pages. */
    method TryLists(n: nat, s: nat) returns (r: Option<SpanId>, ghost mid: Heap, ghost t: SpanId)
      requires Valid() && 0 < n <= s < MAX_PAGES
      modifies this
      ensures Valid() && Served(old(View()), mid, View(), r, n, t)
      ensures r.None? ==> systemTaken == old(systemTaken) && unmappedBytes >= old(unmappedBytes)
      ensures r.Some? ==> mid.spans[r.value].length == s
      ensures s < |old(normal)| && (old(normal[s]) != [] ==> r == Some(old(normal[s][0])) && mid == old(View()))
      ensures r.Some? && old(normal[s]) != [] ==> mid.spans[r.value].location == Normal
      ensures s < |old(returned)| && (old(normal[s]) == old(returned[s]) == [] ==> r.None? && mid == old(View()))
      ensures old(WithinLimit(n)) ==>
        mid == old(View()) &&
          (r.None? ==> s < |mid.normal| == |mid.returned| && mid.normal[s] == [] && mid.returned[s] == [])
      ensures systemTaken >= old(systemTaken)
      ensures old(systemTaken) / 8192 - unmappedBytes / 8192 <= Max(limitPages, old(Taken())) || limitPages == 0
    {
      hide Inv, InvX, IdsOk, ReleaseOnly, HasFree, PageHeapOps.Carve;
      mid := View();
      ReleaseOnlySame(mid);
      FreeShape(mid);
      r, t := None, 0;
      if normal[s] != [] {
        ListedSpan(mid, Normal, s, 0);
        r := Some(normal[s][0]);
        t := CarveFound(normal[s][0], n);
        return;
      }
      if returned[s] != [] {
        var ok := EnsureLimit(n, true);
        ghost var h := mid;
        mid := View();
        FreeShape(mid);
        if ok && returned[s] != [] {
          ListedSpan(mid, Returned, s, 0);
          r := Some(returned[s][0]);
          t := CarveFound(returned[s][0], n);
          ServedTrans(h, mid, mid, View(), r, n, t);
        }
      }
    }

    method SearchFreeAndLargeLists(n: nat) returns (r: Option<SpanId>, ghost mid: Heap, ghost t: SpanId)
      requires Valid() && n > 0
      modifies this
      ensures Valid() && Served(old(View()), mid, View(), r, n, t)
      ensures old(WithinLimit(n)) ==>
        mid == old(View()) && (if r.Some? then BestFree(mid.spans, r.value, n) else !HasFree(mid.spans, n))
      ensures old(NormalBest(spans, n)) ==>
        r.Some? && mid == old(View()) && BestFree(mid.spans, r.value, n) && mid.spans[r.value].location == Normal
      ensures systemTaken >= old(systemTaken) && (r.None? ==> systemTaken == old(systemTaken))
      ensures old(systemTaken) / 8192 - unmappedBytes / 8192 <= Max(limitPages, old(Taken())) || limitPages == 0
    {
      hide Inv, InvX, IdsOk, ReleaseOnly, HasFree, BestFree, PageHeapOps.Carve, NormalBest;
      ghost var h := View();
      FreeShape(h);
      CountersNatural(h);
      var s := n;
      while s < MAX_PAGES
        invariant n <= s && (s <= MAX_PAGES || s == n)
        invariant Valid() && ReleaseOnly(h, View())
        invariant systemTaken == old(systemTaken) && unmappedBytes >= h.unmappedBytes
        invariant old(WithinLimit(n)) || NormalBest(h.spans, n) ==> View() == h && forall i :: n <= i < s ==>
          h.normal[i] == [] && h.returned[i] == []
      {
        ghost var before := View();
        if NormalBest(h.spans, n) {
          NormalFirst(h, n, s);
        }
        r, mid, t := TryLists(n, s);
        ServedTrans(h, before, mid, View(), r, n, t);
        if r.Some? {
          if old(WithinLimit(n)) || NormalBest(h.spans, n) {
            FirstFit(h, r.value, n, s);
          }
          return;
        }
        s := s + 1;
      }
      ghost var h1 := View();
      ghost var retries;
      if NormalBest(h.spans, n) {
        NormalLarge(h, n);
      }
      r, mid, t, retries := AllocLarge(n);
      ServedTrans(h, h1, mid, View(), r, n, t);
      if old(WithinLimit(n)) || NormalBest(h.spans, n) {
        OnlyLarge(h, n, r);
      }
    }

    // ---------------------------------------------------------------- growth

    /** TCMalloc_SystemAlloc: a fresh run of at least `ask` pages, or nothing. */
    method SystemAlloc(ask: nat) returns (r: Option<(nat, nat)>)
      requires Partition(spans, owner) && ask > 0
      modifies this`systemTaken, os`asked
      ensures os.asked == old(os.asked) + 1
      ensures r == if os.Grants(old(os.asked), ask, owner.Keys) then os.grants(old(os.asked)) else None
      ensures r.Some? ==> systemTaken >= old(systemTaken) + Bytes(r.value.1)
      ensures r.None? ==> systemTaken == old(systemTaken)
    {
      r := os.grants(os.asked);
      os.asked := os.asked + 1;
      if r.Some? {
        var start, pages := r.value.0, r.value.1;
        if pages >= ask {
          RunApart(spans, owner, start, pages);
        }
        if start > 0 && pages >= ask && forall s :: s in spans ==>
          spans[s].start + spans[s].length <= start || start + pages <= spans[s].start {
          var odd: int := *;
          systemTaken := systemTaken + Bytes(pages) + (if 0 < odd < 8192 then odd else 0);
        } else {
          r := None;
        }
      }
    }

    /** The run as one span in use. */
    method AddSpan(p: nat, n: nat) returns (s: SpanId)
      requires Inv(View()) && IdsOk(spans.Keys, recycled, bump) && releaseIndex <= MAX_PAGES + 1
      requires p > 0 && n > 0 && Unmanaged(owner, p, n) && systemTaken >= systemBytes + Bytes(n)
      modifies this`spans, this`recycled, this`bump, this`systemTaken, this`systemBytes, this`pagemap, this`owner
      ensures Valid() && s !in old(spans) && View() == AddRun(old(View()), p, n, s)
      ensures systemTaken >= old(systemTaken)
    {
      hide Inv, InvX, IdsOk, PutRange;
      ghost var h := View();
      systemBytes := systemBytes + Bytes(n);
      s := NewSpan(p, n, InUse);
      RecordSpan(s);
      owner := PutRange(owner, p, n, s);
      AddRunKeeps(h, p, n, s);
      assert View() == AddRun(h, p, n, s);
    }

    /** Take over a fresh run: pretend it is allocated, then delete it so that it
        coalesces with whatever is next to it. */
    method Adopt(p: nat, n: nat)
      requires Inv(View()) && IdsOk(spans.Keys, recycled, bump) && releaseIndex <= MAX_PAGES + 1
      requires p > 0 && n > 0 && Unmanaged(owner, p, n) && systemTaken >= systemBytes + Bytes(n)
      modifies this
      ensures Valid() && Client(spans) == old(Client(spans)) && HasFree(spans, n)
      ensures old(owner.Keys) < owner.Keys && forall q :: q in owner <==> q in old(owner) || InRun((p, n), q)
      ensures systemTaken >= old(systemTaken)
      ensures systemBytes == old(systemBytes) + Bytes(n)
    {
      hide Inv, InvX, IdsOk, PutRange, HasFree, ReleaseOnly;
      ghost var h := View();
      var s := AddSpan(p, n);
      AddRunClient(h.spans, Span(p, n, InUse, 0), s);
      AddRunGrows(h.owner, p, n, s);
      hide Client, PageHeapOps.Delete;
      Delete(s);
    }

    /** The heap limit leaves room for n more pages when so many bytes are taken and unmapped. */
    ghost predicate Allows(taken: nat, unmapped: int, n: nat) {
      limitPages == 0 || taken / 8192 - unmapped / 8192 + n <= limitPages
    }

    /** It would leave room if every free page were returned. */
    ghost predicate CouldAllow(n: nat)
      reads this
    {
      limitPages == 0 || Taken() - freeBytes / 8192 + n <= limitPages
    }

    /** What the two requests yield when u and then v bytes are unmapped. */
    ghost function Obtained(k: nat, n: nat, managed: set<nat>, taken: nat, u: int, v: int): Option<(nat, nat)> {
      os.Yield(k, n, managed, Allows(taken, u, Most(n)), Allows(taken, v, n))
    }

    /** Ask for `ask` pages, unless the heap limit forbids it. */
    method AskSystem(ask: nat) returns (run: Option<(nat, nat)>)
      requires Valid() && ask > 0
      modifies this, os`asked
      ensures Valid() && ReleaseOnly(old(View()), View()) && owner.Keys == old(owner.Keys)
      ensures unmappedBytes >= old(unmappedBytes) && freeBytes + unmappedBytes == old(freeBytes + unmappedBytes)
      ensures limitPages == 0 || old(WithinLimit(ask)) ==> View() == old(View())
      ensures var allowed := Allows(old(systemTaken), unmappedBytes, ask);
        && os.asked == old(os.asked) + (if allowed then 1 else 0)
        && run == (if allowed && os.Grants(old(os.asked), ask, owner.Keys) then os.grants(old(os.asked)) else None)
        && (releaseWorks ==> (allowed <==> old(CouldAllow(ask))))
      ensures run.None? ==> systemTaken == old(systemTaken)
      ensures run.Some? ==> systemTaken >= old(systemTaken) + Bytes(run.value.1)
    {
      hide Inv, InvX, IdsOk, ReleaseOnly, Partition, System.Grants;
      run := None;
      var allowed := EnsureLimit(ask, true);
      ReleaseOnlyPages(old(View()), View());
      if allowed {
        InvPartition(View());
        run := SystemAlloc(ask);
      }
    }

    /** The asking part of GrowHeap: first for the system minimum, then for `n`.  `u` bytes
        were unmapped when the limit was asked the first time. */
    method ObtainRun(n: nat) returns (run: Option<(nat, nat)>, ghost u: int)
      requires Valid() && n > 0
      modifies this, os`asked
      ensures Valid() && ReleaseOnly(old(View()), View()) && (limitPages == 0 ==> View() == old(View()))
      ensures old(unmappedBytes) <= u <= unmappedBytes
      ensures owner.Keys == old(owner.Keys)
      ensures run == Obtained(old(os.asked), n, owner.Keys, old(systemTaken), u, unmappedBytes)
      ensures releaseWorks ==> (Allows(old(systemTaken), u, Most(n)) <==> old(CouldAllow(Most(n))))
      ensures releaseWorks ==> (Allows(old(systemTaken), unmappedBytes, n) <==> old(CouldAllow(n)))
      ensures systemTaken >= old(systemTaken) + (if run.Some? then Bytes(run.value.1) else 0)
    {
      hide Inv, InvX, IdsOk, ReleaseOnly, System.Grants;
      ghost var h := View();
      CountersNatural(h);
      var ask := if n > MIN_SYSTEM_ALLOC then n else MIN_SYSTEM_ALLOC;
      run := AskSystem(ask);
      u := unmappedBytes;
      CountersNatural(View());
      ghost var managed := owner.Keys;
      if os.Grants(old(os.asked), Most(n), managed) {
        GrantedSome(os, old(os.asked), Most(n), managed);
      }
      if run.None? && n < ask {
        ghost var mid := View();
        run := AskSystem(n);
        ReleaseOnlyTrans(h, mid, View());
      }
    }

    /** A granted run is added if the page map has room for it, and counted as lost if not. */
    method AdoptOrLose(p: nat, n: nat) returns (ok: bool)
      requires Valid() && p > 0 && n > 0 && Unmanaged(owner, p, n) && systemTaken >= systemBytes + Bytes(n)
      modifies this, os`added
      ensures Valid() && Client(spans) == old(Client(spans)) && ok == os.room(old(os.added))
      ensures systemBytes == old(systemBytes) + Bytes(n) && systemTaken >= old(systemTaken)
      ensures ok ==> HasFree(spans, n) && old(owner.Keys) < owner.Keys
      ensures forall q :: q in owner <==> q in old(owner) || (ok && InRun((p, n), q))
      ensures !ok ==> spans == old(spans) && owner == old(owner)
    {
      hide Inv, InvX, IdsOk, HasFree, Client, Unmanaged;
      ok := os.room(os.added);
      os.added := os.added + 1;
      if ok {
        Adopt(p, n);
      } else {
        LoseKeeps(View(), n);
        systemBytes := systemBytes + Bytes(n);
        lost := lost + n;
      }
    }

    /** The number is valid, a request that the limit allows once every free page is
        returned would be granted, and the page map has room. */
    ghost predicate CanGrow(n: nat)
      reads this, os
    {
      && n <= MAX_VALID_PAGES && os.room(os.added)
      && os.Yield(os.asked, n, owner.Keys, CouldAllow(Most(n)), CouldAllow(n)).Some?
    }

    /** Whether the limit allows a request does not hang on refused releases. */
    ghost predicate Foreseen(n: nat)
      reads this
    {
      limitPages == 0 || releaseWorks || WithinLimit(Most(n))
    }

    /** It succeeds exactly when the number is valid, the limit allowed a request that was
        granted, and the page map had room.  `u` and `v` bytes were unmapped when the limit
        was asked. */
    method GrowHeap(n: nat) returns (ok: bool, ghost u: int, ghost v: int)
      requires Valid() && n > 0
      modifies this, os`asked, os`added
      ensures Valid() && Client(spans) == old(Client(spans))
      ensures old(owner.Keys) <= owner.Keys && systemTaken >= old(systemTaken)
      ensures ok ==> HasFree(spans, n) && old(owner.Keys) < owner.Keys
      ensures !ok ==> owner.Keys == old(owner.Keys)
      ensures !ok && limitPages == 0 ==> spans == old(spans) && owner == old(owner)
      ensures old(unmappedBytes) <= u <= v
      ensures ok <==>
        && n <= MAX_VALID_PAGES && os.room(old(os.added))
        && Obtained(old(os.asked), n, old(owner.Keys), old(systemTaken), u, v).Some?
      ensures releaseWorks && n <= MAX_VALID_PAGES ==>
        (Allows(old(systemTaken), u, Most(n)) <==> old(CouldAllow(Most(n))))
      ensures releaseWorks && n <= MAX_VALID_PAGES ==> (Allows(old(systemTaken), v, n) <==> old(CouldAllow(n)))
      ensures old(Foreseen(n)) ==> (ok <==> old(CanGrow(n)))
      ensures n > MAX_VALID_PAGES ==> View() == old(View())
      ensures n <= MAX_VALID_PAGES ==>
        var run := Obtained(old(os.asked), n, old(owner.Keys), old(systemTaken), u, v);
        && systemBytes == old(systemBytes) + (if run.Some? then Bytes(run.value.1) else 0)
        && forall p :: p in owner <==> p in old(owner) || (ok && run.Some? && InRun(run.value, p))
    {
      hide Inv, InvX, IdsOk, HasFree, Client, System.Grants, ReleaseOnly;
      CountersNatural(View());
      u, v := unmappedBytes, unmappedBytes;
      if n > MAX_VALID_PAGES {
        return false, u, v;
      }
      var run;
      run, u := ObtainRun(n);
      v := unmappedBytes;
      ReleaseOnlyPages(old(View()), View());
      if run.None? {
        return false, u, v;
      }
      GrantedRun(os, old(os.asked), n, owner, run.value, Allows(old(systemTaken), u, Most(n)),
                 Allows(old(systemTaken), v, n));
      ok := AdoptOrLose(run.value.0, run.value.1);
      if ok {
        FreeShorter(spans, run.value.1, n);
      }
    }

    // ----------------------------------------------------------------------- New

    /** Releasing pages does not change whether the heap can grow. */
    lemma GrowthForeseen(h: Heap, taken: nat, n: nat)
      requires Inv(h) && Inv(View()) && ReleaseOnly(h, View()) && systemTaken == taken
      ensures forall k :: Allows(taken, h.unmappedBytes, k) ==> WithinLimit(k)
      ensures forall k :: CouldAllow(k) <==>
        limitPages == 0 || taken / 8192 - h.unmappedBytes / 8192 - h.freeBytes / 8192 + k <= limitPages
    {
      hide Inv, HasFree, Client;
      CountersNatural(h);
      CountersNatural(View());
    }

    /** New when no free span serves: grow the heap and search once more.  If that fails
        although the heap grew, the limit forbids the best fit of the state `mid`. */
    method GrowAndSearch(n: nat) returns (r: Option<SpanId>, ghost mid: Heap, ghost t: SpanId)
      requires Valid() && n > 0
      modifies this, os`asked, os`added
      ensures Valid() && Allocated(old(Client(spans)), spans, r, n)
      ensures old(owner.Keys) <= owner.Keys && systemTaken >= old(systemTaken)
      ensures r.Some? ==> Carved(mid, View(), r.value, n, t) && Client(mid.spans) == old(Client(spans))
      ensures old(Foreseen(n)) ==> (owner.Keys != old(owner.Keys) <==> old(CanGrow(n)))
      ensures r.None? && owner.Keys != old(owner.Keys) ==> Forbidden(mid, n)
      ensures owner.Keys == old(owner.Keys) ==> r.None? || limitPages > 0
      ensures limitPages == 0 && r.Some? ==> BestFree(mid.spans, r.value, n)
      ensures limitPages == 0 && r.None? ==> spans == old(spans) && owner == old(owner)
    {
      hide Inv, InvX, IdsOk, HasFree, Client, PageHeapOps.Carve, Served, BestFree, ReleaseOnly, Carved, NormalBest,
           CanGrow, CouldAllow;
      mid, t := View(), 0;
      ghost var u, v;
      var ok;
      ok, u, v := GrowHeap(n);
      if !ok {
        return None, mid, t;
      }
      ghost var h := View();
      r, mid, t := SearchFreeAndLargeLists(n);
      ServedClient(h, mid, View(), r, n, t);
      if r.None? {
        mid := h;
      }
    }

    /** Of the free spans of h that are long enough the best is a returned one, and taking
        it would exceed the limit. */
    ghost predicate Forbidden(h: Heap, n: nat)
      reads this
    {
      && HasFree(h.spans, n) && !NormalBest(h.spans, n) && !Allows(systemTaken, h.unmappedBytes, n)
      && h.owner.Keys == owner.Keys && ReleaseOnly(h, View())
    }

    /** New without growing: search, and if the heap has grown past the next interval with
        much of it free, return every free page so that neighbours merge, and search again. */
    method SearchTwice(n: nat) returns (r: Option<SpanId>, ghost mid: Heap, ghost t: SpanId)
      requires Valid() && n > 0
      modifies this
      ensures Valid() && Served(old(View()), mid, View(), r, n, t)
      ensures systemTaken >= old(systemTaken) && (r.None? ==> systemTaken == old(systemTaken))
      ensures old(WithinLimit(n)) && old(HasFree(spans, n)) ==>
        r.Some? && mid == old(View()) && BestFree(mid.spans, r.value, n)
      ensures old(NormalBest(spans, n)) ==>
        r.Some? && mid == old(View()) && BestFree(mid.spans, r.value, n) && mid.spans[r.value].location == Normal
      ensures limitPages == 0 ==> if r.Some? then BestFree(mid.spans, r.value, n) else !HasFree(spans, n)
      ensures limitPages == 0 && !old(HasFree(spans, n)) && !old(ForcesRelease(View(), n)) ==>
        r.None? && View() == old(View())
      ensures limitPages == 0 && r.None? && releaseWorks && old(ForcesRelease(View(), n))
              && old(freeBytes) < Bytes(0x7fff_ffff) ==>
        forall lo :: !FreeRun(View(), lo, n)
    {
      hide Inv, InvX, IdsOk, HasFree, Client, PageHeapOps.Carve, FreeRun, BestFree, ReleaseOnly, NormalBest;
      ghost var h := View();
      FreeShape(h);
      r, mid, t := SearchFreeAndLargeLists(n);
      if r.Some? {
        if limitPages == 0 {
          BestIsFree(h.spans, r.value, n);
        }
        return;
      }
      ghost var h1 := View();
      if freeBytes != 0 && unmappedBytes != 0 && freeBytes + unmappedBytes >= systemBytes / 4
         && systemBytes / COALESCE_INTERVAL != (systemBytes + Bytes(n)) / COALESCE_INTERVAL
      {
        var released := ReleaseAtLeastNPages(0x7fff_ffff);
        ghost var h2 := View();
        ReleaseOnlyTrans(h, h1, h2);
        CountersNatural(h2);
        r, mid, t := SearchFreeAndLargeLists(n);
        ServedTrans(h, h2, mid, View(), r, n, t);
        if r.None? && limitPages == 0 && freeBytes == 0 {
          FreeRunIffSpan(View(), n);
        }
      }
    }

    /** `before` is the state from which New asked the system for more memory, if it
        did, and `mid` the one in which the span was found. */
    method New(n: nat) returns (r: Option<SpanId>, ghost before: Option<Heap>, ghost mid: Heap, ghost t: SpanId)
      requires Valid() && n > 0
      modifies this, os`asked, os`added
      ensures Valid() && Allocated(old(Client(spans)), spans, r, n)
      ensures old(owner.Keys) <= owner.Keys && systemTaken >= old(systemTaken)
      ensures before.None? ==> r.Some? && owner.Keys == old(owner.Keys)
      ensures before.Some? ==> Inv(before.value) && ReleaseOnly(old(View()), before.value)
      ensures r.Some? ==> Carved(mid, View(), r.value, n, t) && Client(mid.spans) == old(Client(spans))
      ensures limitPages == 0 && r.Some? ==> BestFree(mid.spans, r.value, n)
      ensures old(WithinLimit(n)) && old(HasFree(spans, n)) ==>
        r.Some? && before.None? && mid == old(View()) && BestFree(mid.spans, r.value, n)
      ensures old(NormalBest(spans, n)) ==>
        r.Some? && before.None? && mid == old(View()) && BestFree(mid.spans, r.value, n)
        && mid.spans[r.value].location == Normal
      ensures limitPages == 0 && before.Some? ==>
        !HasFree(before.value.spans, n) && (r.Some? <==> owner.Keys != old(owner.Keys))
      ensures limitPages == 0 && !old(HasFree(spans, n)) && !old(ForcesRelease(View(), n)) ==>
        before == Some(old(View()))
      ensures before.Some? && old(Foreseen(n)) ==> (owner.Keys != old(owner.Keys) <==> old(CanGrow(n)))
      ensures limitPages == 0 && (old(HasFree(spans, n)) || old(CanGrow(n))) ==> r.Some?
      ensures r.None? && owner.Keys != old(owner.Keys) ==> Forbidden(mid, n)
      ensures limitPages == 0 && r.None? ==> !HasFree(spans, n) && owner.Keys == old(owner.Keys)
      ensures limitPages == 0 && before.Some? && releaseWorks && old(ForcesRelease(View(), n))
              && old(freeBytes) < Bytes(0x7fff_ffff) ==>
        forall lo :: !FreeRun(before.value, lo, n) && (r.None? ==> !FreeRun(View(), lo, n))
    {
      hide Inv, InvX, IdsOk, HasFree, Client, PageHeapOps.Carve, Served, FreeRun, BestFree, ReleaseOnly, Carved,
           NormalBest, ForcesRelease;
      ghost var h := View();
      before := None;
      r, mid, t := SearchTwice(n);
      ServedClient(h, mid, View(), r, n, t);
      if r.Some? {
        return;
      }
      before := Some(View());
      GrowthForeseen(h, old(systemTaken), n);
      r, mid, t := GrowAndSearch(n);
      if limitPages == 0 && r.None? {
        SameFreeRuns(before.value, View(), n);
      }
    }

    // -------------------------------------------------------------- size classes

    /** Write `s` for the `inner` pages from `p`, one by one. */
    method RecordInner(s: SpanId, p: nat, inner: nat)
      modifies this`pagemap
      ensures pagemap == PutRange(old(pagemap), p, inner, s)
    {
      hide PutRange;
      ghost var m := pagemap;
      PutNothing(pagemap, p, s);
      for i := 0 to inner
        invariant pagemap == PutRange(m, p, i, s)
      {
        PutOneMore(m, p, i, s);
        pagemap := pagemap[p + i := s];
      }
    }

    method RegisterSizeClass(s: SpanId, sc: nat)
      requires Valid() && s in spans && spans[s].location == InUse
      modifies this`spans, this`pagemap
      ensures Valid() && View() == Register(old(View()), s, sc)
      ensures Client(spans) == old(Client(spans))[s := spans[s]] && spans[s] == old(spans[s]).(sizeclass := sc)
      ensures forall p :: spans[s].Covers(p) ==> p in pagemap && pagemap[p] == s
    {
      hide Inv, InvX, PutRange, IdsOk;
      ghost var h := View();
      Ends(h, s);
      RegisterKeeps(h, s, sc);
      var d := spans[s];
      spans := spans[s := d.(sizeclass := sc)];
      assert spans.Keys == h.spans.Keys;
      var inner := if d.length < 2 then 0 else d.length - 2;
      RecordInner(s, d.start + 1, inner);
      PutWhole(h.pagemap, d.start, d.length, inner, s);
    }
  }
}
