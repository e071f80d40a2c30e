/** The parts of tcmalloc that drive the page heap: page-aligned allocation and the
    walk over all spans. */
module PageHeapClients {
  import opened Options
  import opened Arithmetic
  import opened Sequences
  import opened PageHeapState
  import opened PageHeapOps
  import opened PageHeapClass
  import opened PageMap
  import opened PageMapThree

  // ------------------------------------------------------------- do_memalign

  /** Bytes to pages, rounding up. */
  function Pages(bytes: nat): (n: nat)
    ensures bytes <= Bytes(n) < bytes + 8192
  {
    bytes / 8192 + (if bytes % 8192 > 0 then 1 else 0)
  }

  /** The pages that are asked for: a run with room for the alignment, unless every page
      is aligned. */
  function Needed(align: nat, size: nat): (n: nat)
    ensures if align <= 8192 then size <= Bytes(n) < size + 8192 else size + align <= Bytes(n) < size + align + 8192
  {
    Pages(if align <= 8192 then size else size + align)
  }

  /** The page heap has a span of n pages or gets one. */
  ghost predicate Available(heap: PageHeap, n: nat)
    reads heap, heap.os
  {
    || (heap.WithinLimit(n) && HasFree(heap.spans, n))
    || NormalBest(heap.spans, n)
    || (heap.limitPages == 0 && heap.CanGrow(n))
  }

  /** The span holds so many bytes, at least one, and less than a page more. */
  ghost predicate Holds(d: Span, size: nat) {
    var bytes := if size == 0 then 1 else size;
    bytes <= Bytes(d.length) < bytes + 8192
  }

  predicate PowerOfTwo(a: nat) {
    a == 1 || (a > 0 && a % 2 == 0 && PowerOfTwo(a / 2))
  }

  lemma {:induction false} PowersDivide(a: nat, b: nat)
    requires PowerOfTwo(a) && PowerOfTwo(b) && a >= b
    ensures exists k: nat :: k > 0 && a == k * b
  {
    if b == 1 {
      assert a == a * 1;
    } else {
      PowersDivide(a / 2, b / 2);
      var k: nat :| k > 0 && a / 2 == k * (b / 2);
      assert a == k * b;
    }
  }

  predicate AlignedPage(page: nat, align: nat)
    requires align > 0
  {
    (page * 8192) % align == 0
  }

  /** How many pages must be skipped from page `start` to reach a multiple of `m`. */
  ghost function Skip(start: nat, m: nat): (k: nat)
    requires m > 0
    ensures k < m
  {
    if start % m == 0 then 0 else m - start % m
  }

  /** Pages and bytes are aligned together. */
  lemma PageMultiple(page: nat, m: nat)
    requires m > 0
    ensures AlignedPage(page, m * 8192) <==> page % m == 0
  {
    var q, r := page / m, page % m;
    DivMod(page, m);
    ScaledSum(q, m, r);
    QuotientRemainder(page * 8192, q, m * 8192, r * 8192);
  }

  lemma ScaledSum(q: nat, m: nat, r: nat)
    ensures (q * m + r) * 8192 == q * (m * 8192) + r * 8192
  {
  }

  lemma AlignedAt(start: nat, m: nat, k: nat)
    requires m > 0 && k <= Skip(start, m)
    ensures AlignedPage(start + k, m * 8192) <==> k == Skip(start, m)
  {
    PageMultiple(start + k, m);
    hide AlignedPage;
    var q, r := start / m, start % m;
    DivMod(start, m);
    if r > 0 {
      if k == m - r {
        Multiple(q + 1, m);
        assert (q + 1) * m == q * m + m;
      } else {
        QuotientRemainder(start + k, q, m, r + k);
      }
    }
  }

  /** The search for an aligned page: it ends, and before `align` bytes are skipped. */
  method FindSkip(start: nat, align: nat) returns (skip: nat)
    requires PowerOfTwo(align) && align > 8192
    ensures AlignedPage(start + skip, align) && skip * 8192 < align
    ensures forall k :: start <= k < start + skip ==> !AlignedPage(k, align)
  {
    hide AlignedPage, Skip;
    PowersDivide(align, 8192);
    ghost var m: nat :| m > 0 && align == m * 8192;
    skip := 0;
    AlignedAt(start, m, 0);
    while !AlignedPage(start + skip, align)
      invariant skip <= Skip(start, m)
      invariant AlignedPage(start + skip, align) <==> skip == Skip(start, m)
      invariant forall k :: start <= k < start + skip ==> !AlignedPage(k, align)
      decreases Skip(start, m) - skip
    {
      skip := skip + 1;
      AlignedAt(start, m, skip);
    }
  }

  lemma SmallAlign(start: nat, align: nat)
    requires PowerOfTwo(align) && align <= 8192
    ensures AlignedPage(start, align)
  {
    PowersDivide(8192, align);
    var k: nat :| k > 0 && 8192 == k * align;
    Multiple(start * k, align);
    MulAssociative(start, k, align);
  }

  /** size_t holds values below 2^64. */
  const WORD: nat := 0x1_0000_0000_0000_0000

  /** do_memalign where no size class serves the request: the sum of size and alignment
      must not wrap, and at least one byte is allocated. */
  method Memalign(heap: PageHeap, align: nat, size: nat) returns (r: Option<SpanId>)
    requires heap.Valid() && PowerOfTwo(align) && size < WORD && align < WORD
    modifies heap, heap.os`asked, heap.os`added
    ensures heap.Valid() && Allocated(old(Client(heap.spans)), heap.spans, r, Pages(if size == 0 then 1 else size))
    ensures r.Some? ==> size + align < WORD && AlignedPage(heap.spans[r.value].start, align)
    ensures r.Some? ==> Holds(heap.spans[r.value], size)
    ensures size + align < WORD && old(Available(heap, Needed(align, if size == 0 then 1 else size))) ==> r.Some?
    ensures size + align >= WORD ==> heap.View() == old(heap.View())
    ensures old(heap.owner.Keys) <= heap.owner.Keys
  {
    hide Inv, InvX, IdsOk, Client, ReleaseOnly, HasFree, FreeRun, ForcesRelease;
    if (size + align) % WORD < size {
      return None;
    }
    r := MemalignPages(heap, align, if size == 0 then 1 else size);
  }

  /** The page path: a run with room to spare, of which the aligned part is kept. */
  method MemalignPages(heap: PageHeap, align: nat, size: nat) returns (r: Option<SpanId>)
    requires heap.Valid() && PowerOfTwo(align) && size > 0
    modifies heap, heap.os`asked, heap.os`added
    ensures heap.Valid() && Allocated(old(Client(heap.spans)), heap.spans, r, Pages(size))
    ensures r.Some? ==> AlignedPage(heap.spans[r.value].start, align) && Holds(heap.spans[r.value], size)
    ensures old(Available(heap, Needed(align, size))) ==> r.Some?
    ensures old(heap.owner.Keys) <= heap.owner.Keys
  {
    hide Inv, InvX, IdsOk, Client, ReleaseOnly, HasFree, FreeRun, ForcesRelease;
    ghost var before, mid, t;
    if align <= 8192 {
      r, before, mid, t := heap.New(Pages(size));
      if r.Some? {
        SmallAlign(heap.spans[r.value].start, align);
      }
      return;
    }
    ghost var client := Client(heap.spans);
    r, before, mid, t := heap.New(Pages(size + align));
    if r.None? {
      return;
    }
    var skip := FindSkip(heap.spans[r.value].start, align);
    PagesSum(size, align, skip);
    var span := DropFront(heap, r.value, skip, client);
    DropBack(heap, span, Pages(size), client);
    r := Some(span);
  }

  lemma PagesSum(size: nat, align: nat, skip: nat)
    requires skip * 8192 < align && PowerOfTwo(align) && align > 8192 && size > 0
    ensures skip + Pages(size) <= Pages(size + align) && Pages(size) > 0
  {
    PowersDivide(align, 8192);
    var m: nat :| m > 0 && align == m * 8192;
  }

  /** Give the first `skip` pages of a fresh span back. */
  method DropFront(heap: PageHeap, span: SpanId, skip: nat, ghost client: Spans) returns (rest: SpanId)
    requires heap.Valid() && span in heap.spans && skip < heap.spans[span].length
    requires Allocated(client, heap.spans, Some(span), heap.spans[span].length)
    modifies heap
    ensures heap.Valid() && heap.owner.Keys == old(heap.owner.Keys)
    ensures Allocated(client, heap.spans, Some(rest), old(heap.spans[span].length) - skip)
    ensures heap.spans[rest].start == old(heap.spans[span].start) + skip
  {
    hide Inv, InvX, IdsOk, ReleaseOnly, HasFree, PageHeapOps.Delete;
    rest := span;
    if skip > 0 {
      rest := heap.Split(span, skip);
      assert rest !in old(Client(heap.spans)) && rest !in client;
      assert rest in Client(heap.spans);
      ghost var d := heap.spans[rest];
      heap.Delete(span);
      assert rest in Client(heap.spans) && Client(heap.spans)[rest] == d;
      assert Client(heap.spans) == client[rest := d];
    }
  }

  /** Keep the first `needed` pages of a fresh span and give the rest back. */
  method DropBack(heap: PageHeap, span: SpanId, needed: nat, ghost client: Spans)
    requires heap.Valid() && span in heap.spans && 0 < needed <= heap.spans[span].length
    requires Allocated(client, heap.spans, Some(span), heap.spans[span].length)
    modifies heap
    ensures heap.Valid() && heap.owner.Keys == old(heap.owner.Keys)
    ensures Allocated(client, heap.spans, Some(span), needed)
    ensures heap.spans[span].start == old(heap.spans[span].start)
  {
    hide Inv, InvX, IdsOk, ReleaseOnly, HasFree, PageHeapOps.Delete;
    if heap.spans[span].length > needed {
      var trailer := heap.Split(span, needed);
      assert span in Client(heap.spans) && trailer !in old(Client(heap.spans)) && trailer !in client;
      ghost var d := heap.spans[span];
      heap.Delete(trailer);
      assert span in Client(heap.spans) && Client(heap.spans)[span] == d;
      assert Client(heap.spans) == client[span := d];
    }
  }

  // ------------------------------------------------------- IterateOverRanges

  datatype MallocRange = MallocRange(address: int, bytes: int, location: Location, fraction: real)

  /** What the size map and the central lists know: the size of a class's objects, and how
      many objects of a span are in use. */
  datatype Usage = Usage(objectSize: nat -> nat, refcount: SpanId -> nat)

  /** The range is the span's memory, its kind and how much of it is in use: nothing of a
      free span, all of a large object, and the objects that are out of a small one. */
  ghost predicate Describes(usage: Usage, s: SpanId, d: Span, r: MallocRange) {
    && r.address == 8192 * d.start && r.bytes == 8192 * d.length && r.location == d.location
    && (d.location != InUse ==> r.fraction == 0.0)
    && (d.location == InUse && d.sizeclass == 0 ==> r.fraction == 1.0)
    && (d.location == InUse && d.sizeclass > 0 ==>
          r.fraction * r.bytes as real == (usage.objectSize(d.sizeclass) * usage.refcount(s)) as real)
  }

  /** The fraction is at most one when the objects in use fit into the span. */
  lemma AtMostWhole(usage: Usage, s: SpanId, d: Span, r: MallocRange)
    requires Describes(usage, s, d, r) && d.length > 0
    requires d.sizeclass > 0 ==> usage.objectSize(d.sizeclass) * usage.refcount(s) <= r.bytes
    ensures 0.0 <= r.fraction <= 1.0
  {
    var used := (usage.objectSize(d.sizeclass) * usage.refcount(s)) as real;
    if d.location == InUse && d.sizeclass > 0 {
      ScaleReal(0.0, r.fraction, r.bytes as real);
      ScaleReal(r.fraction, 1.0, r.bytes as real);
    }
  }

  /** No live span lies across the page. */
  ghost predicate Between(spans: Spans, page: nat) {
    forall s :: s in spans ==> spans[s].start >= page || spans[s].start + spans[s].length <= page
  }

  ghost function Ahead(spans: Spans, page: nat): set<SpanId> {
    set s | s in spans && spans[s].start >= page
  }

  /** The first mapped page at or after `page` and what it maps to, as pagemap_.Next finds it. */
  ghost predicate IsNext(pagemap: map<nat, SpanId>, page: nat, r: Option<nat>) {
    match r
    case None => forall q :: q in pagemap ==> q < page
    case Some(p) => p in pagemap && p >= page && forall q :: q in pagemap && q >= page ==> p <= q
  }

  /** The radix tree holds the page map: a null pointer where there is no entry, and the
      address of its descriptor for every span. */
  ghost predicate Represents(radix: PageMap3, pagemap: map<nat, SpanId>)
    requires radix.Valid()
    reads radix`nodes, radix`leaves, radix.root, radix.nodes, radix.leaves
  {
    forall p: nat :: radix.Get(p) == if p in pagemap then pagemap[p] + 1 else NULL
  }

  /** Storing an entry in the tree is storing it in the page map. */
  method StoreEntry(radix: PageMap3, ghost pagemap: map<nat, SpanId>, p: nat, s: SpanId)
    requires radix.Valid() && Represents(radix, pagemap) && radix.Ensured(p)
    modifies radix.leaves
    ensures radix.Valid() && Represents(radix, pagemap[p := s])
  {
    radix.Set(p, s + 1);
  }

  /** The tree's Next yields the span that the least mapped page at or above the given one
      is mapped to. */
  method NextMapped(radix: PageMap3, ghost pagemap: map<nat, SpanId>, page: nat)
    returns (s: Option<SpanId>, ghost at: Option<nat>)
    requires radix.Valid() && Represents(radix, pagemap)
    ensures IsNext(pagemap, page, at)
    ensures if at.Some? then s == Some(pagemap[at.value]) else s == None
  {
    hide PageMap3.Get, PageMap3.Valid;
    ghost var p;
    var v;
    v, p := radix.Next(page);
    forall q | q in pagemap && page <= q
      ensures radix.Get(q) != NULL
    {
    }
    if v == NULL {
      return None, None;
    }
    return Some(v - 1), Some(p);
  }

  /** From a page between spans, the next mapped page is the first page of the next
      live span, and its entry is not stale. */
  lemma NextIsStart(h: Heap, page: nat, r: Option<nat>)
    requires Partition(h.spans, h.owner) && PagemapOk(h.spans, h.pagemap, h.owner)
    requires Between(h.spans, page) && IsNext(h.pagemap, page, r)
    ensures r.None? ==> Ahead(h.spans, page) == {}
    ensures r.Some? ==>
      var s := h.pagemap[r.value];
      && s in h.spans && h.spans[s].start == r.value
      && forall u :: u in Ahead(h.spans, page) ==> h.spans[s].start <= h.spans[u].start
  {
    hide Partition, PagemapOk;
    forall u | u in h.spans
      ensures h.spans[u].start in h.pagemap
    {
      BoundaryAt(h.spans, h.pagemap, h.owner, u);
    }
    if r.Some? {
      MappedOwner(h.spans, h.pagemap, h.owner, r.value);
      BoundaryAt(h.spans, h.pagemap, h.owner, h.owner[r.value]);
    }
  }

  lemma MappedOwner(spans: Spans, pagemap: map<nat, SpanId>, owner: map<nat, SpanId>, p: nat)
    requires Partition(spans, owner) && PagemapOk(spans, pagemap, owner) && p in pagemap
    ensures p in owner && owner[p] in spans && spans[owner[p]].Covers(p)
  {
  }

  /** The range of the next span, found through the tree. */
  method GetNextRange(heap: PageHeap, radix: PageMap3, usage: Usage, page: nat)
    returns (r: Option<MallocRange>, ghost s: SpanId)
    requires heap.Valid() && radix.Valid() && Represents(radix, heap.pagemap) && Between(heap.spans, page)
    ensures r.None? ==> Ahead(heap.spans, page) == {}
    ensures r.Some? ==>
      && s in heap.spans && s in Ahead(heap.spans, page) && heap.spans[s].length > 0
      && Describes(usage, s, heap.spans[s], r.value)
      && forall u :: u in Ahead(heap.spans, page) ==> heap.spans[s].start <= heap.spans[u].start
  {
    hide Represents;
    ghost var at;
    var span;
    span, at := NextMapped(radix, heap.pagemap, page);
    hide ListsOk, CountOk, Coalesced, IdsOk;
    NextIsStart(heap.View(), page, at);
    s := 0;
    if span.None? {
      r := None;
    } else {
      s := span.value;
      SpanShape(heap.spans, heap.owner, s);
      hide Inv, Partition, PagemapOk, Ahead;
      var range := RangeOf(usage, span.value, heap.spans[span.value]);
      r := Some(range);
    }
  }

  method RangeOf(usage: Usage, s: SpanId, d: Span) returns (r: MallocRange)
    requires d.length > 0
    ensures Describes(usage, s, d, r)
  {
    r := MallocRange(Bytes(d.start), Bytes(d.length), d.location, 0.0);
    if d.location == InUse {
      r := r.(fraction := 1.0);
      if d.sizeclass > 0 {
        // Only some of the objects in this span may be in use.
        var used := (usage.objectSize(d.sizeclass) * usage.refcount(s)) as real;
        r := r.(fraction := used / r.bytes as real);
        Quotient(used, r.bytes as real);
      }
    }
  }

  lemma Quotient(a: real, b: real)
    requires b > 0.0
    ensures a / b * b == a
  {
  }

  /** The ranges reported so far are the spans below `page`, in address order, once each. */
  ghost predicate Reported(usage: Usage, spans: Spans, page: nat, out: seq<MallocRange>, ids: seq<SpanId>) {
    && |ids| == |out|
    && (forall i :: 0 <= i < |ids| ==>
      ids[i] in spans && Describes(usage, ids[i], spans[ids[i]], out[i]) && spans[ids[i]].start < page)
    && (forall i, j :: 0 <= i < j < |ids| ==> spans[ids[i]].start < spans[ids[j]].start)
    && (forall s :: s in spans && spans[s].start < page ==> s in ids)
  }

  lemma ReportedStep(
    usage: Usage, h: Heap, page: nat, out: seq<MallocRange>, ids: seq<SpanId>, s: SpanId, r: MallocRange)
    requires Partition(h.spans, h.owner) && Between(h.spans, page) && Reported(usage, h.spans, page, out, ids)
    requires s in h.spans && Describes(usage, s, h.spans[s], r)
    requires s in Ahead(h.spans, page) && forall u :: u in Ahead(h.spans, page) ==> h.spans[s].start <= h.spans[u].start
    ensures var page' := h.spans[s].start + h.spans[s].length;
      && page < page' && Between(h.spans, page') &&
        Reported(usage, h.spans, page', out + [r], ids + [s])
      && Ahead(h.spans, page') < Ahead(h.spans, page)
  {
    var d := h.spans[s];
    var page' := d.start + d.length;
    hide PagemapOk, Covering, Describes;
    forall u | u in h.spans && u != s && h.spans[u].start >= page
      ensures h.spans[u].start >= page'
    {
      assert u in Ahead(h.spans, page);
      assert h.spans[u].Covers(h.spans[u].start) && !d.Covers(h.spans[u].start);
    }
    assert s in Ahead(h.spans, page) && s !in Ahead(h.spans, page');
    forall u | u in h.spans && h.spans[u].start < page'
      ensures u in ids + [s]
    {
      if u != s {
        assert u in ids;
      }
    }
  }

  lemma BeforeFirst(usage: Usage, spans: Spans, owner: map<nat, SpanId>)
    requires Partition(spans, owner)
    ensures Between(spans, 1) && Reported(usage, spans, 1, [], [])
  {
  }

  lemma AllReported(usage: Usage, spans: Spans, page: nat, out: seq<MallocRange>, ids: seq<SpanId>)
    requires Reported(usage, spans, page, out, ids) && Ahead(spans, page) == {}
    ensures |ids| == |out| == |spans|
    ensures forall s :: s in spans ==> s in ids
    ensures forall i :: 0 <= i < |ids| ==> ids[i] in spans && Describes(usage, ids[i], spans[ids[i]], out[i])
    ensures forall i, j :: 0 <= i < j < |out| ==> out[i].address < out[j].address
  {
    forall s | s in spans
      ensures s in ids
    {
      assert s !in Ahead(spans, page);
    }
    CountAll(ids, spans.Keys);
    assert |spans.Keys| == |spans|;
  }

  /** Ranges are gathered sixteen at a time under the page heap lock, then handed to
      the callback; `out` is the sequence of callback arguments. */
  method IterateOverRanges(heap: PageHeap, radix: PageMap3, usage: Usage)
    returns (out: seq<MallocRange>, ghost ids: seq<SpanId>)
    requires heap.Valid() && radix.Valid() && Represents(radix, heap.pagemap)
    ensures |ids| == |out| == |heap.spans|
    ensures forall i :: 0 <= i < |ids| ==> ids[i] in heap.spans && Describes(usage, ids[i], heap.spans[ids[i]], out[i])
    ensures forall i, j :: 0 <= i < j < |out| ==> out[i].address < out[j].address
    ensures forall s :: s in heap.spans ==> s in ids
  {
    hide Inv, Between, Reported, Partition, Ahead, Represents;
    InvPartition(heap.View());
    var page: nat := 1;
    var done := false;
    out, ids := [], [];
    BeforeFirst(usage, heap.spans, heap.owner);
    while !done
      invariant Between(heap.spans, page) && Reported(usage, heap.spans, page, out, ids)
      invariant done ==> Ahead(heap.spans, page) == {}
      decreases if done then 0 else 1, Ahead(heap.spans, page)
    {
      var ranges := [];
      ghost var names := [];
      ghost var ahead := Ahead(heap.spans, page);
      assert out + ranges == out && ids + names == ids;
      while |ranges| < 16
        invariant Between(heap.spans, page) && Reported(usage, heap.spans, page, out + ranges, ids + names) &&
                  |names| == |ranges|
        invariant !done && (if ranges == [] then Ahead(heap.spans, page) == ahead else Ahead(heap.spans, page) < ahead)
        decreases Ahead(heap.spans, page)
      {
        var r, s := GetNextRange(heap, radix, usage, page);
        if r.None? {
          done := true;
          break;
        }
        ReportedStep(usage, heap.View(), page, out + ranges, ids + names, s, r.value);
        assert out + (ranges + [r.value]) == (out + ranges) + [r.value];
        assert ids + (names + [s]) == (ids + names) + [s];
        page := (r.value.address + r.value.bytes + 8191) / 8192;
        ranges := ranges + [r.value];
        names := names + [s];
      }
      out := out + ranges;
      ids := ids + names;
    }
    AllReported(usage, heap.spans, page, out, ids);
  }
}
