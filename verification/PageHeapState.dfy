/** The page heap's state as a value, its whole-state invariant, and the small
    steps every page heap operation is made of.

    A span is named by an identifier, the model's pointer.  Deleted identifiers
    may be handed out again, as the span allocator's free list does, so a stale
    page map entry may name a deleted span or a span that now lives elsewhere. */
module PageHeapState {
  import opened Sequences

  type SpanId = nat

  const MAX_PAGES: nat := 128    // kMaxPages

  /** Pages to bytes: n << kPageShift. */
  function Bytes(pages: int): int {
    pages * 8192
  }

  datatype Location = InUse | Normal | Returned

  datatype Span = Span(start: nat, length: nat, location: Location, sizeclass: nat) {
    predicate Covers(p: nat) {
      start <= p < start + length
    }
    predicate Free() {
      location != InUse
    }
  }

  type Spans = map<SpanId, Span>
  type Lists = seq<seq<SpanId>>

  /** `normal[i]` and `returned[i]` are the free lists of spans of length i;
      index MAX_PAGES holds the spans that are at least that long.
      `owner` and `lost` are bookkeeping of the proof only: the span that covers
      each managed page, and the number of pages obtained from the system that
      the page map had no room for. */
  datatype Heap = Heap(
    spans: Spans,
    pagemap: map<nat, SpanId>,
    normal: Lists,
    returned: Lists,
    freeBytes: int,
    unmappedBytes: int,
    systemBytes: int,
    owner: map<nat, SpanId>,
    lost: nat)

  // ---------------------------------------------------------------- invariant

  function ListIndex(length: nat): nat {
    if length < MAX_PAGES then length else MAX_PAGES
  }

  /** The live spans partition the managed pages. */
  ghost predicate Partition(spans: Spans, owner: map<nat, SpanId>) {
    && (forall s :: s in spans ==> spans[s].length > 0 && spans[s].start > 0)
    && Disjoint(spans, owner)
    && Covering(spans, owner)
  }

  ghost predicate Disjoint(spans: Spans, owner: map<nat, SpanId>) {
    forall s, p {:trigger spans[s].Covers(p)} :: s in spans && spans[s].Covers(p) ==> p in owner && owner[p] == s
  }

  ghost predicate Covering(spans: Spans, owner: map<nat, SpanId>) {
    forall p {:trigger owner[p]} :: p in owner ==> owner[p] in spans && spans[owner[p]].Covers(p)
  }

  /** The page map is right at both ends of every live span, everywhere on a span
      that holds small objects, and empty outside the managed pages.  Interior
      entries of other spans are arbitrary. */
  ghost predicate PagemapOk(spans: Spans, pagemap: map<nat, SpanId>, owner: map<nat, SpanId>) {
    && (forall p {:trigger pagemap[p]} :: p in pagemap ==> p in owner)
    && (forall s :: s in spans ==> BoundaryOk(spans[s], s, pagemap))
    && (forall s, p {:trigger spans[s].Covers(p)} :: s in spans && spans[s].sizeclass > 0 && spans[s].Covers(p) ==>
          p in pagemap && pagemap[p] == s)
  }

  ghost predicate BoundaryOk(d: Span, s: SpanId, pagemap: map<nat, SpanId>) {
    && d.start in pagemap && pagemap[d.start] == s
    && d.start + d.length - 1 in pagemap && pagemap[d.start + d.length - 1] == s
    && (d.Free() ==> d.sizeclass == 0)
  }

  ghost predicate Belongs(spans: Spans, s: SpanId, i: nat, where: Location, x: set<SpanId>) {
    s in spans && s !in x && spans[s].location == where && ListIndex(spans[s].length) == i
  }

  /** List `i` of kind `where` holds exactly the free spans that belong on it, once. */
  ghost predicate ListOk(spans: Spans, q: seq<SpanId>, i: nat, where: Location, x: set<SpanId>) {
    && NoDup(q)
    && (forall s :: s in q <==> Belongs(spans, s, i, where, x))
  }

  ghost predicate ListsOk(spans: Spans, lists: Lists, where: Location, x: set<SpanId>) {
    && |lists| == MAX_PAGES + 1
    && (forall i :: 0 <= i < |lists| ==> ListOk(spans, lists[i], i, where, x))
  }

  ghost predicate Touching(a: Span, b: Span) {
    a.start + a.length == b.start && a.location == b.location && a.Free()
  }

  /** Eager coalescing: no two free spans of one kind are neighbours. */
  ghost predicate Coalesced(spans: Spans, x: set<SpanId>) {
    forall s, t :: s in spans && t in spans && s !in x && t !in x ==> !Touching(spans[s], spans[t])
  }

  ghost function PagesAt(spans: Spans, owner: map<nat, SpanId>, where: Location, x: set<SpanId>): set<nat> {
    set p | p in owner && owner[p] in spans && owner[p] !in x && spans[owner[p]].location == where
  }

  /** A byte counter is the matching page count. */
  ghost predicate CountOk(bytes: int, spans: Spans, owner: map<nat, SpanId>, where: Location, x: set<SpanId>) {
    bytes == Bytes(|PagesAt(spans, owner, where, x)|)
  }

  predicate ListsShaped(h: Heap) {
    |h.normal| == MAX_PAGES + 1 && |h.returned| == MAX_PAGES + 1
  }

  /** The invariant, except that the spans in `x` are in transit between lists. */
  ghost predicate InvX(h: Heap, x: set<SpanId>) {
    && ListsShaped(h)
    && Partition(h.spans, h.owner)
    && PagemapOk(h.spans, h.pagemap, h.owner)
    && ListsOk(h.spans, h.normal, Normal, x)
    && ListsOk(h.spans, h.returned, Returned, x)
    && Coalesced(h.spans, x)
    && CountOk(h.freeBytes, h.spans, h.owner, Normal, x)
    && CountOk(h.unmappedBytes, h.spans, h.owner, Returned, x)
    && h.systemBytes == Bytes(|h.owner| + h.lost)
  }

  ghost predicate Inv(h: Heap) {
    InvX(h, {})
  }

  // ------------------------------------------------------------- small steps

  /** RemoveFromFreeList. */
  function Detach(h: Heap, s: SpanId): Heap
    requires s in h.spans && ListsShaped(h)
  {
    var d := h.spans[s];
    var i := ListIndex(d.length);
    if d.location == Normal then
      h.(freeBytes := h.freeBytes - Bytes(d.length),
         normal := h.normal[i := Without(h.normal[i], s)])
    else
      h.(unmappedBytes := h.unmappedBytes - Bytes(d.length),
         returned := h.returned[i := Without(h.returned[i], s)])
  }

  /** PrependToFreeList. */
  function Attach(h: Heap, s: SpanId): Heap
    requires s in h.spans && ListsShaped(h)
  {
    var d := h.spans[s];
    var i := ListIndex(d.length);
    if d.location == Normal then
      h.(freeBytes := h.freeBytes + Bytes(d.length),
         normal := h.normal[i := [s] + h.normal[i]])
    else
      h.(unmappedBytes := h.unmappedBytes + Bytes(d.length),
         returned := h.returned[i := [s] + h.returned[i]])
  }

  /** Give span `s` a new location and size class; the lists are not touched. */
  function Relabel(h: Heap, s: SpanId, where: Location, sc: nat): Heap
    requires s in h.spans
  {
    h.(spans := h.spans[s := h.spans[s].(location := where, sizeclass := sc)])
  }

  /** Cut span `s` to its first `n` pages; the rest becomes the new span `t`. */
  function CutAt(h: Heap, s: SpanId, n: nat, t: SpanId, where: Location): Heap
    requires s in h.spans && 0 < n < h.spans[s].length
  {
    var d := h.spans[s];
    h.(spans := CutSpans(h.spans, s, n, t, where),
       pagemap := h.pagemap[d.start + n := t][d.start + d.length - 1 := t][d.start + n - 1 := s],
       owner := CutOwner(h.owner, s, d.start + n, t))
  }

  function CutSpans(spans: Spans, s: SpanId, n: nat, t: SpanId, where: Location): Spans
    requires s in spans && 0 < n < spans[s].length
  {
    var d := spans[s];
    spans[t := Span(d.start + n, d.length - n, where, 0)][s := d.(length := n)]
  }

  function CutOwner(owner: map<nat, SpanId>, s: SpanId, at: nat, t: SpanId): map<nat, SpanId> {
    map p | p in owner :: if owner[p] == s && at <= p then t else owner[p]
  }

  function JoinOwner(owner: map<nat, SpanId>, s: SpanId, q: SpanId): map<nat, SpanId> {
    map p | p in owner :: if owner[p] == q then s else owner[p]
  }

  /** Merge the preceding span `q` into `s`; `q`'s descriptor is deleted. */
  function AbsorbPrev(h: Heap, s: SpanId, q: SpanId): Heap
    requires s in h.spans && q in h.spans && h.spans[q].length <= h.spans[s].start
  {
    var d := h.spans[s];
    var len := h.spans[q].length;
    h.(spans := (h.spans - {q})[s := d.(start := d.start - len, length := d.length + len)],
       pagemap := h.pagemap[d.start - len := s],
       owner := JoinOwner(h.owner, s, q))
  }

  /** Merge the following span `q` into `s`; `q`'s descriptor is deleted. */
  function AbsorbNext(h: Heap, s: SpanId, q: SpanId): Heap
    requires s in h.spans && q in h.spans && h.spans[s].length + h.spans[q].length > 0
  {
    var d := h.spans[s];
    var len := h.spans[q].length;
    h.(spans := (h.spans - {q})[s := d.(length := d.length + len)],
       pagemap := h.pagemap[d.start + d.length + len - 1 := s],
       owner := JoinOwner(h.owner, s, q))
  }

  // -------------------------------------------------------------- page ranges

  function Range(lo: nat, n: nat): (r: set<nat>)
    ensures |r| == n
    ensures forall p: nat :: p in r <==> lo <= p < lo + n
  {
    if n == 0 then {} else Range(lo, n - 1) + {lo + n - 1}
  }

  lemma SubsetDifferenceSize<T>(a: set<T>, b: set<T>)
    requires b <= a
    ensures |a - b| == |a| - |b|
  {
    assert a == (a - b) + b;
  }

  // ------------------------------------------- every step keeps the invariant


  lemma OwnedRange(spans: Spans, owner: map<nat, SpanId>, s: SpanId)
    requires Partition(spans, owner) && s in spans
    ensures forall p {:trigger p in Range(spans[s].start, spans[s].length)} ::
      p in Range(spans[s].start, spans[s].length) <==> p in owner && owner[p] == s
  {
    forall p: nat
      ensures p in Range(spans[s].start, spans[s].length) <==> p in owner && owner[p] == s
    {
      assert p in Range(spans[s].start, spans[s].length) <==> spans[s].Covers(p);
    }
  }

  lemma OwnedAt(spans: Spans, owner: map<nat, SpanId>, s: SpanId, p: nat)
    requires Partition(spans, owner) && s in spans && spans[s].Covers(p)
    ensures p in owner && owner[p] == s
  {
  }

  lemma PagesMinus(spans: Spans, owner: map<nat, SpanId>, where: Location, s: SpanId, x: set<SpanId>, r: set<nat>)
    requires s in spans && s !in x && spans[s].location == where
    requires forall p :: p in r <==> p in owner && owner[p] == s
    ensures r <= PagesAt(spans, owner, where, x)
    ensures PagesAt(spans, owner, where, x + {s}) == PagesAt(spans, owner, where, x) - r
  {
  }

  lemma PagesWithout(spans: Spans, owner: map<nat, SpanId>, where: Location, s: SpanId, x: set<SpanId>)
    requires Partition(spans, owner) && s in spans && s !in x
    ensures |PagesAt(spans, owner, where, x + {s})| == |PagesAt(spans, owner, where,
            x)| - (if spans[s].location == where then spans[s].length else 0)
  {
    hide Partition, Range;
    var d := spans[s];
    if d.location == where {
      var r := Range(d.start, d.length);
      OwnedRange(spans, owner, s);
      PagesMinus(spans, owner, where, s, x, r);
      SubsetDifferenceSize(PagesAt(spans, owner, where, x), r);
    } else {
      assert PagesAt(spans, owner, where, x + {s}) == PagesAt(spans, owner, where, x);
    }
  }

  lemma DetachLists(spans: Spans, lists: Lists, where: Location, s: SpanId, x: set<SpanId>)
    requires ListsOk(spans, lists, where, x) && s in spans && s !in x && spans[s].location == where
    ensures var i := ListIndex(spans[s].length);
      ListsOk(spans, lists[i := Without(lists[i], s)], where, x + {s})
  {
    WithoutSpec(lists[ListIndex(spans[s].length)], s);
  }

  lemma OtherLists(spans: Spans, lists: Lists, where: Location, s: SpanId, x: set<SpanId>)
    requires s in spans && spans[s].location != where
    ensures ListsOk(spans, lists, where, x) <==> ListsOk(spans, lists, where, x + {s})
  {
    hide NoDup;
    assert forall i: nat, t :: Belongs(spans, t, i, where, x) <==> Belongs(spans, t, i, where, x + {s});
  }

  lemma DetachKeeps(h: Heap, s: SpanId, x: set<SpanId>)
    requires InvX(h, x) && s in h.spans && s !in x && h.spans[s].Free()
    ensures InvX(Detach(h, s), x + {s})
  {
    hide Partition, PagemapOk, ListOk, PagesAt;
    PagesWithout(h.spans, h.owner, Normal, s, x);
    PagesWithout(h.spans, h.owner, Returned, s, x);
    if h.spans[s].location == Normal {
      DetachLists(h.spans, h.normal, Normal, s, x);
      OtherLists(h.spans, h.returned, Returned, s, x);
    } else {
      DetachLists(h.spans, h.returned, Returned, s, x);
      OtherLists(h.spans, h.normal, Normal, s, x);
    }
  }

  /** No neighbour of `s` outside `x` is free of the same kind. */
  ghost predicate Isolated(spans: Spans, s: SpanId, x: set<SpanId>)
    requires s in spans
  {
    forall t :: t in spans && t !in x && t != s ==> !Touching(spans[s], spans[t]) && !Touching(spans[t], spans[s])
  }

  lemma AttachLists(spans: Spans, lists: Lists, where: Location, s: SpanId, x: set<SpanId>)
    requires ListsOk(spans, lists, where, x + {s}) && s in spans && s !in x && spans[s].location == where
    ensures var i := ListIndex(spans[s].length);
      ListsOk(spans, lists[i := [s] + lists[i]], where, x)
  {
    NoDupPrepend(lists[ListIndex(spans[s].length)], s);
  }

  lemma SpanShape(spans: Spans, owner: map<nat, SpanId>, s: SpanId)
    requires Partition(spans, owner) && s in spans
    ensures spans[s].length > 0 && spans[s].start > 0
  {
  }

  lemma AttachKeeps(h: Heap, s: SpanId, x: set<SpanId>)
    requires InvX(h, x + {s}) && s in h.spans && s !in x && h.spans[s].Free() && Isolated(h.spans, s, x)
    ensures InvX(Attach(h, s), x)
  {
    hide Partition, PagemapOk, ListOk, PagesAt;
    PagesWithout(h.spans, h.owner, Normal, s, x);
    PagesWithout(h.spans, h.owner, Returned, s, x);
    SpanShape(h.spans, h.owner, s);
    if h.spans[s].location == Normal {
      AttachLists(h.spans, h.normal, Normal, s, x);
      OtherLists(h.spans, h.returned, Returned, s, x);
    } else {
      AttachLists(h.spans, h.returned, Returned, s, x);
      OtherLists(h.spans, h.normal, Normal, s, x);
    }
  }

  /** Nothing outside `x` was touched. */
  ghost predicate SameOutside(a: Spans, b: Spans, x: set<SpanId>) {
    forall t :: t !in x ==> (t in a <==> t in b) && (t in a ==> a[t] == b[t])
  }

  ghost predicate SameOwnerOutside(a: map<nat, SpanId>, b: map<nat, SpanId>, x: set<SpanId>) {
    && a.Keys == b.Keys
    && (forall p :: p in a ==> a[p] == b[p] || (a[p] in x && b[p] in x))
  }

  lemma SameLists(a: Spans, b: Spans, lists: Lists, where: Location, x: set<SpanId>)
    requires SameOutside(a, b, x) && ListsOk(a, lists, where, x)
    ensures ListsOk(b, lists, where, x)
  {
    assert forall i: nat, t :: Belongs(a, t, i, where, x) <==> Belongs(b, t, i, where, x);
  }

  lemma SamePages(a: Spans, b: Spans, o: map<nat, SpanId>, o': map<nat, SpanId>, where: Location, x: set<SpanId>)
    requires SameOutside(a, b, x) && SameOwnerOutside(o, o', x)
    ensures PagesAt(a, o, where, x) == PagesAt(b, o', where, x)
  {
  }

  lemma SameKeys<K, V>(a: map<K, V>, b: map<K, V>)
    requires a.Keys == b.Keys
    ensures |a| == |b|
  {
    assert |a| == |a.Keys| && |b| == |b.Keys|;
  }

  /** A step that only changes spans in transit keeps the rest of the invariant. */
  lemma TransitStep(h: Heap, h': Heap, x: set<SpanId>)
    requires InvX(h, x)
    requires SameOutside(h.spans, h'.spans, x) && SameOwnerOutside(h.owner, h'.owner, x)
    requires h' == h.(spans := h'.spans, owner := h'.owner, pagemap := h'.pagemap)
    requires Partition(h'.spans, h'.owner) && PagemapOk(h'.spans, h'.pagemap, h'.owner)
    ensures InvX(h', x)
  {
    hide Partition, PagemapOk, ListsOk, PagesAt;
    SameLists(h.spans, h'.spans, h.normal, Normal, x);
    SameLists(h.spans, h'.spans, h.returned, Returned, x);
    SamePages(h.spans, h'.spans, h.owner, h'.owner, Normal, x);
    SamePages(h.spans, h'.spans, h.owner, h'.owner, Returned, x);
    SameKeys(h.owner, h'.owner);
  }

  /** For a span in use, or no span at all, being in transit makes no difference. */
  lemma TransitIrrelevant(h: Heap, s: SpanId, x: set<SpanId>)
    requires s in h.spans ==> h.spans[s].location == InUse
    ensures InvX(h, x) <==> InvX(h, x + {s})
  {
    hide Partition, PagemapOk, ListsOk;
    TransitIrrelevantLists(h.spans, h.normal, Normal, s, x);
    TransitIrrelevantLists(h.spans, h.returned, Returned, s, x);
    assert PagesAt(h.spans, h.owner, Normal, x) == PagesAt(h.spans, h.owner, Normal, x + {s});
    assert PagesAt(h.spans, h.owner, Returned, x) == PagesAt(h.spans, h.owner, Returned, x + {s});
  }

  lemma TransitIrrelevantLists(spans: Spans, lists: Lists, where: Location, s: SpanId, x: set<SpanId>)
    requires where != InUse && (s in spans ==> spans[s].location == InUse)
    ensures ListsOk(spans, lists, where, x) <==> ListsOk(spans, lists, where, x + {s})
  {
    hide NoDup;
    assert forall i: nat, t :: Belongs(spans, t, i, where, x) <==> Belongs(spans, t, i, where, x + {s});
  }

  lemma RelabelPartition(spans: Spans, spans': Spans, owner: map<nat, SpanId>)
    requires Partition(spans, owner) && spans.Keys == spans'.Keys
    requires forall t :: t in spans ==> spans'[t].start == spans[t].start && spans'[t].length == spans[t].length
    ensures Partition(spans', owner)
  {
    assert forall t, p :: t in spans ==> spans'[t].Covers(p) == spans[t].Covers(p);
  }

  lemma RelabelKeeps(h: Heap, s: SpanId, where: Location, x: set<SpanId>)
    requires InvX(h, x) && s in h.spans && s in x
    ensures InvX(Relabel(h, s, where, 0), x)
  {
    hide Partition, PagemapOk, ListsOk, CountOk, Coalesced;
    var h' := Relabel(h, s, where, 0);
    RelabelPartition(h.spans, h'.spans, h.owner);
    RelabelPagemap(h.spans, s, where, h.pagemap, h.owner);
    TransitStep(h, h', x);
  }

  lemma RelabelPagemap(spans: Spans, s: SpanId, where: Location, pagemap: map<nat, SpanId>, owner: map<nat, SpanId>)
    requires PagemapOk(spans, pagemap, owner) && s in spans
    ensures PagemapOk(spans[s := spans[s].(location := where, sizeclass := 0)], pagemap, owner)
  {
    var spans' := spans[s := spans[s].(location := where, sizeclass := 0)];
    assert forall t, p :: t in spans ==> spans'[t].Covers(p) == spans[t].Covers(p);
  }

  lemma CutDisjoint(spans: Spans, owner: map<nat, SpanId>, s: SpanId, n: nat, t: SpanId, where: Location)
    requires Disjoint(spans, owner) && s in spans && 0 < n < spans[s].length && t !in spans
    ensures Disjoint(CutSpans(spans, s, n, t, where), CutOwner(owner, s, spans[s].start + n, t))
  {
    var spans', owner' := CutSpans(spans, s, n, t, where), CutOwner(owner, s, spans[s].start + n, t);
    forall r, p | r in spans' && spans'[r].Covers(p)
      ensures p in owner' && owner'[p] == r
    {
      if r == t || r == s {
        assert spans[s].Covers(p);
      } else {
        assert spans[r].Covers(p);
      }
    }
  }

  lemma CutPartition(spans: Spans, owner: map<nat, SpanId>, s: SpanId, n: nat, t: SpanId, where: Location)
    requires Partition(spans, owner) && s in spans && 0 < n < spans[s].length && t !in spans
    ensures Partition(CutSpans(spans, s, n, t, where), CutOwner(owner, s, spans[s].start + n, t))
  {
    hide Disjoint;
    CutDisjoint(spans, owner, s, n, t, where);
  }

  /** The page map was only written on pages of spans in `x`. */
  ghost predicate SameMapOutside(a: map<nat, SpanId>, b: map<nat, SpanId>, owner: map<nat, SpanId>, x: set<SpanId>) {
    && (forall p :: p in b ==> p in owner)
    && (forall p {:trigger owner[p]} :: p in owner && owner[p] !in x && p in a ==> p in b && b[p] == a[p])
  }

  lemma PagemapStep(spans: Spans, spans': Spans, a: map<nat, SpanId>, b: map<nat, SpanId>,
                    owner: map<nat, SpanId>, owner': map<nat, SpanId>, x: set<SpanId>)
    requires Partition(spans, owner) && PagemapOk(spans, a, owner) && owner.Keys == owner'.Keys
    requires SameOutside(spans, spans', x) && SameMapOutside(a, b, owner, x)
    requires forall s :: s in spans' && s in x ==> BoundaryOk(spans'[s], s, b) && spans'[s].sizeclass == 0
    ensures PagemapOk(spans', b, owner')
  {
    hide Covering;
    forall s | s in spans' && s !in x
      ensures BoundaryOk(spans'[s], s, b)
    {
      var d := spans[s];
      assert BoundaryOk(d, s, a);
      assert d.Covers(d.start) && d.Covers(d.start + d.length - 1);
    }
    forall s, p | s in spans' && spans'[s].sizeclass > 0 && spans'[s].Covers(p)
      ensures p in b && b[p] == s
    {
      assert spans[s].Covers(p);
    }
  }

  lemma CutPagemap(h: Heap, s: SpanId, n: nat, t: SpanId, where: Location)
    requires Partition(h.spans, h.owner) && PagemapOk(h.spans, h.pagemap, h.owner)
    requires s in h.spans && 0 < n < h.spans[s].length && t !in h.spans && h.spans[s].sizeclass == 0
    requires h.spans[s].location == InUse
    ensures var h' := CutAt(h, s, n, t, where); PagemapOk(h'.spans, h'.pagemap, h'.owner)
  {
    hide PagemapOk, Partition;
    var d := h.spans[s];
    var h' := CutAt(h, s, n, t, where);
    OwnedAt(h.spans, h.owner, s, d.start + n);
    OwnedAt(h.spans, h.owner, s, d.start + d.length - 1);
    OwnedAt(h.spans, h.owner, s, d.start + n - 1);
    BoundaryAt(h.spans, h.pagemap, h.owner, s);
    CutBoundaries(d, h.pagemap, s, n, t);
    assert SameMapOutside(h.pagemap, h'.pagemap, h.owner, {s, t});
    hide BoundaryOk, SameMapOutside;
    PagemapStep(h.spans, h'.spans, h.pagemap, h'.pagemap, h.owner, h'.owner, {s, t});
  }

  lemma CutBoundaries(d: Span, pagemap: map<nat, SpanId>, s: SpanId, n: nat, t: SpanId)
    requires BoundaryOk(d, s, pagemap) && 0 < n < d.length
    ensures var m := pagemap[d.start + n := t][d.start + d.length - 1 := t][d.start + n - 1 := s];
      && (forall a: Span :: a.start == d.start && a.length == n && a.sizeclass == 0 ==> BoundaryOk(a, s, m))
      && (forall b: Span :: b.start == d.start + n && b.length == d.length - n && b.sizeclass == 0 ==>
            BoundaryOk(b, t, m))
  {
  }

  lemma BoundaryAt(spans: Spans, pagemap: map<nat, SpanId>, owner: map<nat, SpanId>, s: SpanId)
    requires PagemapOk(spans, pagemap, owner) && s in spans
    ensures BoundaryOk(spans[s], s, pagemap)
    ensures forall p :: p in pagemap ==> p in owner
  {
  }

  lemma CutKeeps(h: Heap, s: SpanId, n: nat, t: SpanId, where: Location, x: set<SpanId>)
    requires InvX(h, x + {s}) && s in h.spans && 0 < n < h.spans[s].length && t !in h.spans
    requires h.spans[s].location == InUse && h.spans[s].sizeclass == 0
    ensures InvX(CutAt(h, s, n, t, where), x + {s} + {t})
  {
    hide Partition, PagemapOk, ListsOk, CountOk, Coalesced;
    TransitIrrelevant(h, t, x + {s});
    CutPartition(h.spans, h.owner, s, n, t, where);
    CutPagemap(h, s, n, t, where);
    TransitStep(h, CutAt(h, s, n, t, where), x + {s} + {t});
  }

  // Merging two neighbours.

  ghost predicate Joined(d: Span, e: Span, m: Span) {
    && d.start + d.length == e.start
    && m.start == d.start && m.length == d.length + e.length
  }

  lemma JoinPartition(spans: Spans, owner: map<nat, SpanId>, s: SpanId, q: SpanId, m: Span)
    requires Partition(spans, owner) && s in spans && q in spans && s != q
    requires Joined(spans[q], spans[s], m) || Joined(spans[s], spans[q], m)
    ensures Partition((spans - {q})[s := m], JoinOwner(owner, s, q))
  {
    hide Disjoint;
    JoinDisjoint(spans, owner, s, q, m);
  }

  lemma JoinDisjoint(spans: Spans, owner: map<nat, SpanId>, s: SpanId, q: SpanId, m: Span)
    requires Disjoint(spans, owner) && s in spans && q in spans && s != q
    requires Joined(spans[q], spans[s], m) || Joined(spans[s], spans[q], m)
    ensures Disjoint((spans - {q})[s := m], JoinOwner(owner, s, q))
  {
    var spans', owner' := (spans - {q})[s := m], JoinOwner(owner, s, q);
    forall r, p | r in spans' && spans'[r].Covers(p)
      ensures p in owner' && owner'[p] == r
    {
      if r == s {
        assert spans[s].Covers(p) || spans[q].Covers(p);
      } else {
        assert spans[r].Covers(p);
      }
    }
  }

  lemma AbsorbPrevKeeps(h: Heap, s: SpanId, q: SpanId, x: set<SpanId>)
    requires InvX(h, x + {s} + {q}) && s in h.spans && q in h.spans && s != q
    requires h.spans[q].start + h.spans[q].length == h.spans[s].start && h.spans[s].sizeclass == 0
    ensures InvX(AbsorbPrev(h, s, q), x + {s})
  {
    hide Partition, PagemapOk, ListsOk, CountOk, Coalesced;
    var h' := AbsorbPrev(h, s, q);
    JoinPartition(h.spans, h.owner, s, q, h'.spans[s]);
    SpanShape(h.spans, h.owner, s);
    SpanShape(h.spans, h.owner, q);
    OwnedAt(h.spans, h.owner, q, h.spans[q].start);
    BoundaryAt(h.spans, h.pagemap, h.owner, s);
    PagemapStep(h.spans, h'.spans, h.pagemap, h'.pagemap, h.owner, h'.owner, {s, q});
    TransitStep(h, h', x + {s} + {q});
    TransitIrrelevant(h', q, x + {s});
  }

  lemma AbsorbNextKeeps(h: Heap, s: SpanId, q: SpanId, x: set<SpanId>)
    requires InvX(h, x + {s} + {q}) && s in h.spans && q in h.spans && s != q
    requires h.spans[s].start + h.spans[s].length == h.spans[q].start && h.spans[s].sizeclass == 0
    requires h.spans[q].length > 0
    ensures InvX(AbsorbNext(h, s, q), x + {s})
  {
    hide Partition, PagemapOk, ListsOk, CountOk, Coalesced;
    SpanShape(h.spans, h.owner, s);
    SpanShape(h.spans, h.owner, q);
    var h' := AbsorbNext(h, s, q);
    JoinPartition(h.spans, h.owner, s, q, h'.spans[s]);
    OwnedAt(h.spans, h.owner, q, h.spans[q].start + h.spans[q].length - 1);
    BoundaryAt(h.spans, h.pagemap, h.owner, s);
    PagemapStep(h.spans, h'.spans, h.pagemap, h'.pagemap, h.owner, h'.owner, {s, q});
    TransitStep(h, h', x + {s} + {q});
    TransitIrrelevant(h', q, x + {s});
  }

}
