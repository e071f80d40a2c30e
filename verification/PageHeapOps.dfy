/** Carve, Split, MergeIntoFreeList and RegisterSizeClass as functions on the page
    heap's state, and the proof that each keeps the whole invariant. */
module PageHeapOps {
  import opened Sequences
  import opened PageHeapState

  // ------------------------------------------------------------------- Carve

  /** Take `n` pages from the front of free span `s`; what is left over becomes
      the free span `t` of the same kind. */
  function Carve(h: Heap, s: SpanId, n: nat, t: SpanId): Heap
    requires s in h.spans && 0 < n <= h.spans[s].length && ListsShaped(h)
  {
    var h1 := Relabel(Detach(h, s), s, InUse, 0);
    if n == h.spans[s].length then h1 else Attach(CutAt(h1, s, n, t, h.spans[s].location), t)
  }

  lemma CarveKeeps(h: Heap, s: SpanId, n: nat, t: SpanId)
    requires Inv(h) && s in h.spans && h.spans[s].Free() && 0 < n <= h.spans[s].length && t !in h.spans
    ensures Inv(Carve(h, s, n, t))
  {
    hide Partition, PagemapOk, ListsOk, CountOk, Coalesced;
    var h1 := Detach(h, s);
    var h2 := Relabel(h1, s, InUse, 0);
    DetachKeeps(h, s, {});
    RelabelKeeps(h1, s, InUse, {} + {s});
    if n == h.spans[s].length {
      TransitIrrelevant(h2, s, {});
    } else {
      var h3 := CutAt(h2, s, n, t, h.spans[s].location);
      CutKeeps(h2, s, n, t, h.spans[s].location, {});
      assert {} + {s} + {t} == {} + {t} + {s};
      TransitIrrelevant(h3, s, {} + {t});
      CarveIsolated(h, s, n, t);
      AttachKeeps(h3, t, {});
    }
  }

  /** "Skip coalescing - no candidates possible". */
  lemma CarveIsolated(h: Heap, s: SpanId, n: nat, t: SpanId)
    requires Partition(h.spans, h.owner) && Coalesced(h.spans, {}) && ListsShaped(h)
    requires s in h.spans && h.spans[s].Free() && 0 < n < h.spans[s].length && t !in h.spans
    ensures Isolated(CutAt(Relabel(Detach(h, s), s, InUse, 0), s, n, t, h.spans[s].location).spans, t, {})
  {
    hide Covering;
    var d := h.spans[s];
    forall r | r in h.spans && r != s
      ensures h.spans[r].start + h.spans[r].length != d.start + n
      ensures !(d.start + d.length == h.spans[r].start && h.spans[r].location == d.location)
    {
      assert d.Covers(d.start + n - 1) && !h.spans[r].Covers(d.start + n - 1);
      assert !Touching(d, h.spans[r]);
    }
  }

  // ------------------------------------------------------- MergeIntoFreeList

  /** Absorb the span before `s` if the page map shows a free one of the same kind. */
  function MergeLeft(h: Heap, s: SpanId): Heap
    requires s in h.spans && ListsShaped(h)
  {
    var p := h.spans[s].start;
    if p > 0 && p - 1 in h.pagemap then
      var q := h.pagemap[p - 1];
      if q in h.spans && h.spans[q].location == h.spans[s].location && h.spans[q].length <= p
      then AbsorbPrev(Detach(h, q), s, q) else h
    else h
  }

  /** Absorb the span after `s` if the page map shows a free one of the same kind. */
  function MergeRight(h: Heap, s: SpanId): Heap
    requires s in h.spans && ListsShaped(h)
  {
    var e := h.spans[s].start + h.spans[s].length;
    if e in h.pagemap then
      var q := h.pagemap[e];
      if q in h.spans && h.spans[q].location == h.spans[s].location && h.spans[q].length > 0
      then AbsorbNext(Detach(h, q), s, q) else h
    else h
  }

  function Merge(h: Heap, s: SpanId): Heap
    requires s in h.spans && ListsShaped(h)
  {
    var h1 := MergeLeft(h, s);
    var h2 := MergeRight(h1, s);
    Attach(h2, s)
  }

  /** The page just before a span belongs to the span that ends there. */
  lemma OwnerBefore(spans: Spans, owner: map<nat, SpanId>, s: SpanId)
    requires Partition(spans, owner) && s in spans
    ensures var p := spans[s].start;
      && (p - 1 in owner ==> var q := owner[p - 1]; q in spans && q != s && spans[q].start + spans[q].length == p)
      && (forall r :: r in spans && spans[r].start + spans[r].length == p ==> p - 1 in owner && owner[p - 1] == r)
  {
    var p := spans[s].start;
    assert spans[s].Covers(p) && !spans[s].Covers(p - 1);
    if p - 1 in owner {
      assert spans[owner[p - 1]].Covers(p - 1) && !spans[owner[p - 1]].Covers(p);
    }
    forall r | r in spans && spans[r].start + spans[r].length == p
      ensures p - 1 in owner && owner[p - 1] == r
    {
      assert spans[r].Covers(p - 1);
    }
  }

  lemma OwnerAfter(spans: Spans, owner: map<nat, SpanId>, s: SpanId)
    requires Partition(spans, owner) && s in spans
    ensures var e := spans[s].start + spans[s].length;
      && (e in owner ==> var q := owner[e]; q in spans && q != s && spans[q].start == e)
      && (forall r :: r in spans && spans[r].start == e ==> e in owner && owner[e] == r)
  {
    var e := spans[s].start + spans[s].length;
    assert spans[s].Covers(e - 1) && !spans[s].Covers(e);
    if e in owner {
      assert spans[owner[e]].Covers(e) && !spans[owner[e]].Covers(e - 1);
    }
    forall r | r in spans && spans[r].start == e
      ensures e in owner && owner[e] == r
    {
      assert spans[r].Covers(e);
    }
  }

  /** The boundary tags are exact: the page just before a span, if mapped at all,
      names the live span that ends there, whatever stale entries exist elsewhere. */
  lemma TagBefore(h: Heap, s: SpanId)
    requires Partition(h.spans, h.owner) && PagemapOk(h.spans, h.pagemap, h.owner) && s in h.spans
    ensures var p := h.spans[s].start;
      && (p - 1 in h.pagemap ==>
        var q := h.pagemap[p - 1]; q in h.spans && q != s && h.spans[q].start + h.spans[q].length == p)
      && (forall r :: r in h.spans && h.spans[r].start + h.spans[r].length == p ==>
        p - 1 in h.pagemap && h.pagemap[p - 1] == r)
  {
    hide Partition, PagemapOk;
    SpanShape(h.spans, h.owner, s);
    OwnerBefore(h.spans, h.owner, s);
    BoundaryAt(h.spans, h.pagemap, h.owner, s);
    var p := h.spans[s].start;
    if p - 1 in h.pagemap {
      BoundaryAt(h.spans, h.pagemap, h.owner, h.owner[p - 1]);
    }
    forall r | r in h.spans && h.spans[r].start + h.spans[r].length == p
      ensures p - 1 in h.pagemap && h.pagemap[p - 1] == r
    {
      BoundaryAt(h.spans, h.pagemap, h.owner, r);
    }
  }

  lemma TagAfter(h: Heap, s: SpanId)
    requires Partition(h.spans, h.owner) && PagemapOk(h.spans, h.pagemap, h.owner) && s in h.spans
    ensures var e := h.spans[s].start + h.spans[s].length;
      && (e in h.pagemap ==> var q := h.pagemap[e]; q in h.spans && q != s && h.spans[q].start == e)
      && (forall r :: r in h.spans && h.spans[r].start == e ==> e in h.pagemap && h.pagemap[e] == r)
  {
    hide Partition, PagemapOk;
    OwnerAfter(h.spans, h.owner, s);
    BoundaryAt(h.spans, h.pagemap, h.owner, s);
    var e := h.spans[s].start + h.spans[s].length;
    if e in h.pagemap {
      BoundaryAt(h.spans, h.pagemap, h.owner, h.owner[e]);
    }
    forall r | r in h.spans && h.spans[r].start == e
      ensures e in h.pagemap && h.pagemap[e] == r
    {
      BoundaryAt(h.spans, h.pagemap, h.owner, r);
    }
  }

  lemma MergeLeftKeeps(h: Heap, s: SpanId)
    requires InvX(h, {s}) && s in h.spans && h.spans[s].Free()
    ensures var h' := MergeLeft(h, s);
      && InvX(h', {s}) && s in h'.spans
      && h'.spans[s].location == h.spans[s].location
      && h'.spans[s].start <= h.spans[s].start
      && h'.spans[s].start + h'.spans[s].length == h.spans[s].start + h.spans[s].length
      && (forall r :: r in h'.spans && r != s ==> !Touching(h'.spans[r], h'.spans[s]))
  {
    hide Partition, PagemapOk, ListsOk, CountOk;
    TagBefore(h, s);
    var p := h.spans[s].start;
    SpanShape(h.spans, h.owner, s);
    BoundaryAt(h.spans, h.pagemap, h.owner, s);
    if p - 1 in h.pagemap && h.spans[h.pagemap[p - 1]].location == h.spans[s].location {
      var q := h.pagemap[p - 1];
      DetachKeeps(h, q, {s});
      assert {} + {s} + {q} == {s} + {q} && {} + {s} == {s};
      AbsorbPrevKeeps(Detach(h, q), s, q, {});
      forall r | r in h.spans && r != s && r != q
        ensures !Touching(h.spans[r], h.spans[q])
      {
      }
    }
  }

  lemma MergeRightKeeps(h: Heap, s: SpanId)
    requires InvX(h, {s}) && s in h.spans && h.spans[s].Free()
    requires forall r :: r in h.spans && r != s ==> !Touching(h.spans[r], h.spans[s])
    ensures var h' := MergeRight(h, s);
      && InvX(h', {s}) && s in h'.spans
      && h'.spans[s].location == h.spans[s].location
      && h'.spans[s].start == h.spans[s].start
      && h'.spans[s].length >= h.spans[s].length
      && Isolated(h'.spans, s, {})
  {
    hide Partition, PagemapOk, ListsOk, CountOk;
    TagAfter(h, s);
    var e := h.spans[s].start + h.spans[s].length;
    BoundaryAt(h.spans, h.pagemap, h.owner, s);
    if e in h.pagemap && h.spans[h.pagemap[e]].location == h.spans[s].location {
      var q := h.pagemap[e];
      SpanShape(h.spans, h.owner, q);
      DetachKeeps(h, q, {s});
      assert {} + {s} + {q} == {s} + {q} && {} + {s} == {s};
      AbsorbNextKeeps(Detach(h, q), s, q, {});
      forall r | r in h.spans && r != s && r != q
        ensures !Touching(h.spans[q], h.spans[r])
      {
      }
    }
  }

  lemma MergeKeeps(h: Heap, s: SpanId)
    requires InvX(h, {s}) && s in h.spans && h.spans[s].Free()
    ensures Inv(Merge(h, s))
  {
    hide Partition, PagemapOk, ListsOk, CountOk, Coalesced, MergeLeft, MergeRight, Isolated;
    MergeLeftKeeps(h, s);
    MergeRightKeeps(MergeLeft(h, s), s);
    assert {} + {s} == {s};
    AttachKeeps(MergeRight(MergeLeft(h, s), s), s, {});
  }

  // -------------------------------------------- what clients of the heap see

  /** The spans that clients hold. */
  ghost function Client(spans: Spans): Spans {
    map s | s in spans && spans[s].location == InUse :: spans[s]
  }

  ghost predicate HasFree(spans: Spans, n: nat) {
    exists s :: s in spans && spans[s].Free() && spans[s].length >= n
  }

  lemma CutClient(spans: Spans, s: SpanId, n: nat, t: SpanId, where: Location)
    requires s in spans && 0 < n < spans[s].length && t !in spans && where != InUse && spans[s].location == InUse
    ensures Client(CutSpans(spans, s, n, t, where)) == Client(spans)[s := spans[s].(length := n)]
  {
  }

  lemma RelabelInUse(spans: Spans, s: SpanId, d: Span)
    requires s in spans && spans[s].Free() && d.location == InUse
    ensures Client(spans[s := d]) == Client(spans)[s := d]
  {
  }

  lemma CarveClient(h: Heap, s: SpanId, n: nat, t: SpanId)
    requires s in h.spans && h.spans[s].Free() && 0 < n <= h.spans[s].length && t !in h.spans && ListsShaped(h)
    ensures Client(Carve(h, s, n, t).spans) == Client(h.spans)[s := Span(h.spans[s].start, n, InUse, 0)]
    ensures Carve(h, s, n, t).owner.Keys == h.owner.Keys
  {
    hide Client;
    var h1 := Relabel(Detach(h, s), s, InUse, 0);
    RelabelInUse(h.spans, s, h1.spans[s]);
    if n < h.spans[s].length {
      CutClient(h1.spans, s, n, t, h.spans[s].location);
    }
  }

  /** Merging moves no page between clients, the system and the heap, counts the
      merged span once, and leaves a free span at least as long as before. */
  lemma MergeEffect(h: Heap, s: SpanId, n: nat)
    requires InvX(h, {s}) && s in h.spans && h.spans[s].Free()
    ensures var h' := Merge(h, s);
      && Client(h'.spans) == Client(h.spans)
      && h'.owner.Keys == h.owner.Keys && h'.lost == h.lost && h'.systemBytes == h.systemBytes
      && h'.freeBytes == h.freeBytes + (if h.spans[s].location == Normal then Bytes(h.spans[s].length) else 0)
      && h'.unmappedBytes == h.unmappedBytes + (if h.spans[s].location == Returned then Bytes(h.spans[s].length) else 0)
      && (HasFree(h.spans, n) ==> HasFree(h'.spans, n))
  {
    hide Partition, PagemapOk, ListsOk, CountOk, Coalesced, Merge;
    MergeLeftEffect(h, s, n);
    MergeLeftKeeps(h, s);
    var h1 := MergeLeft(h, s);
    MergeRightEffect(h1, s, n);
    MergeRightKeeps(h1, s);
    MergeUnfold(h, s);
  }

  lemma MergeUnfold(h: Heap, s: SpanId)
    requires s in h.spans && ListsShaped(h)
    ensures Merge(h, s) == Attach(MergeRight(MergeLeft(h, s), s), s)
  {
  }

  lemma JoinClient(spans: Spans, s: SpanId, q: SpanId, m: Span, n: nat)
    requires s in spans && q in spans && spans[s].Free() && spans[q].Free() && s != q
    requires m.Free() && m.length >= spans[s].length && m.length >= spans[q].length
    ensures Client((spans - {q})[s := m]) == Client(spans)
    ensures HasFree(spans, n) ==> HasFree((spans - {q})[s := m], n)
  {
    var spans' := (spans - {q})[s := m];
    if HasFree(spans, n) {
      var w :| w in spans && spans[w].Free() && spans[w].length >= n;
      assert var v := if w == q then s else w; v in spans' && spans'[v].Free() && spans'[v].length >= n;
    }
  }

  lemma MergeLeftEffect(h: Heap, s: SpanId, n: nat)
    requires InvX(h, {s}) && s in h.spans && h.spans[s].Free()
    ensures var h' := MergeLeft(h, s);
      && Client(h'.spans) == Client(h.spans)
      && h'.owner.Keys == h.owner.Keys && h'.lost == h.lost && h'.systemBytes == h.systemBytes
      && (s in h'.spans ==>
          && h'.freeBytes == h.freeBytes + (if h.spans[s].location == Normal
            then Bytes(h.spans[s].length - h'.spans[s].length) else 0)
          && h'.unmappedBytes == h.unmappedBytes + (if h.spans[s].location == Returned
            then Bytes(h.spans[s].length - h'.spans[s].length) else 0))
      && (HasFree(h.spans, n) ==> HasFree(h'.spans, n))
  {
    hide Partition, PagemapOk, ListsOk, CountOk, Coalesced, Client, HasFree;
    TagBefore(h, s);
    SpanShape(h.spans, h.owner, s);
    var h' := MergeLeft(h, s);
    if h' != h {
      JoinClient(h.spans, s, h.pagemap[h.spans[s].start - 1], h'.spans[s], n);
    }
  }

  lemma MergeRightEffect(h: Heap, s: SpanId, n: nat)
    requires InvX(h, {s}) && s in h.spans && h.spans[s].Free()
    ensures var h' := MergeRight(h, s);
      && Client(h'.spans) == Client(h.spans)
      && h'.owner.Keys == h.owner.Keys && h'.lost == h.lost && h'.systemBytes == h.systemBytes
      && (s in h'.spans ==>
          && h'.freeBytes == h.freeBytes + (if h.spans[s].location == Normal
            then Bytes(h.spans[s].length - h'.spans[s].length) else 0)
          && h'.unmappedBytes == h.unmappedBytes + (if h.spans[s].location == Returned
            then Bytes(h.spans[s].length - h'.spans[s].length) else 0))
      && (HasFree(h.spans, n) ==> HasFree(h'.spans, n))
  {
    hide Partition, PagemapOk, ListsOk, CountOk, Coalesced, Client, HasFree;
    TagAfter(h, s);
    var h' := MergeRight(h, s);
    if h' != h {
      JoinClient(h.spans, s, h.pagemap[h.spans[s].start + h.spans[s].length], h'.spans[s], n);
    }
  }

  // ---------------------------------------------------------- Delete, release

  /** Delete: the span becomes a normal free span and coalesces. */
  function Delete(h: Heap, s: SpanId): Heap
    requires s in h.spans && ListsShaped(h)
  {
    Merge(Relabel(h, s, Normal, 0), s)
  }

  lemma DeleteKeeps(h: Heap, s: SpanId, n: nat)
    requires Inv(h) && s in h.spans && h.spans[s].location == InUse
    ensures var h' := Delete(h, s);
      && Inv(h')
      && Client(h'.spans) == Client(h.spans) - {s}
      && h'.owner.Keys == h.owner.Keys && h'.lost == h.lost && h'.systemBytes == h.systemBytes
      && h'.freeBytes == h.freeBytes + Bytes(h.spans[s].length) && h'.unmappedBytes == h.unmappedBytes
      && (HasFree(h.spans, n) || h.spans[s].length >= n ==> HasFree(h'.spans, n))
  {
    hide Partition, PagemapOk, ListsOk, CountOk, Coalesced, Merge;
    TransitIrrelevant(h, s, {});
    assert {} + {s} == {s};
    RelabelKeeps(h, s, Normal, {s});
    var h1 := Relabel(h, s, Normal, 0);
    RelabelClient(h.spans, s, h1.spans[s], n);
    MergeKeeps(h1, s);
    hide HasFree, Client;
    MergeEffect(h1, s, n);
  }

  lemma RelabelClient(spans: Spans, s: SpanId, d: Span, n: nat)
    requires s in spans && d.Free() && d.length == spans[s].length
    ensures Client(spans[s := d]) == Client(spans) - {s}
    ensures HasFree(spans, n) || d.length >= n ==> HasFree(spans[s := d], n)
  {
    if HasFree(spans, n) {
      var w :| w in spans && spans[w].Free() && spans[w].length >= n;
      assert w in spans[s := d] && spans[s := d][w].Free() && spans[s := d][w].length >= n;
    }
    assert d.length >= n ==> spans[s := d][s].length >= n;
  }

  /** The accepted part of ReleaseLastNormalSpan: a normal free span is returned
      to the system and coalesces with its returned neighbours. */
  function Return(h: Heap, s: SpanId): Heap
    requires s in h.spans && ListsShaped(h)
  {
    Merge(Relabel(Detach(h, s), s, Returned, 0), s)
  }

  lemma ReturnKeeps(h: Heap, s: SpanId, n: nat)
    requires Inv(h) && s in h.spans && h.spans[s].location == Normal
    ensures var h' := Return(h, s);
      && Inv(h')
      && Client(h'.spans) == Client(h.spans)
      && h'.owner.Keys == h.owner.Keys && h'.lost == h.lost && h'.systemBytes == h.systemBytes
      && h'.freeBytes == h.freeBytes - Bytes(h.spans[s].length)
      && h'.unmappedBytes == h.unmappedBytes + Bytes(h.spans[s].length)
      && (HasFree(h.spans, n) ==> HasFree(h'.spans, n))
  {
    hide Partition, PagemapOk, ListsOk, CountOk, Coalesced, Merge;
    var h1 := Detach(h, s);
    DetachKeeps(h, s, {});
    assert {} + {s} == {s};
    RelabelKeeps(h1, s, Returned, {s});
    var h2 := Relabel(h1, s, Returned, 0);
    RelabelClient(h1.spans, s, h2.spans[s], n);
    assert Client(h1.spans) - {s} == Client(h.spans);
    MergeKeeps(h2, s);
    hide HasFree, Client;
    MergeEffect(h2, s, n);
  }

  /** What is normal in `a` was the same in `b`. */
  ghost predicate SameNormal(b: Spans, a: Spans, u: SpanId) {
    u in a && a[u].location == Normal ==> u in b && b[u] == a[u]
  }

  /** A merge among returned spans leaves the normal ones alone. */
  lemma MergeLeftNormals(h: Heap, s: SpanId, u: SpanId)
    requires s in h.spans && ListsShaped(h) && h.spans[s].location == Returned
    ensures var h' := MergeLeft(h, s);
      s in h'.spans && ListsShaped(h') && h'.spans[s].location == Returned && SameNormal(h.spans, h'.spans, u)
  {
    hide JoinOwner;
  }

  lemma MergeRightNormals(h: Heap, s: SpanId, u: SpanId)
    requires s in h.spans && ListsShaped(h) && h.spans[s].location == Returned
    ensures var h' := MergeRight(h, s);
      s in h'.spans && ListsShaped(h') && h'.spans[s].location == Returned && SameNormal(h.spans, h'.spans, u)
  {
    hide JoinOwner;
  }

  lemma ReturnNormals(h: Heap, s: SpanId, u: SpanId)
    requires s in h.spans && ListsShaped(h)
    ensures SameNormal(h.spans, Return(h, s).spans, u)
  {
    var h1 := Relabel(Detach(h, s), s, Returned, 0);
    MergeLeftNormals(h1, s, u);
    MergeRightNormals(MergeLeft(h1, s), s, u);
    hide MergeLeft, MergeRight;
  }

  // -------------------------------------------------- growth and size classes

  /** A fresh run of pages from the system, held as a span in use. */
  function AddRun(h: Heap, p: nat, n: nat, s: SpanId): Heap
    requires n > 0
  {
    h.(spans := h.spans[s := Span(p, n, InUse, 0)],
       pagemap := h.pagemap[p := s][p + n - 1 := s],
       owner := PutRange(h.owner, p, n, s),
       systemBytes := h.systemBytes + Bytes(n))
  }

  ghost predicate Unmanaged(owner: map<nat, SpanId>, p: nat, n: nat) {
    forall q :: p <= q < p + n ==> q !in owner
  }

  /** `m` with the pages `p .. p + n - 1` mapped to `s`. */
  function PutRange(m: map<nat, SpanId>, p: nat, n: nat, s: SpanId): (r: map<nat, SpanId>)
    ensures forall q :: q in r <==> q in m || p <= q < p + n
    ensures forall q :: p <= q < p + n ==> r[q] == s
    ensures forall q :: q in m && !(p <= q < p + n) ==> r[q] == m[q]
  {
    m + (map q | q in Range(p, n) :: s)
  }

  /** Pages obtained from the system that the page map had no room for. */
  function Lose(h: Heap, n: nat): Heap {
    h.(systemBytes := h.systemBytes + Bytes(n), lost := h.lost + n)
  }

  lemma PutRangeSize(m: map<nat, SpanId>, p: nat, n: nat, s: SpanId)
    requires Unmanaged(m, p, n)
    ensures |PutRange(m, p, n, s)| == |m| + n
  {
    var r := PutRange(m, p, n, s);
    assert r.Keys == m.Keys + Range(p, n);
    assert |r| == |r.Keys| && |m| == |m.Keys|;
  }

  lemma AddRunPartition(spans: Spans, owner: map<nat, SpanId>, p: nat, n: nat, s: SpanId)
    requires Partition(spans, owner) && n > 0 && p > 0 && s !in spans && Unmanaged(owner, p, n)
    ensures Partition(spans[s := Span(p, n, InUse, 0)], PutRange(owner, p, n, s))
  {
    hide Disjoint, Covering, PutRange;
    AddRunDisjoint(spans, owner, p, n, s);
    AddRunCovering(spans, owner, p, n, s);
  }

  lemma AddRunDisjoint(spans: Spans, owner: map<nat, SpanId>, p: nat, n: nat, s: SpanId)
    requires Disjoint(spans, owner) && s !in spans && Unmanaged(owner, p, n)
    ensures Disjoint(spans[s := Span(p, n, InUse, 0)], PutRange(owner, p, n, s))
  {
    hide PutRange;
    var spans', owner' := spans[s := Span(p, n, InUse, 0)], PutRange(owner, p, n, s);
    forall r, q | r in spans' && spans'[r].Covers(q)
      ensures q in owner' && owner'[q] == r
    {
      if r != s {
        assert spans[r].Covers(q);
      }
    }
  }

  lemma AddRunCovering(spans: Spans, owner: map<nat, SpanId>, p: nat, n: nat, s: SpanId)
    requires Covering(spans, owner) && s !in spans
    ensures Covering(spans[s := Span(p, n, InUse, 0)], PutRange(owner, p, n, s))
  {
    hide PutRange;
    var spans', owner' := spans[s := Span(p, n, InUse, 0)], PutRange(owner, p, n, s);
    forall q | q in owner'
      ensures owner'[q] in spans' && spans'[owner'[q]].Covers(q)
    {
      if p <= q < p + n {
      } else {
        assert owner'[q] == owner[q];
      }
    }
  }

  lemma AddRunPagemap(spans: Spans, pagemap: map<nat, SpanId>, owner: map<nat, SpanId>, p: nat, n: nat, last: nat,
                      s: SpanId)
    requires Disjoint(spans, owner) && PagemapOk(spans, pagemap, owner)
    requires n > 0 && p > 0 && last == p + n - 1 && s !in spans && Unmanaged(owner, p, n)
    ensures PagemapOk(spans[s := Span(p, n, InUse, 0)], pagemap[p := s][last := s], PutRange(owner, p, n, s))
  {
    hide PutRange;
    var spans', pagemap', owner' := spans[s := Span(p, n, InUse, 0)], pagemap[p := s][last := s],
      PutRange(owner, p, n, s);
    forall r | r in spans'
      ensures BoundaryOk(spans'[r], r, pagemap')
    {
      if r != s {
        BoundaryAt(spans, pagemap, owner, r);
      }
    }
    forall r, q: nat | r in spans' && spans'[r].sizeclass > 0 && spans'[r].Covers(q)
      ensures q in pagemap' && pagemap'[q] == r
    {
      assert spans[r].Covers(q);
    }
  }

  lemma PartitionDisjoint(spans: Spans, owner: map<nat, SpanId>)
    requires Partition(spans, owner)
    ensures Disjoint(spans, owner)
  {
  }

  lemma AddRunPages(spans: Spans, owner: map<nat, SpanId>, p: nat, n: nat, s: SpanId, where: Location)
    requires Unmanaged(owner, p, n) && where != InUse && s !in spans
    ensures PagesAt(spans[s := Span(p, n, InUse, 0)], PutRange(owner, p, n, s), where, {}) == PagesAt(spans, owner,
            where, {})
  {
    hide PutRange;
  }

  lemma AddRunLists(spans: Spans, lists: Lists, d: Span, s: SpanId, where: Location)
    requires ListsOk(spans, lists, where, {}) && s !in spans && d.location == InUse && where != InUse
    ensures ListsOk(spans[s := d], lists, where, {})
  {
    hide NoDup;
    assert forall i: nat, t :: Belongs(spans[s := d], t, i, where, {}) <==> Belongs(spans, t, i, where, {});
  }

  lemma AddRunKeeps(h: Heap, p: nat, n: nat, s: SpanId)
    requires Inv(h) && n > 0 && p > 0 && s !in h.spans && Unmanaged(h.owner, p, n)
    ensures Inv(AddRun(h, p, n, s))
  {
    hide Partition, Disjoint, PagemapOk, ListsOk, PagesAt, PutRange;
    PutRangeSize(h.owner, p, n, s);
    AddRunPartition(h.spans, h.owner, p, n, s);
    PartitionDisjoint(h.spans, h.owner);
    AddRunPagemap(h.spans, h.pagemap, h.owner, p, n, p + n - 1, s);
    AddRunLists(h.spans, h.normal, Span(p, n, InUse, 0), s, Normal);
    AddRunLists(h.spans, h.returned, Span(p, n, InUse, 0), s, Returned);
    AddRunPages(h.spans, h.owner, p, n, s, Normal);
    AddRunPages(h.spans, h.owner, p, n, s, Returned);
  }

  /** RegisterSizeClass: every page of the span names it, not only the ends. */
  function Register(h: Heap, s: SpanId, sc: nat): Heap
    requires s in h.spans
  {
    var d := h.spans[s];
    h.(spans := h.spans[s := d.(sizeclass := sc)],
       pagemap := PutRange(h.pagemap, d.start, d.length, s))
  }

  lemma RegisterPagemap(h: Heap, s: SpanId, sc: nat)
    requires Partition(h.spans, h.owner) && PagemapOk(h.spans, h.pagemap, h.owner)
    requires s in h.spans && h.spans[s].location == InUse
    ensures var h' := Register(h, s, sc); PagemapOk(h'.spans, h'.pagemap, h'.owner)
  {
    hide Partition, PutRange;
    var h' := Register(h, s, sc);
    var d := h.spans[s];
    SpanShape(h.spans, h.owner, s);
    forall q: nat | d.start <= q < d.start + d.length
      ensures q in h.owner && h.owner[q] == s
    {
      OwnedAt(h.spans, h.owner, s, q);
    }
    forall r | r in h'.spans && r != s
      ensures BoundaryOk(h'.spans[r], r, h'.pagemap)
    {
      BoundaryAt(h.spans, h.pagemap, h.owner, r);
      SpanShape(h.spans, h.owner, r);
      OwnedAt(h.spans, h.owner, r, h.spans[r].start);
      OwnedAt(h.spans, h.owner, r, h.spans[r].start + h.spans[r].length - 1);
    }
    forall r, q | r in h'.spans && h'.spans[r].sizeclass > 0 && h'.spans[r].Covers(q)
      ensures q in h'.pagemap && h'.pagemap[q] == r
    {
      if r != s {
        OwnedAt(h.spans, h.owner, r, q);
      }
    }
  }

  lemma RegisterKeeps(h: Heap, s: SpanId, sc: nat)
    requires Inv(h) && s in h.spans && h.spans[s].location == InUse
    ensures Inv(Register(h, s, sc))
  {
    hide Partition, PagemapOk, ListsOk, PutRange, CountOk, Coalesced;
    var h' := Register(h, s, sc);
    RegisterPagemap(h, s, sc);
    RelabelPartition(h.spans, h'.spans, h.owner);
    TransitIrrelevant(h, s, {});
    TransitStep(h, h', {} + {s});
    TransitIrrelevant(h', s, {});
  }

  // -------------------------------------------------------------------- Split

  lemma SplitKeeps(h: Heap, s: SpanId, n: nat, t: SpanId)
    requires Inv(h) && s in h.spans && 0 < n < h.spans[s].length && t !in h.spans
    requires h.spans[s].location == InUse && h.spans[s].sizeclass == 0
    ensures var h' := CutAt(h, s, n, t, InUse);
      && Inv(h')
      && Client(h'.spans) == Client(h.spans)[s := h'.spans[s]][t := h'.spans[t]]
      && h'.owner.Keys == h.owner.Keys
  {
    hide Partition, PagemapOk, ListsOk, CountOk, Coalesced;
    var h' := CutAt(h, s, n, t, InUse);
    TransitIrrelevant(h, s, {});
    CutKeeps(h, s, n, t, InUse, {});
    TransitIrrelevant(h', t, {} + {s});
    TransitIrrelevant(h', s, {});
    SplitClient(h.spans, s, n, t);
  }

  lemma SplitClient(spans: Spans, s: SpanId, n: nat, t: SpanId)
    requires s in spans && 0 < n < spans[s].length && t !in spans && spans[s].location == InUse
    ensures var spans' := CutSpans(spans, s, n, t,
            InUse); Client(spans') == Client(spans)[s := spans'[s]][t := spans'[t]]
  {
  }

  // ---------------------------------------------- what eager coalescing buys

  /** Every page of the run is managed and on a span of kind `where`. */
  ghost predicate RunAt(h: Heap, lo: nat, n: nat, where: Location) {
    forall p :: lo <= p < lo + n ==> p in h.owner && h.owner[p] in h.spans && h.spans[h.owner[p]].location == where
  }

  /** Every page of the run is managed and free, of either kind. */
  ghost predicate FreeRun(h: Heap, lo: nat, n: nat) {
    forall p :: lo <= p < lo + n ==> p in h.owner && h.owner[p] in h.spans && h.spans[h.owner[p]].Free()
  }

  /** A run of contiguous free pages of one kind always lies in one span. */
  lemma RunInOneSpan(h: Heap, lo: nat, n: nat, where: Location)
    requires Partition(h.spans, h.owner) && Coalesced(h.spans, {}) && n > 0 && where != InUse && RunAt(h, lo, n, where)
    ensures var s := h.owner[lo]; h.spans[s].start <= lo && lo + n <= h.spans[s].start + h.spans[s].length
  {
    var s := h.owner[lo];
    var d := h.spans[s];
    assert d.Covers(lo);
    OwnerAfter(h.spans, h.owner, s);
    forall t | t in h.spans && h.spans[t].start == d.start + d.length
      ensures h.spans[t].location != where
    {
      assert !Touching(d, h.spans[t]);
    }
  }

  /** Once every free page has been returned to the system, a run of n contiguous
      free pages exists exactly when some free span has n pages. */
  lemma FreeRunIffSpan(h: Heap, n: nat)
    requires Inv(h) && h.freeBytes == 0 && n > 0
    ensures HasFree(h.spans, n) <==> exists lo :: FreeRun(h, lo, n)
  {
    hide PagemapOk, ListsOk;
    if HasFree(h.spans, n) {
      var s :| s in h.spans && h.spans[s].Free() && h.spans[s].length >= n;
      var lo := h.spans[s].start;
      forall p | lo <= p < lo + n
        ensures p in h.owner && h.owner[p] == s
      {
        assert h.spans[s].Covers(p);
      }
      assert FreeRun(h, lo, n);
    }
    if lo :| FreeRun(h, lo, n) {
      FreeRunFits(h, lo, n);
    }
  }

  lemma FreeRunFits(h: Heap, lo: nat, n: nat)
    requires Inv(h) && h.freeBytes == 0 && n > 0 && FreeRun(h, lo, n)
    ensures HasFree(h.spans, n)
  {
    hide PagemapOk, ListsOk, Disjoint, Covering;
    assert PagesAt(h.spans, h.owner, Normal, {}) == {};
    forall p | lo <= p < lo + n
      ensures h.spans[h.owner[p]].location == Returned
    {
      assert p !in PagesAt(h.spans, h.owner, Normal, {});
    }
    RunInOneSpan(h, lo, n, Returned);
    var s := h.owner[lo];
    assert s in h.spans && h.spans[s].Free() && h.spans[s].length >= n;
  }

}
