/** The page-to-sizeclass cache while threads allocate, free and size objects: the
    cache is read and written without a lock, yet never misleads for a live object. */
module SizeClassCache {
  import PackedCaches

  type Page = nat
  type Object = nat
  type SpanId = nat
  type Tid = nat

  /** Pages are 2^13 bytes. */
  function PageOf(a: Object): Page {
    a / 8192
  }

  function FirstByte(p: Page): Object {
    p * 8192
  }

  /** sizeclass 0 is a span that is one large object.  A span is `ready` once the
      thread that allocated it has written the cache for it. */
  datatype Span = Span(start: Page, length: nat, sizeclass: nat, ready: bool)

  /** Who holds an object: a client, a free list, or a thread inside free().  While its
      size is asked for, by any number of threads, an object stays with its client. */
  datatype Place = Client | FreeList | Hand(tid: Tid)

  /** Where a thread is.  `release` says whether it frees the object or only asks for
      its size. */
  datatype Thread =
    | Idle
    | GotLarge(span: SpanId)
    | Populating(span: SpanId, done: nat)
    | Looking(obj: Object, release: bool)
    | Missed(obj: Object, release: bool)
    | Described(obj: Object, release: bool, cl: nat)
    | Knowing(obj: Object, release: bool, cl: nat)

  datatype State = State(spans: map<SpanId, Span>, places: map<Object, Place>, cache: map<Page, nat>, threads: map<Tid,
    Thread>)

  predicate Inside(s: Span, p: Page) {
    s.start <= p < s.start + s.length
  }

  /** Object a lives in span id; a large object is the start of its span. */
  predicate At(spans: map<SpanId, Span>, a: Object, id: SpanId) {
    && id in spans && Inside(spans[id], PageOf(a))
    && (spans[id].sizeclass == 0 ==> a == FirstByte(spans[id].start))
  }

  /** A cache write: the pair is there afterwards, other pairs may be lost. */
  predicate Puts(cache: map<Page, nat>, cache': map<Page, nat>, p: Page, cl: nat) {
    && p in cache' && cache'[p] == cl
    && forall q :: q in cache' && q != p ==> q in cache && cache'[q] == cache[q]
  }

  /** The packed cache's write is such a write. */
  lemma PackedPut(layout: PackedCaches.Layout, cache: map<Page, nat>, p: Page, cl: nat)
    ensures Puts(cache, PackedCaches.OtherSlots(layout, cache, p)[p := cl], p, cl)
  {
  }

  /** The cache says nothing about p, or that its class is cl. */
  predicate NotMisleading(cache: map<Page, nat>, p: Page, cl: nat) {
    p in cache ==> cache[p] == 0 || cache[p] == cl
  }

  ghost predicate Unmapped(spans: map<SpanId, Span>, start: Page, n: nat) {
    forall id, p: Page :: id in spans && Inside(spans[id], p) ==> !(start <= p < start + n)
  }

  // --------------------------------------------------------------------- steps

  /** PageHeap::New for a large object. */
  ghost predicate AllocLarge(s: State, s': State, t: Tid, id: SpanId, start: Page, n: nat) {
    && t in s.threads && s.threads[t].Idle? && id !in s.spans && n > 0 && Unmapped(s.spans, start, n)
    && s' == s.(spans := s.spans[id := Span(start, n, 0, false)], threads := s.threads[t := GotLarge(id)])
  }

  /** SpanToMallocResult: the page is marked unknown and the object handed out. */
  ghost predicate HandLarge(s: State, s': State, t: Tid, cache': map<Page, nat>) {
    && t in s.threads && s.threads[t].GotLarge?
    && var id := s.threads[t].span;
    && id in s.spans && Puts(s.cache, cache', s.spans[id].start, 0)
    && s' == State(s.spans[id := s.spans[id].(ready := true)], s.places[FirstByte(s.spans[id].start) := Client],
                   cache', s.threads[t := Idle])
  }

  /** Populate: a span is allocated and registered for a size class. */
  ghost predicate AllocSmall(s: State, s': State, t: Tid, id: SpanId, start: Page, n: nat, cl: nat) {
    && t in s.threads && s.threads[t].Idle? && id !in s.spans && n > 0 && cl > 0 && Unmapped(s.spans, start, n)
    && s' == s.(spans := s.spans[id := Span(start, n, cl, false)], threads := s.threads[t := Populating(id, 0)])
  }

  /** Populate's loop writes the cache for one page after the other. */
  ghost predicate CachePage(s: State, s': State, t: Tid, cache': map<Page, nat>) {
    && t in s.threads && s.threads[t].Populating?
    && var id, k := s.threads[t].span, s.threads[t].done;
    && id in s.spans && k < s.spans[id].length && Puts(s.cache, cache', s.spans[id].start + k, s.spans[id].sizeclass)
    && s' == s.(cache := cache', threads := s.threads[t := Populating(id, k + 1)])
  }

  /** Then the span's objects go to the free lists. */
  ghost predicate CutObjects(s: State, s': State, t: Tid, objs: set<Object>) {
    && t in s.threads && s.threads[t].Populating?
    && var id := s.threads[t].span;
    && id in s.spans && s.threads[t].done == s.spans[id].length
    && (forall a :: a in objs ==> Inside(s.spans[id], PageOf(a)))
    && s' == s.(spans := s.spans[id := s.spans[id].(ready := true)],
                places := s.places + map a | a in objs :: FreeList, threads := s.threads[t := Idle])
  }

  /** An object of a free list is handed to a client. */
  ghost predicate Take(s: State, s': State, a: Object) {
    a in s.places && s.places[a] == FreeList && s' == s.(places := s.places[a := Client])
  }

  /** The thread is asking for the size of object a. */
  predicate Queries(th: Thread, a: Object) {
    (th.Looking? || th.Missed? || th.Described? || th.Knowing?) && th.obj == a && !th.release
  }

  /** A client passes its object to free(), which it does not do while it still asks for
      the object's size, or to a size query. */
  ghost predicate Begin(s: State, s': State, t: Tid, a: Object, release: bool) {
    && t in s.threads && s.threads[t].Idle? && a in s.places && s.places[a] == Client
    && (release ==> forall u :: u in s.threads ==> !Queries(s.threads[u], a))
    && s' == s.(places := s.places[a := Holder(t, release)], threads := s.threads[t := Looking(a, release)])
  }

  /** Where an object is while thread t frees it or asks for its size. */
  function Holder(t: Tid, release: bool): Place {
    if release then Hand(t) else Client
  }

  /** GetSizeClassIfCached. */
  ghost predicate Look(s: State, s': State, t: Tid) {
    && t in s.threads && s.threads[t].Looking?
    && var a, release := s.threads[t].obj, s.threads[t].release;
    && var cl := if PageOf(a) in s.cache then s.cache[PageOf(a)] else 0;
    && s' == s.(threads := s.threads[t := if cl == 0 then Missed(a, release) else Knowing(a, release, cl)])
  }

  /** GetDescriptor, and the class it records. */
  ghost predicate Describe(s: State, s': State, t: Tid, id: SpanId) {
    && t in s.threads && s.threads[t].Missed?
    && id in s.spans && Inside(s.spans[id], PageOf(s.threads[t].obj))
    && s' == s.(threads := s.threads[t := Described(s.threads[t].obj, s.threads[t].release, s.spans[id].sizeclass)])
  }

  /** CacheSizeClass; a size query does not record class 0. */
  ghost predicate Record(s: State, s': State, t: Tid, cache': map<Page, nat>) {
    && t in s.threads && s.threads[t].Described?
    && var a, release, cl := s.threads[t].obj, s.threads[t].release, s.threads[t].cl;
    && (if release || cl != 0 then Puts(s.cache, cache', PageOf(a), cl) else cache' == s.cache)
    && s' == s.(cache := cache', threads := s.threads[t := Knowing(a, release, cl)])
  }

  /** The size query returns, or the small object goes to the free list of its class. */
  ghost predicate Return(s: State, s': State, t: Tid) {
    && t in s.threads && s.threads[t].Knowing? && (!s.threads[t].release || s.threads[t].cl != 0)
    && var a := s.threads[t].obj;
    && s' == s.(places := s.places[a := if s.threads[t].release then FreeList
      else Client], threads := s.threads[t := Idle])
  }

  /** A large object's span is deleted. */
  ghost predicate DeleteLarge(s: State, s': State, t: Tid, id: SpanId) {
    && t in s.threads && s.threads[t].Knowing? && s.threads[t].release && s.threads[t].cl == 0
    && var a := s.threads[t].obj;
    && id in s.spans && Inside(s.spans[id], PageOf(a))
    && s' == s.(spans := s.spans - {id}, places := s.places - {a}, threads := s.threads[t := Idle])
  }

  /** A span whose objects are all free is deleted. */
  ghost predicate DeleteSmall(s: State, s': State, id: SpanId, objs: set<Object>) {
    && id in s.spans && s.spans[id].ready && s.spans[id].sizeclass > 0
    && (forall a :: a in objs <==> a in s.places && Inside(s.spans[id], PageOf(a)))
    && (forall a :: a in objs ==> s.places[a] == FreeList)
    && s' == s.(spans := s.spans - {id}, places := s.places - objs)
  }

  ghost predicate Step(s: State, s': State) {
    || (exists t, id, start, n :: AllocLarge(s, s', t, id, start, n))
    || (exists t, cache' :: HandLarge(s, s', t, cache'))
    || (exists t, id, start, n, cl :: AllocSmall(s, s', t, id, start, n, cl))
    || (exists t, cache' :: CachePage(s, s', t, cache'))
    || (exists t, objs :: CutObjects(s, s', t, objs))
    || (exists a :: Take(s, s', a))
    || (exists t, a, release :: Begin(s, s', t, a, release))
    || (exists t :: Look(s, s', t))
    || (exists t, id :: Describe(s, s', t, id))
    || (exists t, cache' :: Record(s, s', t, cache'))
    || (exists t :: Return(s, s', t))
    || (exists t, id :: DeleteLarge(s, s', t, id))
    || (exists id, objs :: DeleteSmall(s, s', id, objs))
  }

  /** Nothing is allocated, and the cache says "unknown" wherever it says anything. */
  ghost predicate Init(s: State) {
    && s.spans == map[] && s.places == map[] && (forall p :: p in s.cache ==> s.cache[p] == 0)
    && forall t :: t in s.threads ==> s.threads[t].Idle?
  }

  ghost predicate IsRun(run: seq<State>) {
    run != [] && Init(run[0]) && forall i :: 0 <= i < |run| - 1 ==> Step(run[i], run[i + 1])
  }

  // ----------------------------------------------------------------- invariant

  ghost predicate Disjoint(spans: map<SpanId, Span>) {
    forall i, j, p: Page :: i in spans && j in spans && Inside(spans[i], p) && Inside(spans[j], p) ==> i == j
  }

  /** Object a lives in the ready span id, and the cache does not mislead about it. */
  ghost predicate Good(spans: map<SpanId, Span>, cache: map<Page, nat>, a: Object, id: SpanId) {
    At(spans, a, id) && spans[id].ready && NotMisleading(cache, PageOf(a), spans[id].sizeclass)
  }

  ghost predicate Homes(spans: map<SpanId, Span>, places: map<Object, Place>, cache: map<Page, nat>) {
    forall a :: a in places ==> exists id :: Good(spans, cache, a, id)
  }

  ghost predicate HasClass(spans: map<SpanId, Span>, a: Object, cl: nat) {
    exists id :: At(spans, a, id) && spans[id].sizeclass == cl
  }

  ghost predicate WrittenUpTo(spans: map<SpanId, Span>, cache: map<Page, nat>, id: SpanId, k: nat)
    requires id in spans
  {
    forall p: Page :: spans[id].start <= p < spans[id].start + k ==> NotMisleading(cache, p, spans[id].sizeclass)
  }

  ghost predicate ThreadOk(s: State, t: Tid)
    requires t in s.threads
  {
    match s.threads[t]
    case Idle => true
    case GotLarge(id) => id in s.spans && !s.spans[id].ready && s.spans[id].sizeclass == 0 && s.spans[id].length > 0
    case Populating(id, k) =>
      id in s.spans && !s.spans[id].ready && s.spans[id].sizeclass > 0 && k <= s.spans[id].length
      && WrittenUpTo(s.spans, s.cache, id, k)
    case Looking(a, release) => a in s.places && s.places[a] == Holder(t, release)
    case Missed(a, release) => a in s.places && s.places[a] == Holder(t, release)
    case Described(a, release, cl) => a in s.places && s.places[a] == Holder(t, release) && HasClass(s.spans, a, cl)
    case Knowing(a, release, cl) => a in s.places && s.places[a] == Holder(t, release) && HasClass(s.spans, a, cl)
  }

  predicate Builds(th: Thread, id: SpanId) {
    (th.GotLarge? || th.Populating?) && th.span == id
  }

  /** Only one thread prepares a given span. */
  ghost predicate OneBuilder(threads: map<Tid, Thread>) {
    forall t, u, id :: t in threads && u in threads && Builds(threads[t], id) && Builds(threads[u], id) ==> t == u
  }

  ghost predicate ThreadsOk(s: State) {
    forall t :: t in s.threads ==> ThreadOk(s, t)
  }

  ghost predicate Inv(s: State) {
    Disjoint(s.spans) && Homes(s.spans, s.places, s.cache) && ThreadsOk(s) && OneBuilder(s.threads)
  }

  // ------------------------------------------------------------ cache writes

  /** A write that is right for its page's span misleads about no span. */
  lemma PutsKeeps(spans: map<SpanId, Span>, cache: map<Page, nat>, cache': map<Page, nat>, q: Page, id: SpanId, cl: nat)
    requires Disjoint(spans) && id in spans && Inside(spans[id], q) && (cl == 0 || cl == spans[id].sizeclass)
    requires Puts(cache, cache', q, cl)
    ensures forall i, p: Page :: i in spans && Inside(spans[i], p) && NotMisleading(cache, p, spans[i].sizeclass) ==>
              NotMisleading(cache', p, spans[i].sizeclass)
  {
  }

  lemma PutsHomes(spans: map<SpanId, Span>, places: map<Object, Place>, cache: map<Page, nat>, cache': map<Page, nat>,
                  q: Page, id: SpanId, cl: nat)
    requires Disjoint(spans) && id in spans && Inside(spans[id], q) && (cl == 0 || cl == spans[id].sizeclass)
    requires Puts(cache, cache', q, cl) && Homes(spans, places, cache)
    ensures Homes(spans, places, cache')
  {
    hide PageOf, FirstByte;
    PutsKeeps(spans, cache, cache', q, id, cl);
    forall a | a in places
      ensures exists i :: Good(spans, cache', a, i)
    {
      var i :| Good(spans, cache, a, i);
      assert Good(spans, cache', a, i);
    }
  }

  lemma PutsWritten(spans: map<SpanId, Span>, cache: map<Page, nat>, cache': map<Page, nat>, q: Page, id: SpanId,
                    cl: nat, i: SpanId, k: nat)
    requires Disjoint(spans) && id in spans && Inside(spans[id], q) && (cl == 0 || cl == spans[id].sizeclass)
    requires Puts(cache, cache', q, cl) && i in spans && k <= spans[i].length && WrittenUpTo(spans, cache, i, k)
    ensures WrittenUpTo(spans, cache', i, k)
  {
    PutsKeeps(spans, cache, cache', q, id, cl);
  }

  /** Every thread other than t stays as it was described, after a write by t. */
  lemma PutsThreads(s: State, s': State, t: Tid, q: Page, id: SpanId, cl: nat)
    requires ThreadsOk(s) && Disjoint(s.spans) && id in s.spans && Inside(s.spans[id], q) &&
             (cl == 0 || cl == s.spans[id].sizeclass)
    requires Puts(s.cache, s'.cache, q, cl) && s'.spans == s.spans && s'.places == s.places
    requires t in s.threads && t in s'.threads && s'.threads == s.threads[t := s'.threads[t]] && ThreadOk(s', t)
    ensures ThreadsOk(s')
  {
    hide PageOf, FirstByte, WrittenUpTo, Disjoint, Puts, HasClass;
    forall u | u in s'.threads
      ensures ThreadOk(s', u)
    {
      if u != t {
        assert ThreadOk(s, u);
        if s.threads[u].Populating? {
          PutsWritten(s.spans, s.cache, s'.cache, q, id, cl, s.threads[u].span, s.threads[u].done);
        }
      }
    }
  }

  // ------------------------------------------------------------------ new spans

  lemma AddedHomes(spans: map<SpanId, Span>, places: map<Object, Place>, cache: map<Page, nat>, id: SpanId, sp: Span)
    requires id !in spans && Homes(spans, places, cache)
    ensures Homes(spans[id := sp], places, cache)
  {
    hide PageOf, FirstByte, NotMisleading;
    var spans' := spans[id := sp];
    forall a | a in places
      ensures exists i :: Good(spans', cache, a, i)
    {
      var i :| Good(spans, cache, a, i);
      assert Good(spans', cache, a, i);
    }
  }

  lemma AddedClass(spans: map<SpanId, Span>, id: SpanId, sp: Span, a: Object, cl: nat)
    requires id !in spans && HasClass(spans, a, cl)
    ensures HasClass(spans[id := sp], a, cl)
  {
    hide PageOf, FirstByte;
    var i :| At(spans, a, i) && spans[i].sizeclass == cl;
    assert At(spans[id := sp], a, i);
  }

  lemma AddedThread(s: State, s': State, id: SpanId, sp: Span, u: Tid)
    requires u in s.threads && u in s'.threads && s'.threads[u] == s.threads[u] && ThreadOk(s, u)
    requires id !in s.spans && s'.spans == s.spans[id := sp] && s'.places == s.places && s'.cache == s.cache
    ensures ThreadOk(s', u) && !Builds(s.threads[u], id)
  {
    hide HasClass, NotMisleading;
    var th := s.threads[u];
    if th.Described? || th.Knowing? {
      AddedClass(s.spans, id, sp, th.obj, th.cl);
    }
  }

  /** A thread takes a new span to prepare. */
  lemma AddedKeeps(s: State, s': State, t: Tid, id: SpanId, sp: Span, th: Thread)
    requires Inv(s) && t in s.threads && id !in s.spans && !sp.ready && sp.length > 0 &&
             Unmapped(s.spans, sp.start, sp.length)
    requires s' == s.(spans := s.spans[id := sp], threads := s.threads[t := th])
    requires if sp.sizeclass == 0 then th == GotLarge(id) else th == Populating(id, 0)
    ensures Inv(s')
  {
    AddedHomes(s.spans, s.places, s.cache, id, sp);
    hide Homes, PageOf, FirstByte, HasClass, NotMisleading;
    assert Disjoint(s'.spans);
    hide Disjoint, Unmapped;
    forall u | u in s.threads
      ensures u != t ==> ThreadOk(s', u)
      ensures !Builds(s.threads[u], id)
    {
      assert ThreadOk(s, u);
      if u != t {
        AddedThread(s, s', id, sp, u);
      } else {
        NotBuilding(s, u, id);
      }
    }
    assert ThreadOk(s', t);
    assert OneBuilder(s'.threads);
  }

  lemma NotBuilding(s: State, u: Tid, id: SpanId)
    requires u in s.threads && ThreadOk(s, u) && (id !in s.spans || s.spans[id].ready)
    ensures !Builds(s.threads[u], id)
  {
  }

  // ---------------------------------------------------------------- ready spans

  /** Where the spans differ only in being ready, objects keep their class. */
  lemma ReadyClass(spans: map<SpanId, Span>, id: SpanId, a: Object, cl: nat)
    requires id in spans && HasClass(spans, a, cl)
    ensures HasClass(spans[id := spans[id].(ready := true)], a, cl)
  {
    hide PageOf, FirstByte;
    var i :| At(spans, a, i) && spans[i].sizeclass == cl;
    assert At(spans[id := spans[id].(ready := true)], a, i);
  }

  lemma ReadyHomes(spans: map<SpanId, Span>, places: map<Object, Place>, cache: map<Page, nat>, id: SpanId)
    requires id in spans && Homes(spans, places, cache)
    ensures Homes(spans[id := spans[id].(ready := true)], places, cache)
  {
    hide PageOf, FirstByte, NotMisleading;
    var spans' := spans[id := spans[id].(ready := true)];
    forall a | a in places
      ensures exists i :: Good(spans', cache, a, i)
    {
      var i :| Good(spans, cache, a, i);
      assert Good(spans', cache, a, i);
    }
  }

  /** Newly placed objects of a ready span about which the cache does not mislead. */
  lemma PlacedHomes(spans: map<SpanId, Span>, places: map<Object, Place>, places': map<Object, Place>,
                    cache: map<Page, nat>, id: SpanId)
    requires Homes(spans, places, cache)
    requires forall a :: a in places' ==> a in places || Good(spans, cache, a, id)
    ensures Homes(spans, places', cache)
  {
  }

  /** Thread u, which prepares another span, is not affected when span id is ready and
      objects are added that no thread holds. */
  lemma ReadyThread(s: State, s': State, id: SpanId, u: Tid)
    requires u in s.threads && u in s'.threads && s'.threads[u] == s.threads[u] && ThreadOk(s, u)
    requires id in s.spans && s'.spans == s.spans[id := s.spans[id].(ready := true)] && s'.cache == s.cache
    requires !Builds(s.threads[u], id)
    requires forall a :: a in s.places ==> a in s'.places && s'.places[a] == s.places[a]
    ensures ThreadOk(s', u)
  {
    hide HasClass, NotMisleading;
    var th := s.threads[u];
    if th.Described? || th.Knowing? {
      ReadyClass(s.spans, id, th.obj, th.cl);
    }
  }

  /** No object of a span that is not ready is anywhere yet. */
  lemma NoObjectYet(spans: map<SpanId, Span>, places: map<Object, Place>, cache: map<Page, nat>, id: SpanId, a: Object)
    requires Disjoint(spans) && Homes(spans, places, cache) && id in spans && !spans[id].ready &&
             Inside(spans[id], PageOf(a))
    ensures a !in places
  {
    hide PageOf, FirstByte;
  }

  lemma FirstBytePage(p: Page)
    ensures PageOf(FirstByte(p)) == p
  {
  }

  /** The thread that prepared span id becomes idle and the span ready, with objects
      that were nowhere before. */
  lemma ReadyKeeps(s: State, s': State, t: Tid, id: SpanId)
    requires Inv(s) && t in s.threads && id in s.spans && Builds(s.threads[t], id)
    requires s'.spans == s.spans[id := s.spans[id].(ready := true)] && s'.cache == s.cache &&
             s'.threads == s.threads[t := Idle]
    requires forall a :: a in s.places ==> a in s'.places && s'.places[a] == s.places[a]
    requires forall a :: a in s'.places ==> a in s.places || Good(s'.spans, s.cache, a, id)
    ensures Inv(s')
  {
    hide HasClass, NotMisleading, Good, Homes, PageOf;
    ReadyHomes(s.spans, s.places, s.cache, id);
    PlacedHomes(s'.spans, s.places, s'.places, s.cache, id);
    assert Disjoint(s'.spans);
    hide Disjoint;
    forall u | u in s'.threads
      ensures ThreadOk(s', u)
    {
      if u != t {
        assert ThreadOk(s, u);
        ReadyThread(s, s', id, u);
      }
    }
    assert OneBuilder(s'.threads);
  }

  lemma HandLargeKeeps(s: State, s': State, t: Tid, cache': map<Page, nat>)
    requires Inv(s) && HandLarge(s, s', t, cache')
    ensures Inv(s')
  {
    var id := s.threads[t].span;
    var sp := s.spans[id];
    assert ThreadOk(s, t);
    FirstBytePage(sp.start);
    hide PageOf, FirstByte;
    PutsHomes(s.spans, s.places, s.cache, cache', sp.start, id, 0);
    var m := s.(cache := cache');
    assert ThreadOk(m, t);
    PutsThreads(s, m, t, sp.start, id, 0);
    NoObjectYet(s.spans, s.places, s.cache, id, FirstByte(sp.start));
    assert Good(s'.spans, cache', FirstByte(sp.start), id);
    hide Homes, Disjoint, Puts, Good;
    ReadyKeeps(m, s', t, id);
  }

  lemma CachePageKeeps(s: State, s': State, t: Tid, cache': map<Page, nat>)
    requires Inv(s) && CachePage(s, s', t, cache')
    ensures Inv(s')
  {
    hide PageOf, FirstByte, HasClass;
    var id, k := s.threads[t].span, s.threads[t].done;
    var cl, q := s.spans[id].sizeclass, s.spans[id].start + k;
    assert ThreadOk(s, t);
    PutsHomes(s.spans, s.places, s.cache, cache', q, id, cl);
    PutsWritten(s.spans, s.cache, cache', q, id, cl, id, k);
    assert NotMisleading(cache', q, cl);
    assert WrittenUpTo(s.spans, cache', id, k + 1);
    hide Homes, Puts, WrittenUpTo, NotMisleading;
    assert ThreadOk(s', t);
    PutsThreads(s, s', t, q, id, cl);
    SameBuilder(s.threads, t, s'.threads[t]);
  }

  /** Replacing a thread by one that prepares at most the same span. */
  lemma SameBuilder(threads: map<Tid, Thread>, t: Tid, th: Thread)
    requires OneBuilder(threads) && t in threads && forall id :: Builds(th, id) ==> Builds(threads[t], id)
    ensures OneBuilder(threads[t := th])
  {
  }

  lemma CutObjectsKeeps(s: State, s': State, t: Tid, objs: set<Object>)
    requires Inv(s) && CutObjects(s, s', t, objs)
    ensures Inv(s')
  {
    hide PageOf, FirstByte, HasClass;
    var id := s.threads[t].span;
    assert ThreadOk(s, t);
    forall a | a in objs
      ensures a !in s.places && Good(s'.spans, s.cache, a, id)
    {
      NoObjectYet(s.spans, s.places, s.cache, id, a);
    }
    hide Homes, Disjoint, Good;
    ReadyKeeps(s, s', t, id);
  }

  // ---------------------------------------------------------- objects in motion

  /** An object changes hands: from or to thread t only. */
  lemma MovedKeeps(s: State, s': State, t: Tid, a: Object, place: Place, th: Thread)
    requires Inv(s) && t in s.threads && a in s.places
    requires s.places[a] == Hand(t) || !s.places[a].Hand?
    requires place == s.places[a] || forall u :: u in s.threads && u != t ==> !Queries(s.threads[u], a)
    requires s' == s.(places := s.places[a := place], threads := s.threads[t := th])
    requires ThreadOk(s', t) && !th.GotLarge? && !th.Populating?
    ensures Inv(s')
  {
    hide PageOf, FirstByte, HasClass, NotMisleading, Good, WrittenUpTo;
    assert Homes(s'.spans, s'.places, s'.cache);
    hide Homes;
    forall u | u in s'.threads
      ensures ThreadOk(s', u)
    {
      if u != t {
        assert ThreadOk(s, u);
      }
    }
    SameBuilder(s.threads, t, th);
  }

  /** Only an object that its client holds is asked for its size. */
  lemma NotQueried(s: State, a: Object)
    requires ThreadsOk(s) && a in s.places && s.places[a] != Client
    ensures forall u :: u in s.threads ==> !Queries(s.threads[u], a)
  {
    hide HasClass, WrittenUpTo;
    forall u | u in s.threads
      ensures !Queries(s.threads[u], a)
    {
      assert ThreadOk(s, u);
    }
  }

  lemma TakeKeeps(s: State, s': State, a: Object)
    requires Inv(s) && Take(s, s', a)
    ensures Inv(s')
  {
    hide PageOf, FirstByte, HasClass, NotMisleading, Good, WrittenUpTo;
    assert Homes(s'.spans, s'.places, s'.cache);
    hide Homes;
    forall u | u in s'.threads
      ensures ThreadOk(s', u)
    {
      assert ThreadOk(s, u);
    }
  }

  /** What a cache hit says about a placed object is its class. */
  lemma HitIsClass(s: State, a: Object)
    requires Inv(s) && a in s.places && PageOf(a) in s.cache && s.cache[PageOf(a)] != 0
    ensures HasClass(s.spans, a, s.cache[PageOf(a)])
  {
    hide PageOf, FirstByte;
    var id :| Good(s.spans, s.cache, a, id);
  }

  /** The span of an object's page is the object's span. */
  lemma DescriptorIsHome(s: State, a: Object, id: SpanId)
    requires Inv(s) && a in s.places && id in s.spans && Inside(s.spans[id], PageOf(a))
    ensures At(s.spans, a, id) && s.spans[id].ready && HasClass(s.spans, a, s.spans[id].sizeclass)
  {
    hide PageOf, FirstByte;
    var i :| Good(s.spans, s.cache, a, i);
    assert i == id;
  }

  lemma LookKeeps(s: State, s': State, t: Tid)
    requires Inv(s) && Look(s, s', t)
    ensures Inv(s')
  {
    var a := s.threads[t].obj;
    assert ThreadOk(s, t);
    if PageOf(a) in s.cache && s.cache[PageOf(a)] != 0 {
      HitIsClass(s, a);
    }
    hide PageOf, FirstByte, HasClass, Homes, Disjoint, WrittenUpTo;
    SamePlace(s.places, a);
    MovedKeeps(s, s', t, a, s.places[a], s'.threads[t]);
  }

  lemma SamePlace(places: map<Object, Place>, a: Object)
    requires a in places
    ensures places[a := places[a]] == places
  {
  }

  lemma DescribeKeeps(s: State, s': State, t: Tid, id: SpanId)
    requires Inv(s) && Describe(s, s', t, id)
    ensures Inv(s')
  {
    var a := s.threads[t].obj;
    assert ThreadOk(s, t);
    DescriptorIsHome(s, a, id);
    hide PageOf, FirstByte, HasClass, Homes, Disjoint, WrittenUpTo;
    SamePlace(s.places, a);
    MovedKeeps(s, s', t, a, s.places[a], s'.threads[t]);
  }

  lemma RecordKeeps(s: State, s': State, t: Tid, cache': map<Page, nat>)
    requires Inv(s) && Record(s, s', t, cache')
    ensures Inv(s')
  {
    hide PageOf, FirstByte, WrittenUpTo;
    var a, cl := s.threads[t].obj, s.threads[t].cl;
    assert ThreadOk(s, t);
    var id :| At(s.spans, a, id) && s.spans[id].sizeclass == cl;
    hide HasClass, At;
    if s.threads[t].release || cl != 0 {
      PutsHomes(s.spans, s.places, s.cache, cache', PageOf(a), id, cl);
      PutsThreads(s, s', t, PageOf(a), id, cl);
      SameBuilder(s.threads, t, s'.threads[t]);
    } else {
      SamePlace(s.places, a);
      MovedKeeps(s, s', t, a, s.places[a], s'.threads[t]);
    }
  }

  // ------------------------------------------------------------ removing spans

  /** A span goes, with all the objects in it; no other thread holds one of them or
      prepares the span. */
  lemma RemovedKeeps(s: State, s': State, id: SpanId, objs: set<Object>)
    requires Inv(s) && id in s.spans && s.spans[id].ready
    requires forall a :: a in s.places && At(s.spans, a, id) ==> a in objs
    requires s'.spans == s.spans - {id} && s'.places == s.places - objs && s'.cache == s.cache
    requires forall u :: u in s'.threads ==> u in s.threads && (s'.threads[u] == s.threads[u] || s'.threads[u] == Idle)
    requires forall u, a :: u in s'.threads && s'.threads[u] != Idle && a in objs && a in s.places ==>
      s.places[a] != Hand(u) && !Queries(s'.threads[u], a)
    ensures Inv(s')
  {
    hide Disjoint, Homes, Good;
    RemovedHomes(s.spans, s.places, s.cache, id, objs);
    forall u | u in s'.threads
      ensures ThreadOk(s', u)
    {
      assert ThreadOk(s, u);
      RemovedThread(s, s', id, objs, u);
    }
    assert OneBuilder(s'.threads);
  }

  lemma RemovedHomes(
    spans: map<SpanId, Span>, places: map<Object, Place>, cache: map<Page, nat>, id: SpanId, objs: set<Object>)
    requires Disjoint(spans) && Homes(spans, places, cache) && id in spans
    requires forall a :: a in places && At(spans, a, id) ==> a in objs
    ensures Disjoint(spans - {id}) && Homes(spans - {id}, places - objs, cache)
  {
    hide PageOf, FirstByte, NotMisleading;
    forall a | a in places - objs
      ensures exists i :: Good(spans - {id}, cache, a, i)
    {
      var i :| Good(spans, cache, a, i);
      assert Good(spans - {id}, cache, a, i);
    }
  }

  lemma RemovedThread(s: State, s': State, id: SpanId, objs: set<Object>, u: Tid)
    requires u in s.threads && u in s'.threads && ThreadOk(s, u) && id in s.spans && s.spans[id].ready
    requires forall a :: a in s.places && At(s.spans, a, id) ==> a in objs
    requires s'.spans == s.spans - {id} && s'.places == s.places - objs && s'.cache == s.cache
    requires s'.threads[u] == s.threads[u] || s'.threads[u] == Idle
    requires forall a :: s'.threads[u] != Idle && a in objs && a in s.places ==>
      s.places[a] != Hand(u) && !Queries(s'.threads[u], a)
    ensures ThreadOk(s', u)
  {
    hide PageOf, FirstByte, NotMisleading;
    var th := s'.threads[u];
    if th.Described? || th.Knowing? {
      var i :| At(s.spans, th.obj, i) && s.spans[i].sizeclass == th.cl;
      assert At(s'.spans, th.obj, i);
    }
  }

  lemma DeleteLargeKeeps(s: State, s': State, t: Tid, id: SpanId)
    requires Inv(s) && DeleteLarge(s, s', t, id)
    ensures Inv(s')
  {
    var a := s.threads[t].obj;
    assert ThreadOk(s, t);
    DescriptorIsHome(s, a, id);
    LargeAlone(s, a, id);
    hide PageOf, FirstByte, HasClass, Homes, Disjoint, WrittenUpTo;
    RemovedKeeps(s, s', id, {a});
  }

  /** A large object is alone in its span. */
  lemma LargeAlone(s: State, a: Object, id: SpanId)
    requires Inv(s) && a in s.places && At(s.spans, a, id) && HasClass(s.spans, a, 0)
    ensures s.spans[id].sizeclass == 0 && forall b :: At(s.spans, b, id) ==> b == a
  {
    hide PageOf, FirstByte;
    var i :| At(s.spans, a, i) && s.spans[i].sizeclass == 0;
    assert i == id;
  }

  lemma DeleteSmallKeeps(s: State, s': State, id: SpanId, objs: set<Object>)
    requires Inv(s) && DeleteSmall(s, s', id, objs)
    ensures Inv(s')
  {
    hide PageOf, FirstByte, HasClass, Homes, Disjoint, WrittenUpTo, ThreadsOk, Queries;
    forall a | a in objs && a in s.places
      ensures forall u :: u in s.threads ==> !Queries(s.threads[u], a)
    {
      NotQueried(s, a);
    }
    RemovedKeeps(s, s', id, objs);
  }

  // --------------------------------------------------------------- whole runs

  lemma AllocKeeps(s: State, s': State)
    requires Inv(s)
    ensures (exists t, id, start, n :: AllocLarge(s, s', t, id, start, n)) ==> Inv(s')
    ensures (exists t, id, start, n, cl :: AllocSmall(s, s', t, id, start, n, cl)) ==> Inv(s')
  {
    hide Inv, Unmapped;
    if t, id, start, n :| AllocLarge(s, s', t, id, start, n) {
      AddedKeeps(s, s', t, id, Span(start, n, 0, false), GotLarge(id));
    } else if t, id, start, n, cl :| AllocSmall(s, s', t, id, start, n, cl) {
      AddedKeeps(s, s', t, id, Span(start, n, cl, false), Populating(id, 0));
    }
  }

  lemma ReturnKeeps(s: State, s': State, t: Tid)
    requires Inv(s) && (Return(s, s', t) || exists a, release :: Begin(s, s', t, a, release))
    ensures Inv(s')
  {
    assert ThreadOk(s, t);
    hide Inv, HasClass, WrittenUpTo;
    if Return(s, s', t) {
      var a := s.threads[t].obj;
      if s.threads[t].release {
        NotQueried(s, a);
      }
      hide Queries;
      MovedKeeps(s, s', t, a, s'.places[a], Idle);
    } else {
      hide Queries;
      var a, release :| Begin(s, s', t, a, release);
      MovedKeeps(s, s', t, a, Holder(t, release), Looking(a, release));
    }
  }

  lemma StepKeeps(s: State, s': State)
    requires Inv(s) && Step(s, s')
    ensures Inv(s')
  {
    hide Inv, AllocLarge, AllocSmall, HandLarge, CachePage, CutObjects, Take, Begin, Look, Describe, Record, Return,
         DeleteLarge, DeleteSmall;
    AllocKeeps(s, s');
    if t, cache' :| HandLarge(s, s', t, cache') {
      HandLargeKeeps(s, s', t, cache');
    } else if t, cache' :| CachePage(s, s', t, cache') {
      CachePageKeeps(s, s', t, cache');
    } else if t, objs :| CutObjects(s, s', t, objs) {
      CutObjectsKeeps(s, s', t, objs);
    } else if a :| Take(s, s', a) {
      TakeKeeps(s, s', a);
    } else if t, a, release :| Begin(s, s', t, a, release) {
      ReturnKeeps(s, s', t);
    } else if t :| Look(s, s', t) {
      LookKeeps(s, s', t);
    } else if t, id :| Describe(s, s', t, id) {
      DescribeKeeps(s, s', t, id);
    } else if t, cache' :| Record(s, s', t, cache') {
      RecordKeeps(s, s', t, cache');
    } else if t :| Return(s, s', t) {
      ReturnKeeps(s, s', t);
    } else if t, id :| DeleteLarge(s, s', t, id) {
      DeleteLargeKeeps(s, s', t, id);
    } else if id, objs :| DeleteSmall(s, s', id, objs) {
      DeleteSmallKeeps(s, s', id, objs);
    }
  }

  lemma {:induction false} RunKeeps(run: seq<State>, i: nat)
    requires IsRun(run) && i < |run|
    ensures Inv(run[i])
  {
    if i > 0 {
      RunKeeps(run, i - 1);
      assert Step(run[i - 1], run[i - 1 + 1]);
      StepKeeps(run[i - 1], run[i]);
    }
  }

  /** In every run, whatever the cache says about the page of an object that a client
      holds, passes to free() or may yet receive is "unknown" or the class of the one
      span that holds the page; and a thread that frees an object uses that class. */
  lemma NeverMisled(run: seq<State>, i: nat, a: Object, id: SpanId)
    requires IsRun(run) && i < |run| && a in run[i].places
    requires id in run[i].spans && Inside(run[i].spans[id], PageOf(a))
    ensures PageOf(a) in run[i].cache ==> run[i].cache[PageOf(a)] in {0, run[i].spans[id].sizeclass}
    ensures forall t :: t in run[i].threads && run[i].threads[t].Knowing? && run[i].threads[t].obj == a ==>
              run[i].threads[t].cl == run[i].spans[id].sizeclass
  {
    RunKeeps(run, i);
    var s := run[i];
    hide PageOf, FirstByte, IsRun;
    var j :| Good(s.spans, s.cache, a, j);
    assert j == id;
    forall t | t in s.threads && s.threads[t].Knowing? && s.threads[t].obj == a
      ensures s.threads[t].cl == s.spans[id].sizeclass
    {
      assert ThreadOk(s, t);
    }
  }

  /** A thread that knows the class of its object goes on only by returning it or by
      deleting its span. */
  lemma KnowingLeaves(s: State, s': State, t: Tid)
    requires Step(s, s') && t in s.threads && s.threads[t].Knowing?
    ensures t in s'.threads
    ensures s'.threads[t] == s.threads[t] || Return(s, s', t) || exists id :: DeleteLarge(s, s', t, id)
  {
    hide Unmapped, Puts, PageOf, FirstByte, Queries, Inside, AllocLarge, AllocSmall, HandLarge, CachePage, CutObjects,
         Take, Begin, Look, Describe, Record, Return, DeleteLarge, DeleteSmall;
    if u, id, start, n :| AllocLarge(s, s', u, id, start, n) {
      AllocElsewhere(s, s', u, id, start, n, 0, t);
    } else if u, id, start, n, cl :| AllocSmall(s, s', u, id, start, n, cl) {
      AllocElsewhere(s, s', u, id, start, n, cl, t);
    } else if u, cache' :| HandLarge(s, s', u, cache') {
      WriteElsewhere(s, s', u, cache', t);
    } else if u, cache' :| CachePage(s, s', u, cache') {
      WriteElsewhere(s, s', u, cache', t);
    } else if u, cache' :| Record(s, s', u, cache') {
      WriteElsewhere(s, s', u, cache', t);
    } else if u, objs :| CutObjects(s, s', u, objs) {
      CutElsewhere(s, s', u, objs, t);
    } else if a :| Take(s, s', a) {
      TakeElsewhere(s, s', a);
    } else if id, objs :| DeleteSmall(s, s', id, objs) {
      DeleteElsewhere(s, s', id, objs);
    } else if u, a, release :| Begin(s, s', u, a, release) {
      BeginElsewhere(s, s', u, a, release, t);
    } else if u :| Look(s, s', u) {
      LookElsewhere(s, s', u, t);
    } else if u, id :| Describe(s, s', u, id) {
      DescribeElsewhere(s, s', u, id, t);
    } else if u :| Return(s, s', u) {
      ReturnElsewhere(s, s', u, t);
    } else if u, id :| DeleteLarge(s, s', u, id) {
      LargeElsewhere(s, s', u, id, t);
    }
  }

  // What the steps of thread u mean for a thread that knows a class.

  lemma AllocElsewhere(s: State, s': State, u: Tid, id: SpanId, start: Page, n: nat, cl: nat, t: Tid)
    requires AllocLarge(s, s', u, id, start, n) || AllocSmall(s, s', u, id, start, n, cl)
    requires t in s.threads && s.threads[t].Knowing?
    ensures t in s'.threads && s'.threads[t] == s.threads[t]
  {
  }

  lemma WriteElsewhere(s: State, s': State, u: Tid, cache': map<Page, nat>, t: Tid)
    requires HandLarge(s, s', u, cache') || CachePage(s, s', u, cache') || Record(s, s', u, cache')
    requires t in s.threads && s.threads[t].Knowing?
    ensures t in s'.threads && s'.threads[t] == s.threads[t]
  {
  }

  lemma CutElsewhere(s: State, s': State, u: Tid, objs: set<Object>, t: Tid)
    requires CutObjects(s, s', u, objs) && t in s.threads && s.threads[t].Knowing?
    ensures t in s'.threads && s'.threads[t] == s.threads[t]
  {
  }

  lemma TakeElsewhere(s: State, s': State, a: Object)
    requires Take(s, s', a)
    ensures s'.threads == s.threads
  {
  }

  lemma DeleteElsewhere(s: State, s': State, id: SpanId, objs: set<Object>)
    requires DeleteSmall(s, s', id, objs)
    ensures s'.threads == s.threads
  {
  }

  lemma BeginElsewhere(s: State, s': State, u: Tid, a: Object, release: bool, t: Tid)
    requires Begin(s, s', u, a, release) && t in s.threads && s.threads[t].Knowing?
    ensures t in s'.threads && s'.threads[t] == s.threads[t]
  {
  }

  lemma LookElsewhere(s: State, s': State, u: Tid, t: Tid)
    requires Look(s, s', u) && t in s.threads && s.threads[t].Knowing?
    ensures t in s'.threads && s'.threads[t] == s.threads[t]
  {
  }

  lemma DescribeElsewhere(s: State, s': State, u: Tid, id: SpanId, t: Tid)
    requires Describe(s, s', u, id) && t in s.threads && s.threads[t].Knowing?
    ensures t in s'.threads && s'.threads[t] == s.threads[t]
  {
  }

  lemma ReturnElsewhere(s: State, s': State, u: Tid, t: Tid)
    requires Return(s, s', u) && t in s.threads
    ensures t in s'.threads && (u == t || s'.threads[t] == s.threads[t])
  {
  }

  lemma LargeElsewhere(s: State, s': State, u: Tid, id: SpanId, t: Tid)
    requires DeleteLarge(s, s', u, id) && t in s.threads
    ensures t in s'.threads && (u == t || s'.threads[t] == s.threads[t])
  {
  }

  /** In every run, when free() is done with an object, the object is on a free list, or it
      is gone with its span; the former exactly if it is a small one. */
  lemma FreeEnds(run: seq<State>, i: nat, t: Tid, id: SpanId)
    requires IsRun(run) && i + 1 < |run| && t in run[i].threads && run[i].threads[t].Knowing?
    requires run[i].threads[t].release && t in run[i + 1].threads && run[i + 1].threads[t].Idle?
    requires id in run[i].spans && Inside(run[i].spans[id], PageOf(run[i].threads[t].obj))
    ensures var a, s, s' := run[i].threads[t].obj, run[i], run[i + 1];
      && a in s.places && s.places[a] == Hand(t)
      && if s.spans[id].sizeclass > 0 then a in s'.places && s'.places[a] == FreeList && s'.spans == s.spans
         else a !in s'.places && id !in s'.spans
  {
    var s, s', a := run[i], run[i + 1], run[i].threads[t].obj;
    RunKeeps(run, i);
    assert Step(run[i], run[i + 1]);
    HandedIn(s, t);
    NeverMisled(run, i, a, id);
    hide IsRun, Inv, Step, PageOf;
    KnowingLeaves(s, s', t);
    if !Return(s, s', t) {
      var j :| DeleteLarge(s, s', t, j);
      SameHome(s, a, id, j);
    }
  }

  lemma HandedIn(s: State, t: Tid)
    requires Inv(s) && t in s.threads && s.threads[t].Knowing?
    ensures s.threads[t].obj in s.places && s.places[s.threads[t].obj] == Holder(t, s.threads[t].release)
  {
    assert ThreadOk(s, t);
  }

  lemma SameHome(s: State, a: Object, id: SpanId, j: SpanId)
    requires Inv(s) && id in s.spans && j in s.spans && Inside(s.spans[id], PageOf(a)) && Inside(s.spans[j], PageOf(a))
    ensures id == j
  {
    hide PageOf, Homes, ThreadsOk, OneBuilder;
  }
}
