/** The central free lists as a system of threads that interleave at every lock
    operation.

    A thread executes InsertRange or RemoveRange for one size class.  Each step is
    what the code does between two points where the lock set changes, or less.
    Objects in thread caches or in the hands of the program are `Client`; a chain a
    thread is carrying in or out is in `Flight`.  The page heap is the oracle whose
    contract the page heap modules prove: New hands out unused pages, Delete takes
    them back. */
module CentralFreeList {
  import opened Options
  import opened Sequences
  import PageHeapOps

  type Tid = nat
  type Obj = nat        // an object's address
  type SpanId = nat

  /** The size map: object size, pages per span, objects per transfer batch and the
      largest allowed number of transfer slots, by size class. */
  datatype Params = Params(size: seq<nat>, pages: seq<nat>, batch: seq<nat>, maxCache: seq<nat>) {
    function N(): nat {
      |size|
    }
    ghost predicate Valid() {
      && |pages| == N() && |batch| == N() && |maxCache| == N()
      && forall c :: 0 <= c < N() ==> size[c] > 0 && batch[c] > 0 && pages[c] * 8192 >= size[c]
    }
    /** Objects per span. */
    function Count(c: nat): nat
      requires c < N() && |pages| == N() && size[c] > 0
    {
      pages[c] * 8192 / size[c]
    }
  }

  datatype Span = Span(start: nat, cls: nat, objects: seq<Obj>, refcount: int, holder: Option<Tid>)

  /** One size class: `slots` are the used transfer slots, oldest first. */
  datatype Central = Central(nonempty: seq<SpanId>, empty: seq<SpanId>, numSpans: int, counter: int,
                             slots: seq<seq<Obj>>, cacheSize: int)

  datatype Place = InSpan(s: SpanId) | InCache(c: nat) | Flight(t: Tid) | Client

  datatype Pc =
    | Idle
    | InsertLock | Insert | Evict | VictimLock | Victim | BackLock
    | Release | ReleaseLock | Deleting
    | RemoveLock | Remove | Fetch | AtHeap | PopulateLock | FetchLock

  /** A thread's program counter and locals.  `c` is the class of the operation, `v`
      the class whose lock is in play while evicting or releasing, `mine` the chain
      being inserted or gathered, `shed` the chain being released to spans. */
  datatype Thread = Thread(pc: Pc, c: nat, v: nat, n: nat, force: bool, ok: bool, back: bool, tried: bool,
                           mine: seq<Obj>, shed: seq<Obj>, span: SpanId)

  datatype State = State(
    locks: seq<Option<Tid>>,
    cs: seq<Central>,
    spans: map<SpanId, Span>,
    pagemap: map<nat, SpanId>,
    places: map<Obj, Place>,
    threads: map<Tid, Thread>)

  datatype Choice =
    | Go
    | BeginInsert(c: nat, chain: seq<Obj>)
    | BeginRemove(c: nat, n: nat)
    | Pick(v: nat)
    | NewOk(s: SpanId, start: nat)
    | NewFail

  // ------------------------------------------------------------ chains of objects

  function Flatten(q: seq<seq<Obj>>): seq<Obj> {
    if q == [] then [] else Flatten(q[..|q| - 1]) + q[|q| - 1]
  }

  /** `m` with every object of `q` moved to `pl`. */
  function MoveAll(m: map<Obj, Place>, q: seq<Obj>, pl: Place): map<Obj, Place> {
    map o | o in m :: if o in q then pl else m[o]
  }

  /** The objects Populate cuts from a span: `n` objects of `size` bytes from `base`. */
  function Universe(base: nat, size: nat, n: nat): (r: set<Obj>)
    requires size > 0
    ensures |r| == n
    ensures forall o :: o in r ==> base <= o < base + n * size
  {
    if n == 0 then {} else
      assert n * size == (n - 1) * size + size;
      Universe(base, size, n - 1) + {base + (n - 1) * size}
  }

  function ObjectsOf(P: Params, sp: Span): set<Obj>
    requires P.Valid() && sp.cls < P.N()
  {
    Universe(sp.start * 8192, P.size[sp.cls], P.Count(sp.cls))
  }

  // ------------------------------------------------------------------- steps

  function Held(th: Thread): Option<nat> {
    match th.pc
    case Insert | Evict | Remove | Fetch => Some(th.c)
    case Victim | Release => Some(th.v)
    case _ => None
  }

  /** A slot taken from another class and not yet added to this one. */
  predicate HasCredit(th: Thread) {
    (th.pc == BackLock && th.ok) || th.back
  }

  function Put(S: State, t: Tid, th: Thread): State {
    S.(threads := S.threads[t := th])
  }

  function Lock(S: State, c: nat, t: Tid): State
    requires c < |S.locks|
  {
    S.(locks := S.locks[c := Some(t)])
  }

  function Unlock(S: State, c: nat): State
    requires c < |S.locks|
  {
    S.(locks := S.locks[c := None])
  }

  /** Store the whole chain in a transfer slot. */
  function PushSlot(S: State, t: Tid): State
    requires t in S.threads && S.threads[t].c < |S.cs|
  {
    var th := S.threads[t];
    S.(cs := S.cs[th.c := S.cs[th.c].(slots := S.cs[th.c].slots + [th.mine])],
       places := MoveAll(S.places, th.mine, InCache(th.c)),
       threads := S.threads[t := th.(pc := Idle, mine := [])])
  }

  /** Give up on the cache: release the chain to its spans, under the same lock. */
  function StartRelease(S: State, t: Tid): State
    requires t in S.threads
  {
    var th := S.threads[t];
    Put(S, t, th.(pc := Release, v := th.c, back := false, shed := th.mine, mine := []))
  }

  function Grow(S: State, c: nat, delta: int): State
    requires c < |S.cs|
  {
    S.(cs := S.cs[c := S.cs[c].(cacheSize := S.cs[c].cacheSize + delta)])
  }

  /** Take the newest transfer slot of class c; its chain goes to `to`. */
  function PopSlot(S: State, c: nat, to: Place): State
    requires c < |S.cs| && S.cs[c].slots != []
  {
    var q := S.cs[c].slots;
    S.(cs := S.cs[c := S.cs[c].(slots := q[..|q| - 1])],
       places := MoveAll(S.places, q[|q| - 1], to))
  }

  /** ReleaseToSpans for the first object of `shed`, its span keeping other objects in use. */
  function ReleaseOne(S: State, t: Tid, s: SpanId): State
    requires t in S.threads && S.threads[t].shed != [] && S.threads[t].v < |S.cs| && s in S.spans
  {
    var th := S.threads[t];
    var sp := S.spans[s];
    var o := th.shed[0];
    var cen := Revive(S.cs[th.v], s, sp);
    S.(cs := S.cs[th.v := cen.(counter := cen.counter + 1)],
       spans := S.spans[s := sp.(objects := [o] + sp.objects, refcount := sp.refcount - 1)],
       places := S.places[o := InSpan(s)],
       threads := S.threads[t := th.(shed := th.shed[1..])])
  }

  /** A span without free objects is about to get one: move it to the non-empty list. */
  function Revive(cen: Central, s: SpanId, sp: Span): Central {
    if sp.objects == [] then cen.(empty := Without(cen.empty, s), nonempty := [s] + cen.nonempty) else cen
  }

  /** ReleaseToSpans for the last object in use: the span leaves the class, and the
      class lock is dropped while the page heap deletes it. */
  function ReleaseLast(P: Params, S: State, t: Tid, s: SpanId): State
    requires P.Valid() && t in S.threads && S.threads[t].shed != [] && s in S.spans && S.spans[s].cls < P.N()
    requires S.threads[t].v < |S.cs| && S.threads[t].v < |S.locks|
  {
    var th := S.threads[t];
    var sp := S.spans[s];
    var cen := Revive(S.cs[th.v], s, sp);
    Unlock(S, th.v).(
      cs := S.cs[th.v := cen.(counter := cen.counter + 1 - P.Count(sp.cls), numSpans := cen.numSpans - 1,
                              nonempty := Without(cen.nonempty, s))],
      spans := S.spans - {s},
      places := S.places - ObjectsOf(P, sp),
      threads := S.threads[t := th.(pc := Deleting, span := s, shed := th.shed[1..])])
  }

  /** FetchFromSpans: the first object of the first non-empty span. */
  function FetchOne(S: State, t: Tid): State
    requires t in S.threads && S.threads[t].c < |S.cs|
    requires var q := S.cs[S.threads[t].c].nonempty; q != [] && q[0] in S.spans && S.spans[q[0]].objects != []
  {
    var th := S.threads[t];
    var cen := S.cs[th.c];
    var s := cen.nonempty[0];
    var sp := S.spans[s];
    var o := sp.objects[0];
    var rest := sp.objects[1..];
    S.(cs := S.cs[th.c := (if rest == [] then cen.(nonempty := cen.nonempty[1..], empty := [s] + cen.empty) else cen)
                            .(counter := cen.counter - 1)],
       spans := S.spans[s := sp.(objects := rest, refcount := sp.refcount + 1)],
       places := S.places[o := Flight(t)],
       threads := S.threads[t := th.(mine := [o] + th.mine)])
  }

  /** The chain Populate builds, lowest address first. */
  function Chain(base: nat, size: nat, n: nat): seq<Obj> {
    if n == 0 then [] else Chain(base, size, n - 1) + [base + (n - 1) * size]
  }

  /** Populate after a successful New: the span's pages name it and its objects are chained. */
  function AddSpan(P: Params, S: State, t: Tid, s: SpanId, start: nat): State
    requires P.Valid() && t in S.threads && S.threads[t].c < P.N()
  {
    var th := S.threads[t];
    var chain := Chain(start * 8192, P.size[th.c], P.Count(th.c));
    S.(spans := S.spans[s := Span(start, th.c, chain, 0, Some(t))],
       pagemap := PageHeapOps.PutRange(S.pagemap, start, P.pages[th.c], s),
       places := S.places + (map o | o in chain :: InSpan(s)),
       threads := S.threads[t := th.(pc := PopulateLock, span := s)])
  }

  /** Populate's second half: the new span goes on the non-empty list. */
  function ListSpan(S: State, t: Tid): State
    requires t in S.threads && S.threads[t].c < |S.cs| && S.threads[t].span in S.spans
  {
    var th := S.threads[t];
    var cen := S.cs[th.c];
    var sp := S.spans[th.span];
    S.(cs := S.cs[th.c := cen.(nonempty := [th.span] + cen.nonempty, numSpans := cen.numSpans + 1,
                               counter := cen.counter + |sp.objects|)],
       spans := S.spans[th.span := sp.(holder := None)],
       threads := S.threads[t := th.(pc := Fetch, tried := true)])
  }

  // One function per program counter.

  function StepInsert(P: Params, S: State, t: Tid): State
    requires Runs(P, S, t)
  {
    var th := S.threads[t];
    var cen := S.cs[th.c];
    if |th.mine| != P.batch[th.c] then StartRelease(S, t)
    else if |cen.slots| < cen.cacheSize then Unlock(PushSlot(S, t), th.c)
    else if cen.cacheSize == P.maxCache[th.c] then StartRelease(S, t)
    else Put(S, t, th.(pc := Evict, force := false))
  }

  /** EvictRandomSizeClass returned false: try harder once, then give up. */
  function EvictFailed(S: State, t: Tid): State
    requires t in S.threads
  {
    var th := S.threads[t];
    if th.force then StartRelease(S, t) else Put(S, t, th.(pc := Evict, force := true))
  }

  /** EvictRandomSizeClass picks class v and looks at it without its lock. */
  function StepEvict(P: Params, S: State, t: Tid, v: nat): State
    requires Runs(P, S, t) && v < P.N()
  {
    var th := S.threads[t];
    if v == th.c || S.cs[v].cacheSize == 0 || (!th.force && |S.cs[v].slots| == S.cs[v].cacheSize) then EvictFailed(S, t)
    else Put(Unlock(S, th.c), t, th.(pc := VictimLock, v := v))
  }

  /** ShrinkCache under the victim's lock. */
  function StepVictim(P: Params, S: State, t: Tid): State
    requires Runs(P, S, t)
  {
    var th := S.threads[t];
    var cen := S.cs[th.v];
    if cen.cacheSize == 0 || (|cen.slots| == cen.cacheSize && !th.force) then
      Put(Unlock(S, th.v), t, th.(pc := BackLock, ok := false))
    else if |cen.slots| == cen.cacheSize && cen.slots != [] then
      Put(PopSlot(Grow(S, th.v, -1), th.v, Flight(t)), t,
        th.(pc := Release, back := true, shed := cen.slots[|cen.slots| - 1]))
    else
      Put(Unlock(Grow(S, th.v, -1), th.v), t, th.(pc := BackLock, ok := true))
  }

  /** MakeCacheSpace after its own lock has been retaken. */
  function StepBack(P: Params, S: State, t: Tid): State
    requires Runs(P, S, t)
  {
    var th := S.threads[t];
    if !th.ok then EvictFailed(Lock(S, th.c, t), t)
    else if S.cs[th.c].cacheSize < P.maxCache[th.c] then PushSlot(Grow(S, th.c, 1), t)
    else StartRelease(Lock(S, th.c, t), t)
  }

  /** One round of ReleaseListToSpans. */
  function StepRelease(P: Params, S: State, t: Tid): State
    requires Runs(P, S, t) && (S.threads[t].shed != [] ==> Findable(P, S, S.threads[t].shed[0]))
  {
    var th := S.threads[t];
    if th.shed == [] then
      Put(Unlock(S, th.v), t, if th.back then th.(pc := BackLock, ok := true, back := false) else th.(pc := Idle))
    else
      var s := S.pagemap[th.shed[0] / 8192];
      if S.spans[s].refcount - 1 == 0 then ReleaseLast(P, S, t, s) else ReleaseOne(S, t, s)
  }

  /** The page heap takes the span's pages back. */
  function StepDeleting(S: State, t: Tid): State
    requires t in S.threads
  {
    var th := S.threads[t];
    S.(pagemap := map p | p in S.pagemap && S.pagemap[p] != th.span :: S.pagemap[p],
       threads := S.threads[t := th.(pc := ReleaseLock)])
  }

  function StepRemove(P: Params, S: State, t: Tid): State
    requires Runs(P, S, t)
  {
    var th := S.threads[t];
    if th.n == P.batch[th.c] && S.cs[th.c].slots != []
      then Put(Unlock(PopSlot(S, th.c, Client), th.c), t, th.(pc := Idle))
    else Put(S, t, th.(pc := Fetch, tried := false))
  }

  function StepFetch(P: Params, S: State, t: Tid): State
    requires Runs(P, S, t)
    requires var q := S.cs[S.threads[t].c].nonempty; q != [] ==> q[0] in S.spans && S.spans[q[0]].objects != []
  {
    var th := S.threads[t];
    var q := S.cs[th.c].nonempty;
    if |th.mine| >= th.n || (q == [] && (th.mine != [] || th.tried)) then
      Put(Unlock(S, th.c), t, th.(pc := Idle, mine := [])).(places := MoveAll(S.places, th.mine, Client))
    else if q == [] then Put(Unlock(S, th.c), t, th.(pc := AtHeap))
    else FetchOne(S, t)
  }

  // ------------------------------------------------------------- the system

  ghost predicate Runs(P: Params, S: State, t: Tid) {
    && P.Valid() && |S.locks| == |S.cs| == P.N()
    && t in S.threads && S.threads[t].c < P.N() && S.threads[t].v < P.N()
  }

  /** The page map finds the object's span. */
  predicate Findable(P: Params, S: State, o: Obj) {
    && o / 8192 in S.pagemap && S.pagemap[o / 8192] in S.spans
    && S.spans[S.pagemap[o / 8192]].cls < P.N()
  }

  /** Thread t can take the step `ch` now: a lock it waits for is free, and what a
      client or the page heap hands over is what they promise. */
  ghost predicate Enabled(P: Params, S: State, t: Tid, ch: Choice)
    requires Runs(P, S, t)
  {
    var th := S.threads[t];
    match th.pc
    case Idle =>
      || (ch.BeginInsert? && ch.c < P.N() && ch.chain != [] && NoDup(ch.chain)
          && forall o :: o in ch.chain ==>
            o in S.places && S.places[o] == Client && Findable(P, S, o) && S.spans[S.pagemap[o / 8192]].cls == ch.c)
      || (ch.BeginRemove? && ch.c < P.N() && ch.n > 0)
    case Evict => ch.Pick? && ch.v < P.N()
    case AtHeap =>
      || ch.NewFail?
      || (ch.NewOk? && ch.s !in S.spans
          && (forall p :: ch.start <= p < ch.start + P.pages[th.c] ==> p !in S.pagemap)
          && (forall u :: u in S.threads && S.threads[u].pc == Deleting ==> S.threads[u].span != ch.s))
    case InsertLock | BackLock | RemoveLock | PopulateLock | FetchLock => ch == Go && S.locks[th.c] == None
    case VictimLock | ReleaseLock => ch == Go && S.locks[th.v] == None
    case Insert | Victim | Release | Deleting | Remove | Fetch => ch == Go
  }

  /** The code never meets a pointer it cannot follow. */
  ghost predicate Safe(P: Params, S: State, t: Tid)
    requires Runs(P, S, t)
  {
    var th := S.threads[t];
    && (th.pc == Release && th.shed != [] ==> Findable(P, S, th.shed[0]))
    && (th.pc == Fetch ==> var q := S.cs[th.c].nonempty; q != [] ==> q[0] in S.spans && S.spans[q[0]].objects != [])
    && (th.pc == PopulateLock ==> th.span in S.spans)
  }

  ghost function Step(P: Params, S: State, t: Tid, ch: Choice): State
    requires Runs(P, S, t) && Enabled(P, S, t, ch) && Safe(P, S, t)
  {
    var th := S.threads[t];
    match th.pc
    case Idle =>
      if ch.BeginInsert? then
        Put(S, t, th.(pc := InsertLock, c := ch.c, mine := ch.chain)).(places := MoveAll(S.places, ch.chain, Flight(t)))
      else Put(S, t, th.(pc := RemoveLock, c := ch.c, n := ch.n))
    case InsertLock => Put(Lock(S, th.c, t), t, th.(pc := Insert))
    case Insert => StepInsert(P, S, t)
    case Evict => StepEvict(P, S, t, ch.v)
    case VictimLock => Put(Lock(S, th.v, t), t, th.(pc := Victim))
    case Victim => StepVictim(P, S, t)
    case BackLock => StepBack(P, S, t)
    case Release => StepRelease(P, S, t)
    case Deleting => StepDeleting(S, t)
    case ReleaseLock => Put(Lock(S, th.v, t), t, th.(pc := Release))
    case RemoveLock => Put(Lock(S, th.c, t), t, th.(pc := Remove))
    case Remove => StepRemove(P, S, t)
    case Fetch => StepFetch(P, S, t)
    case AtHeap => if ch.NewOk? then AddSpan(P, S, t, ch.s, ch.start) else Put(S, t, th.(pc := FetchLock))
    case PopulateLock => Lock(ListSpan(S, t), th.c, t)
    case FetchLock => Put(Lock(S, th.c, t), t, th.(pc := Fetch, tried := true))
  }

  // --------------------------------------------------------------- invariant

  ghost function Box(S: State, pl: Place): seq<Obj> {
    match pl
    case InSpan(s) => if s in S.spans then S.spans[s].objects else []
    case InCache(c) => if c < |S.cs| then Flatten(S.cs[c].slots) else []
    case Flight(t) => if t in S.threads then S.threads[t].mine + S.threads[t].shed else []
    case Client => []
  }

  ghost predicate BoxOk(places: map<Obj, Place>, pl: Place, q: seq<Obj>) {
    NoDup(q) && forall o :: o in q <==> o in places && places[o] == pl
  }

  /** Every object is in exactly the one place recorded for it, once. */
  ghost predicate BoxesOk(S: State) {
    forall pl :: pl != Client ==> BoxOk(S.places, pl, Box(S, pl))
  }

  ghost predicate LocksOk(locks: seq<Option<Tid>>, threads: map<Tid, Thread>) {
    forall c, t :: 0 <= c < |locks| ==> (locks[c] == Some(t) <==> t in threads && Held(threads[t]) == Some(c))
  }

  ghost predicate CacheOk(P: Params, cs: seq<Central>) {
    && |P.maxCache| == |P.batch| == |cs|
    && forall c :: 0 <= c < |cs| ==> CentralCacheOk(P, c, cs[c])
  }

  ghost predicate CentralCacheOk(P: Params, c: nat, cen: Central)
    requires c < |P.maxCache| && c < |P.batch|
  {
    && |cen.slots| <= cen.cacheSize <= P.maxCache[c]
    && forall i :: 0 <= i < |cen.slots| ==> |cen.slots[i]| == P.batch[c]
  }

  ghost function SlotTotal(cs: seq<Central>): int {
    if cs == [] then 0 else SlotTotal(cs[..|cs| - 1]) + cs[|cs| - 1].cacheSize
  }

  ghost function Credits(threads: map<Tid, Thread>): set<Tid> {
    set t | t in threads && HasCredit(threads[t])
  }

  ghost predicate SpanOk(P: Params, s: SpanId, sp: Span, pagemap: map<nat, SpanId>)
    requires P.Valid()
  {
    && sp.cls < P.N()
    && sp.refcount >= 0 && (sp.holder != None ==> sp.refcount == 0)
    && sp.refcount + |sp.objects| == P.Count(sp.cls)
    && (forall o :: o in sp.objects ==> o in ObjectsOf(P, sp))
    && (forall p :: sp.start <= p < sp.start + P.pages[sp.cls] ==> p in pagemap && pagemap[p] == s)
  }

  ghost predicate SpansOk(P: Params, spans: map<SpanId, Span>, pagemap: map<nat, SpanId>)
    requires P.Valid()
  {
    forall s :: s in spans ==> SpanOk(P, s, spans[s], pagemap)
  }

  ghost predicate OnList(spans: map<SpanId, Span>, s: SpanId, c: nat, some: bool) {
    s in spans && spans[s].cls == c && spans[s].holder == None && (spans[s].objects != []) == some
  }

  ghost function FreeTotal(spans: map<SpanId, Span>, q: seq<SpanId>): int {
    if q == [] then 0 else (if q[0] in spans then |spans[q[0]].objects| else 0) + FreeTotal(spans, q[1..])
  }

  /** A span is on nonempty_ exactly when it has free objects, and on empty_ otherwise;
      num_spans_ and counter_ are the exact totals. */
  ghost predicate CentralOk(spans: map<SpanId, Span>, c: nat, cen: Central) {
    && NoDup(cen.nonempty) && NoDup(cen.empty)
    && (forall s :: s in cen.nonempty <==> OnList(spans, s, c, true))
    && (forall s :: s in cen.empty <==> OnList(spans, s, c, false))
    && cen.numSpans == |cen.nonempty| + |cen.empty|
    && cen.counter == FreeTotal(spans, cen.nonempty)
  }

  ghost predicate CentralsOk(spans: map<SpanId, Span>, cs: seq<Central>) {
    forall c :: 0 <= c < |cs| ==> CentralOk(spans, c, cs[c])
  }

  /** MapObjectToSpan. */
  ghost predicate LivesIn(pagemap: map<nat, SpanId>, o: Obj, s: SpanId) {
    o / 8192 in pagemap && pagemap[o / 8192] == s
  }

  /** The objects are exactly those of the live spans, and the page map finds each one's span. */
  ghost predicate UniverseOk(P: Params, spans: map<SpanId, Span>, pagemap: map<nat, SpanId>, objects: set<Obj>)
    requires P.Valid() && SpansOk(P, spans, pagemap)
  {
    && (forall o :: o in objects ==>
      o / 8192 in pagemap && pagemap[o / 8192] in spans && o in ObjectsOf(P, spans[pagemap[o / 8192]]))
    && (forall s, o :: s in spans && o in ObjectsOf(P, spans[s]) ==> o in objects && LivesIn(pagemap, o, s))
  }

  /** All objects of the chain belong to spans of class c. */
  ghost predicate OfClass(spans: map<SpanId, Span>, pagemap: map<nat, SpanId>, q: seq<Obj>, c: nat) {
    forall o :: o in q ==> o / 8192 in pagemap && pagemap[o / 8192] in spans && spans[pagemap[o / 8192]].cls == c
  }

  ghost predicate CacheClassOk(spans: map<SpanId, Span>, pagemap: map<nat, SpanId>, cs: seq<Central>) {
    forall c :: 0 <= c < |cs| ==> OfClass(spans, pagemap, Flatten(cs[c].slots), c)
  }

  /** What a thread's locals say at its program counter. */
  ghost predicate LocalsOk(P: Params, th: Thread) {
    && |P.batch| == P.N() && th.c < P.N() && th.v < P.N()
    && (th.pc == Idle ==> th.mine == [] && th.shed == [])
    && (Sheds(th.pc) || th.shed == [])
    && (Sheds(th.pc) && !th.back ==> th.mine == [])
    && (th.back ==> Sheds(th.pc))
    && (th.back || Evicts(th.pc) ==> |th.mine| == P.batch[th.c])
    && (th.pc == RemoveLock || th.pc == Remove ==> th.mine == [])
  }

  predicate Evicts(pc: Pc) {
    pc == Evict || pc == VictimLock || pc == Victim || pc == BackLock
  }

  predicate Sheds(pc: Pc) {
    pc == Release || pc == ReleaseLock || pc == Deleting
  }

  ghost predicate ThreadOk(P: Params, spans: map<SpanId, Span>, pagemap: map<nat, SpanId>, t: Tid, th: Thread) {
    && LocalsOk(P, th)
    && OfClass(spans, pagemap, th.mine, th.c) && OfClass(spans, pagemap, th.shed, th.v)
    && (th.pc == Deleting ==> th.span !in spans)
    && (th.pc == PopulateLock ==>
          th.span in spans && spans[th.span].holder == Some(t) && spans[th.span].cls == th.c &&
            spans[th.span].objects != [])
  }

  ghost predicate ThreadsOk(P: Params, spans: map<SpanId, Span>, pagemap: map<nat, SpanId>, threads: map<Tid, Thread>) {
    forall t :: t in threads ==> ThreadOk(P, spans, pagemap, t, threads[t])
  }

  /** A span that is on no list is in the hands of the one thread that is populating it. */
  ghost predicate HoldersOk(spans: map<SpanId, Span>, threads: map<Tid, Thread>) {
    forall s :: s in spans && spans[s].holder != None ==>
      var t := spans[s].holder.value;
      t in threads && threads[t].pc == PopulateLock && threads[t].span == s
  }

  ghost predicate Inv(P: Params, S: State, total: int) {
    && P.Valid() && |S.locks| == |S.cs| == P.N()
    && LocksOk(S.locks, S.threads)
    && CacheOk(P, S.cs)
    && SlotTotal(S.cs) + |Credits(S.threads)| <= total
    && SpansOk(P, S.spans, S.pagemap)
    && CentralsOk(S.spans, S.cs)
    && UniverseOk(P, S.spans, S.pagemap, S.places.Keys)
    && BoxesOk(S)
    && CacheClassOk(S.spans, S.pagemap, S.cs)
    && ThreadsOk(P, S.spans, S.pagemap, S.threads)
    && HoldersOk(S.spans, S.threads)
  }

  // -------------------------------------------------------------------- runs

  /** CentralFreeList::Init for every class; any number of idle threads. */
  ghost predicate Init(P: Params, S: State) {
    && P.Valid() && |S.locks| == |S.cs| == P.N() && P.N() > 0
    && S.spans == map[] && S.pagemap == map[] && S.places == map[]
    && (forall c :: 0 <= c < P.N() ==> S.locks[c] == None)
    && (forall c :: 0 <= c < P.N() ==>
      S.cs[c] == Central([], [], 0, 0, [], if P.maxCache[c] < 16 then P.maxCache[c] else 16))
    && (forall t :: t in S.threads ==> S.threads[t] == Thread(Idle, 0, 0, 0, false, false, false, false, [], [], 0))
  }

  /** From S, thread t takes the enabled step `ch` to S'. */
  ghost predicate Next(P: Params, S: State, t: Tid, ch: Choice, S': State) {
    Runs(P, S, t) && Enabled(P, S, t, ch) && (Safe(P, S, t) ==> S' == Step(P, S, t, ch))
  }

  /** An interleaving: at each moment any one thread takes any enabled step. */
  ghost predicate IsRun(P: Params, states: seq<State>, steps: seq<(Tid, Choice)>) {
    && |states| == |steps| + 1
    && Init(P, states[0])
    && forall i :: 0 <= i < |steps| ==> Next(P, states[i], steps[i].0, steps[i].1, states[i + 1])
  }
}
