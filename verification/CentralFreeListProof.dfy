/** Every step of every thread keeps the central free lists' invariant. */
module CentralFreeListProof {
  import opened Options
  import opened Arithmetic
  import opened Sequences
  import opened CentralFreeList
  import PageHeapOps

  // ------------------------------------------------------------------- locks

  lemma LockTaken(locks: seq<Option<Tid>>, threads: map<Tid, Thread>, c: nat, t: Tid, th: Thread)
    requires LocksOk(locks, threads) && c < |locks| && locks[c] == None
    requires t in threads && Held(threads[t]) == None && Held(th) == Some(c)
    ensures LocksOk(locks[c := Some(t)], threads[t := th])
  {
    hide Held;
  }

  lemma LockDropped(locks: seq<Option<Tid>>, threads: map<Tid, Thread>, c: nat, t: Tid, th: Thread)
    requires LocksOk(locks, threads) && c < |locks|
    requires t in threads && Held(threads[t]) == Some(c) && Held(th) == None
    ensures LocksOk(locks[c := None], threads[t := th])
  {
    hide Held;
  }

  lemma LockKept(locks: seq<Option<Tid>>, threads: map<Tid, Thread>, t: Tid, th: Thread)
    requires LocksOk(locks, threads) && t in threads && Held(threads[t]) == Held(th)
    ensures LocksOk(locks, threads[t := th])
  {
    hide Held;
  }

  // ----------------------------------------------------------------- credits

  function Credit(th: Thread): int {
    if HasCredit(th) then 1 else 0
  }

  lemma CreditsChange(threads: map<Tid, Thread>, t: Tid, th: Thread)
    requires t in threads
    ensures |Credits(threads[t := th])| == |Credits(threads)| - Credit(threads[t]) + Credit(th)
  {
    var a, b := Credits(threads), Credits(threads[t := th]);
    assert a - {t} == b - {t};
    if t in a {
      assert a == (a - {t}) + {t};
    }
    if t in b {
      assert b == (b - {t}) + {t};
    }
  }

  lemma {:induction false} SlotTotalChange(cs: seq<Central>, c: nat, cen: Central)
    requires c < |cs|
    ensures SlotTotal(cs[c := cen]) == SlotTotal(cs) - cs[c].cacheSize + cen.cacheSize
  {
    var n := |cs| - 1;
    if c == n {
      assert cs[c := cen][..n] == cs[..n];
    } else {
      SlotTotalChange(cs[..n], c, cen);
      assert cs[c := cen][..n] == cs[..n][c := cen];
    }
  }

  // ------------------------------------------------------------------- boxes

  lemma BoxesMove(S: State, S': State, moved: seq<Obj>, from: Place, to: Place)
    requires BoxesOk(S) && from != to
    requires forall pl :: pl != from && pl != to ==> Box(S', pl) == Box(S, pl)
    requires forall o :: o in moved ==> o in S.places && S.places[o] == from
    requires S'.places == MoveAll(S.places, moved, to)
    requires from != Client ==> NoDup(Box(S', from)) && forall o :: o in Box(S', from) <==>
      o in Box(S, from) && o !in moved
    requires to != Client ==> NoDup(Box(S', to)) && forall o :: o in Box(S', to) <==> o in Box(S, to) || o in moved
    ensures BoxesOk(S')
  {
    hide Box, NoDup;
    forall pl | pl != Client
      ensures BoxOk(S'.places, pl, Box(S', pl))
    {
      assert BoxOk(S.places, pl, Box(S, pl));
    }
  }

  lemma BoxAt(S: State, pl: Place)
    requires BoxesOk(S) && pl != Client
    ensures BoxOk(S.places, pl, Box(S, pl))
  {
  }

  // -------------------------------------------- steps that move no object

  /** Only thread t's control state and the locks change. */
  lemma ControlKeeps(P: Params, S: State, total: int, t: Tid, th: Thread, locks: seq<Option<Tid>>, total': int)
    requires Inv(P, S, total) && t in S.threads
    requires LocksOk(locks, S.threads[t := th]) && |locks| == |S.locks|
    requires total + Credit(th) - Credit(S.threads[t]) <= total'
    requires th.mine + th.shed == S.threads[t].mine + S.threads[t].shed
    requires S.threads[t].pc != PopulateLock
    requires ThreadOk(P, S.spans, S.pagemap, t, th)
    ensures Inv(P, S.(threads := S.threads[t := th], locks := locks), total')
  {
    hide LocksOk, SpansOk, CentralsOk, CacheOk, UniverseOk, CacheClassOk, BoxOk, ThreadOk, Credits, HasCredit;
    CreditsChange(S.threads, t, th);
    var S' := S.(threads := S.threads[t := th], locks := locks);
    forall pl | pl != Client
      ensures Box(S', pl) == Box(S, pl)
    {
    }
  }

  // ------------------------------------------------------- transfer slots

  lemma CentralsSlots(spans: map<SpanId, Span>, cs: seq<Central>, c: nat, cen: Central)
    requires CentralsOk(spans, cs) && c < |cs|
    requires cen == cs[c].(slots := cen.slots, cacheSize := cen.cacheSize)
    ensures CentralsOk(spans, cs[c := cen])
  {
    hide NoDup, OnList;
    assert CentralOk(spans, c, cs[c]);
  }

  lemma CacheChange(P: Params, cs: seq<Central>, c: nat, cen: Central)
    requires CacheOk(P, cs) && c < |cs| && CentralCacheOk(P, c, cen)
    ensures CacheOk(P, cs[c := cen])
  {
    hide CentralCacheOk;
  }

  lemma CacheClassChange(spans: map<SpanId, Span>, pagemap: map<nat, SpanId>, cs: seq<Central>, c: nat, cen: Central)
    requires CacheClassOk(spans, pagemap, cs) && c < |cs| && OfClass(spans, pagemap, Flatten(cen.slots), c)
    ensures CacheClassOk(spans, pagemap, cs[c := cen])
  {
    hide OfClass;
  }

  lemma FlattenPush(q: seq<seq<Obj>>, chain: seq<Obj>)
    ensures Flatten(q + [chain]) == Flatten(q) + chain
  {
    assert (q + [chain])[..|q|] == q;
  }

  lemma OfClassConcat(spans: map<SpanId, Span>, pagemap: map<nat, SpanId>, a: seq<Obj>, b: seq<Obj>, c: nat)
    ensures OfClass(spans, pagemap, a + b, c) <==> OfClass(spans, pagemap, a, c) && OfClass(spans, pagemap, b, c)
  {
    assert forall o :: o in a ==> o in a + b;
    assert forall o :: o in b ==> o in a + b;
  }

  lemma CentralCacheAt(P: Params, cs: seq<Central>, c: nat)
    requires CacheOk(P, cs) && c < |cs|
    ensures CentralCacheOk(P, c, cs[c])
  {
  }

  lemma ThreadsChange(P: Params, spans: map<SpanId, Span>, pagemap: map<nat, SpanId>, threads: map<Tid, Thread>,
                      t: Tid, th: Thread)
    requires ThreadsOk(P, spans, pagemap, threads) && ThreadOk(P, spans, pagemap, t, th)
    ensures ThreadsOk(P, spans, pagemap, threads[t := th])
  {
    hide ThreadOk;
  }

  lemma ThreadAt(P: Params, S: State, total: int, t: Tid)
    requires Inv(P, S, total) && t in S.threads
    ensures ThreadOk(P, S.spans, S.pagemap, t, S.threads[t])
    ensures Runs(P, S, t)
  {
  }

  lemma PushBoxes(S: State, t: Tid, S': State)
    requires BoxesOk(S) && t in S.threads && S.threads[t].c < |S.cs| && S.threads[t].shed == []
    requires S'.spans == S.spans && S'.threads.Keys == S.threads.Keys && |S'.cs| == |S.cs|
    requires var c := S.threads[t].c;
      && S'.cs[c].slots == S.cs[c].slots + [S.threads[t].mine]
      && (forall d :: 0 <= d < |S.cs| && d != c ==> S'.cs[d] == S.cs[d])
      && S'.places == MoveAll(S.places, S.threads[t].mine, InCache(c))
    requires S'.threads[t].mine == [] && S'.threads[t].shed == []
    requires forall u :: u in S.threads && u != t ==> S'.threads[u] == S.threads[u]
    ensures BoxesOk(S')
  {
    hide NoDup, Flatten;
    var c, mine := S.threads[t].c, S.threads[t].mine;
    BoxAt(S, Flight(t));
    BoxAt(S, InCache(c));
    assert Box(S, Flight(t)) == mine;
    FlattenPush(S.cs[c].slots, mine);
    NoDupConcat(Flatten(S.cs[c].slots), mine);
    NoDupNone<Obj>();
    assert Box(S', Flight(t)) == [];
    BoxesMove(S, S', mine, Flight(t), InCache(c));
  }

  /** The chain goes into a transfer slot, after `delta` slots were added to the class. */
  lemma PushClass(spans: map<SpanId, Span>, pagemap: map<nat, SpanId>, cs: seq<Central>, c: nat, cen: Central,
                  chain: seq<Obj>)
    requires CacheClassOk(spans, pagemap, cs) && c < |cs| && OfClass(spans, pagemap, chain, c)
    requires cen.slots == cs[c].slots + [chain]
    ensures CacheClassOk(spans, pagemap, cs[c := cen])
  {
    hide OfClass, Flatten;
    FlattenPush(cs[c].slots, chain);
    CacheClassAt(spans, pagemap, cs, c);
    OfClassConcat(spans, pagemap, Flatten(cs[c].slots), chain, c);
    CacheClassChange(spans, pagemap, cs, c, cen);
  }

  lemma PushKeeps(P: Params, S: State, total: int, t: Tid, delta: int, locks: seq<Option<Tid>>)
    requires Inv(P, S, total) && t in S.threads && S.threads[t].pc != PopulateLock && S.threads[t].shed == [] &&
             !S.threads[t].back
    requires var th := S.threads[t];
      && |th.mine| == P.batch[th.c] && |S.cs[th.c].slots| < S.cs[th.c].cacheSize + delta <= P.maxCache[th.c]
      && delta <= Credit(th)
      && LocksOk(locks, S.threads[t := th.(pc := Idle, mine := [])]) && |locks| == |S.locks|
    ensures Inv(P, PushSlot(Grow(S, S.threads[t].c, delta), t).(locks := locks), total)
  {
    hide LocksOk, SpansOk, UniverseOk, ThreadsOk, BoxesOk, CacheOk, CentralsOk, CacheClassOk, OfClass, NoDup, Flatten,
         Credits;
    ThreadAt(P, S, total, t);
    var th := S.threads[t];
    var th' := th.(pc := Idle, mine := []);
    var S1 := Grow(S, th.c, delta);
    var S' := PushSlot(S1, t).(locks := locks);
    var cen := S.cs[th.c].(slots := S.cs[th.c].slots + [th.mine], cacheSize := S.cs[th.c].cacheSize + delta);
    assert S'.cs == S.cs[th.c := cen];
    CreditsChange(S.threads, t, th');
    SlotTotalChange(S.cs, th.c, cen);
    CentralsSlots(S.spans, S.cs, th.c, cen);
    CentralCacheAt(P, S.cs, th.c);
    CacheChange(P, S.cs, th.c, cen);
    PushClass(S.spans, S.pagemap, S.cs, th.c, cen, th.mine);
    OfClassNone(S.spans, S.pagemap, th.c);
    assert ThreadOk(P, S.spans, S.pagemap, t, th');
    hide ThreadOk, LocalsOk;
    ThreadsChange(P, S.spans, S.pagemap, S.threads, t, th');
    PushBoxes(S, t, S');
    assert S'.places.Keys == S.places.Keys;
  }

  lemma OfClassNone(spans: map<SpanId, Span>, pagemap: map<nat, SpanId>, c: nat)
    ensures OfClass(spans, pagemap, [], c)
  {
  }

  lemma CacheClassAt(spans: map<SpanId, Span>, pagemap: map<nat, SpanId>, cs: seq<Central>, c: nat)
    requires CacheClassOk(spans, pagemap, cs) && c < |cs|
    ensures OfClass(spans, pagemap, Flatten(cs[c].slots), c)
  {
  }

  /** The newest slot of class v is emptied into thread t's hands or the clients'. */
  lemma PopBoxes(S: State, v: nat, t: Tid, to: Place, S': State)
    requires BoxesOk(S) && t in S.threads && v < |S.cs| && S.cs[v].slots != [] && S.threads[t].shed == []
    requires to == Client || to == Flight(t)
    requires S'.spans == S.spans && S'.threads.Keys == S.threads.Keys && |S'.cs| == |S.cs|
    requires var q := S.cs[v].slots; var chain := q[|q| - 1];
      && S'.cs[v].slots == q[..|q| - 1]
      && (forall d :: 0 <= d < |S.cs| && d != v ==> S'.cs[d] == S.cs[d])
      && S'.places == MoveAll(S.places, chain, to)
      && S'.threads[t].mine == S.threads[t].mine && S'.threads[t].shed == (if to == Client then [] else chain)
    requires forall u :: u in S.threads && u != t ==> S'.threads[u] == S.threads[u]
    ensures BoxesOk(S')
  {
    hide NoDup, Flatten;
    var q := S.cs[v].slots;
    var chain := q[|q| - 1];
    assert q == q[..|q| - 1] + [chain];
    FlattenPush(q[..|q| - 1], chain);
    BoxAt(S, Flight(t));
    BoxAt(S, InCache(v));
    assert Box(S, Flight(t)) == S.threads[t].mine;
    NoDupParts(Flatten(q[..|q| - 1]), chain);
    NoDupConcat(S.threads[t].mine, chain);
    assert to == Client ==> Box(S', Flight(t)) == Box(S, Flight(t));
    BoxesMove(S, S', chain, InCache(v), to);
  }

  lemma PopClass(spans: map<SpanId, Span>, pagemap: map<nat, SpanId>, cs: seq<Central>, v: nat, cen: Central)
    requires CacheClassOk(spans, pagemap, cs) && v < |cs| && cs[v].slots != []
    requires cen.slots == cs[v].slots[..|cs[v].slots| - 1]
    ensures CacheClassOk(spans, pagemap, cs[v := cen])
    ensures OfClass(spans, pagemap, cs[v].slots[|cs[v].slots| - 1], v)
  {
    hide OfClass, Flatten;
    var q := cs[v].slots;
    var chain := q[|q| - 1];
    assert q == q[..|q| - 1] + [chain];
    FlattenPush(q[..|q| - 1], chain);
    CacheClassAt(spans, pagemap, cs, v);
    OfClassConcat(spans, pagemap, Flatten(q[..|q| - 1]), chain, v);
    CacheClassChange(spans, pagemap, cs, v, cen);
  }

  lemma PopKeeps(P: Params, S: State, total: int, t: Tid, v: nat, delta: int, to: Place, th: Thread,
                 locks: seq<Option<Tid>>)
    requires Inv(P, S, total) && t in S.threads && v < P.N() && S.cs[v].slots != []
    requires S.threads[t].shed == [] && S.threads[t].pc != PopulateLock && (to == Client || to == Flight(t))
    requires var q := S.cs[v].slots;
      && -1 <= delta <= 0
      && th.mine == S.threads[t].mine && th.shed == (if to == Client then [] else q[|q| - 1])
      && delta + Credit(th) <= Credit(S.threads[t])
      && LocalsOk(P, th) && (to != Client ==> th.v == v) && th.c == S.threads[t].c && th.pc != Deleting &&
        th.pc != PopulateLock
      && LocksOk(locks, S.threads[t := th]) && |locks| == |S.locks|
    ensures Inv(P, PopSlot(Grow(S, v, delta), v, to).(threads := S.threads[t := th], locks := locks), total)
  {
    hide LocksOk, SpansOk, UniverseOk, ThreadsOk, BoxesOk, CacheOk, CentralsOk, CacheClassOk, OfClass, NoDup, Flatten,
         Credits, LocalsOk;
    ThreadAt(P, S, total, t);
    var S' := PopSlot(Grow(S, v, delta), v, to).(threads := S.threads[t := th], locks := locks);
    var q := S.cs[v].slots;
    var chain := q[|q| - 1];
    var cen := S.cs[v].(slots := q[..|q| - 1], cacheSize := S.cs[v].cacheSize + delta);
    assert S'.cs == S.cs[v := cen];
    CreditsChange(S.threads, t, th);
    SlotTotalChange(S.cs, v, cen);
    CentralsSlots(S.spans, S.cs, v, cen);
    CentralCacheAt(P, S.cs, v);
    CacheChange(P, S.cs, v, cen);
    PopClass(S.spans, S.pagemap, S.cs, v, cen);
    OfClassNone(S.spans, S.pagemap, th.v);
    assert ThreadOk(P, S.spans, S.pagemap, t, th);
    hide ThreadOk;
    ThreadsChange(P, S.spans, S.pagemap, S.threads, t, th);
    PopBoxes(S, v, t, to, S');
    assert S'.places.Keys == S.places.Keys;
  }

  // ------------------------------------------------------------- span lists

  lemma {:induction false} FreeTotalOther(spans: map<SpanId, Span>, spans': map<SpanId, Span>, q: seq<SpanId>)
    requires forall x :: x in q ==>
      (x in spans <==> x in spans') && (x in spans ==> spans[x].objects == spans'[x].objects)
    ensures FreeTotal(spans, q) == FreeTotal(spans', q)
  {
    if q != [] {
      assert q == [q[0]] + q[1..];
      FreeTotalOther(spans, spans', q[1..]);
    }
  }

  lemma {:induction false} FreeTotalChange(spans: map<SpanId, Span>, q: seq<SpanId>, s: SpanId, sp: Span)
    requires NoDup(q) && s in q && s in spans
    ensures FreeTotal(spans[s := sp], q) == FreeTotal(spans, q) - |spans[s].objects| + |sp.objects|
  {
    NoDupTail(q);
    if q[0] == s {
      FreeTotalOther(spans, spans[s := sp], q[1..]);
    } else {
      FreeTotalChange(spans, q[1..], s, sp);
    }
  }

  lemma {:induction false} FreeTotalWithout(spans: map<SpanId, Span>, q: seq<SpanId>, s: SpanId)
    requires NoDup(q) && s in q && s in spans
    ensures FreeTotal(spans, Without(q, s)) == FreeTotal(spans, q) - |spans[s].objects|
  {
    NoDupTail(q);
    if q[0] != s {
      FreeTotalWithout(spans, q[1..], s);
    }
  }

  /** Changing a span of another class does not disturb a class's lists. */
  lemma CentralOther(spans: map<SpanId, Span>, spans': map<SpanId, Span>, s: SpanId, c: nat, cen: Central)
    requires CentralOk(spans, c, cen)
    requires forall x :: x != s ==> (x in spans <==> x in spans') && (x in spans ==> spans[x] == spans'[x])
    requires (s in spans ==> spans[s].cls != c) && (s in spans' ==> spans'[s].cls != c)
    ensures CentralOk(spans', c, cen)
  {
    hide NoDup;
    assert forall x, b :: OnList(spans, x, c, b) <==> OnList(spans', x, c, b);
    hide OnList;
    assert s !in cen.nonempty by { assert !OnList(spans, s, c, true); }
    FreeTotalOther(spans, spans', cen.nonempty);
  }

  lemma CentralsChange(spans: map<SpanId, Span>, spans': map<SpanId, Span>, s: SpanId, cs: seq<Central>, c: nat,
                       cen: Central)
    requires CentralsOk(spans, cs) && c < |cs| && CentralOk(spans', c, cen)
    requires forall x :: x != s ==> (x in spans <==> x in spans') && (x in spans ==> spans[x] == spans'[x])
    requires (s in spans ==> spans[s].cls == c) && (s in spans' ==> spans'[s].cls == c)
    ensures CentralsOk(spans', cs[c := cen])
  {
    hide CentralOk;
    forall d | 0 <= d < |cs| && d != c
      ensures CentralOk(spans', d, cs[d])
    {
      CentralOther(spans, spans', s, d, cs[d]);
    }
  }

  /** ReleaseToSpans, first half: a span that gains an object is on the non-empty list. */
  lemma ReviveOk(spans: map<SpanId, Span>, c: nat, cen: Central, s: SpanId, sp': Span)
    requires CentralOk(spans, c, cen) && s in spans && spans[s].cls == c && spans[s].holder == None
    requires sp'.cls == c && sp'.holder == None && |sp'.objects| == |spans[s].objects| + 1
    ensures CentralOk(spans[s := sp'], c, Revive(cen, s, spans[s]).(counter := cen.counter + 1))
  {
    hide NoDup;
    var spans' := spans[s := sp'];
    assert forall x, b :: x != s ==> (OnList(spans', x, c, b) <==> OnList(spans, x, c, b));
    assert OnList(spans', s, c, true) && !OnList(spans', s, c, false);
    if spans[s].objects == [] {
      assert OnList(spans, s, c, false) && !OnList(spans, s, c, true);
      hide OnList;
      WithoutSpec(cen.empty, s);
      NoDupPrepend(cen.nonempty, s);
      FreeTotalOther(spans, spans', cen.nonempty);
      assert ([s] + cen.nonempty)[1..] == cen.nonempty;
    } else {
      assert OnList(spans, s, c, true) && !OnList(spans, s, c, false);
      hide OnList;
      FreeTotalChange(spans, cen.nonempty, s, sp');
    }
  }

  // ------------------------------------------------- objects and their spans

  lemma SubsetSameSize<T>(a: set<T>, b: set<T>)
    requires a <= b
    ensures |a| <= |b|
    ensures |a| == |b| ==> a == b
  {
    assert b == a + (b - a);
  }

  /** An object away from its span keeps the span's reference count up, and when that
      count is one, no other object of the span is away. */
  lemma AwayObject(P: Params, S: State, total: int, o: Obj, s: SpanId)
    requires Inv(P, S, total) && o in S.places && o / 8192 in S.pagemap && s == S.pagemap[o / 8192] &&
             S.places[o] != InSpan(s)
    ensures s in S.spans && S.spans[s].cls < P.N() && o in ObjectsOf(P, S.spans[s]) && o !in S.spans[s].objects
    ensures S.spans[s].refcount >= 1 && S.spans[s].holder == None
    ensures S.spans[s].refcount == 1 ==>
      forall x :: x in ObjectsOf(P, S.spans[s]) && x != o ==> x in S.places && S.places[x] == InSpan(s)
  {
    hide LocksOk, CacheOk, CentralsOk, CacheClassOk, ThreadsOk, HoldersOk, Universe;
    var sp := S.spans[s];
    assert SpanOk(P, s, sp, S.pagemap);
    BoxAt(S, InSpan(s));
    var all := ObjectsOf(P, sp);
    var home := set x | x in sp.objects;
    CountAll(sp.objects, home);
    assert home <= all - {o};
    assert |all - {o}| == |all| - 1;
    SubsetSameSize(home, all - {o});
    if sp.refcount == 1 {
      forall x | x in all && x != o
        ensures x in S.places && S.places[x] == InSpan(s)
      {
        assert x in all - {o};
        assert x in sp.objects;
      }
    }
  }

  lemma SameClass(a: map<SpanId, Span>, b: map<SpanId, Span>, pagemap: map<nat, SpanId>, q: seq<Obj>, c: nat)
    requires a.Keys == b.Keys && forall x :: x in a ==> a[x].cls == b[x].cls
    ensures OfClass(a, pagemap, q, c) ==> OfClass(b, pagemap, q, c)
  {
  }

  lemma SameCacheClass(a: map<SpanId, Span>, b: map<SpanId, Span>, pagemap: map<nat, SpanId>, cs: seq<Central>)
    requires a.Keys == b.Keys && (forall x :: x in a ==> a[x].cls == b[x].cls) && CacheClassOk(a, pagemap, cs)
    ensures CacheClassOk(b, pagemap, cs)
  {
    hide OfClass, Flatten;
    forall c | 0 <= c < |cs|
      ensures OfClass(b, pagemap, Flatten(cs[c].slots), c)
    {
      SameClass(a, b, pagemap, Flatten(cs[c].slots), c);
    }
  }

  /** A change inside a listed span leaves every thread's locals right. */
  lemma SameThreads(P: Params, a: map<SpanId, Span>, s: SpanId, sp: Span, pagemap: map<nat, SpanId>,
                    threads: map<Tid, Thread>)
    requires ThreadsOk(P, a, pagemap, threads) && s in a && a[s].holder == None && sp.cls == a[s].cls
    ensures ThreadsOk(P, a[s := sp], pagemap, threads)
  {
    hide OfClass, LocalsOk;
    forall t | t in threads
      ensures ThreadOk(P, a[s := sp], pagemap, t, threads[t])
    {
      assert ThreadOk(P, a, pagemap, t, threads[t]);
      SameClass(a, a[s := sp], pagemap, threads[t].mine, threads[t].c);
      SameClass(a, a[s := sp], pagemap, threads[t].shed, threads[t].v);
    }
  }

  lemma SameUniverse(P: Params, a: map<SpanId, Span>, s: SpanId, sp: Span, pagemap: map<nat, SpanId>, objects: set<Obj>)
    requires P.Valid() && SpansOk(P, a, pagemap) && SpansOk(P, a[s := sp], pagemap) &&
             UniverseOk(P, a, pagemap, objects)
    requires s in a && sp.cls == a[s].cls && sp.start == a[s].start
    ensures UniverseOk(P, a[s := sp], pagemap, objects)
  {
    hide Universe;
    forall x | x in a
      ensures a[x].cls < P.N() && ObjectsOf(P, a[s := sp][x]) == ObjectsOf(P, a[x])
    {
      assert SpanOk(P, x, a[x], pagemap);
    }
  }

  // ---------------------------------------------------------- ReleaseToSpans

  lemma ReleaseBoxes(S: State, t: Tid, s: SpanId, S': State)
    requires BoxesOk(S) && t in S.threads && S.threads[t].shed != [] && s in S.spans
    requires var o := S.threads[t].shed[0];
      && s in S'.spans && S'.spans == S.spans[s := S'.spans[s]] && S'.spans[s].objects == [o] + S.spans[s].objects
      && S'.places == S.places[o := InSpan(s)]
    requires |S'.cs| == |S.cs| && forall c :: 0 <= c < |S.cs| ==> S'.cs[c].slots == S.cs[c].slots
    requires t in S'.threads && S'.threads == S.threads[t := S'.threads[t]]
    requires S'.threads[t].mine == S.threads[t].mine && S'.threads[t].shed == S.threads[t].shed[1..]
    ensures BoxesOk(S')
  {
    hide NoDup, Flatten;
    var th := S.threads[t];
    var o := th.shed[0];
    BoxAt(S, Flight(t));
    BoxAt(S, InSpan(s));
    assert Box(S, Flight(t)) == th.mine + th.shed;
    assert o in th.mine + th.shed;
    assert S'.places == MoveAll(S.places, [o], InSpan(s));
    NoDupParts(th.mine, th.shed);
    NoDupTail(th.shed);
    NoDupConcat(th.mine, th.shed[1..]);
    NoDupPrepend(S.spans[s].objects, o);
    BoxesMove(S, S', [o], Flight(t), InSpan(s));
  }

  lemma ReleaseOneKeeps(P: Params, S: State, total: int, t: Tid, s: SpanId)
    requires Inv(P, S, total) && t in S.threads && S.threads[t].pc == Release && S.threads[t].shed != []
    requires var o := S.threads[t].shed[0];
      o / 8192 in S.pagemap && s == S.pagemap[o / 8192] && s in S.spans && S.spans[s].refcount != 1
    ensures Inv(P, ReleaseOne(S, t, s), total)
  {
    hide LocksOk, CacheOk, CentralsOk, CacheClassOk, ThreadsOk, UniverseOk, SpansOk, Credits, BoxesOk, OfClass, Revive,
         Flatten, ObjectsOf, CentralOk;
    var th := S.threads[t];
    var o := th.shed[0];
    var sp := S.spans[s];
    var th' := th.(shed := th.shed[1..]);
    var sp' := sp.(objects := [o] + sp.objects, refcount := sp.refcount - 1);
    ThreadAt(P, S, total, t);
    var S' := ReleaseOne(S, t, s);
    FlightPlace(S, t, o);
    AwayObject(P, S, total, o, s);
    OfClassAt(S.spans, S.pagemap, th.shed, th.v, o);
    LockKept(S.locks, S.threads, t, th');
    CreditsChange(S.threads, t, th');
    CentralAt(S.spans, S.cs, th.v);
    ReviveOk(S.spans, th.v, S.cs[th.v], s, sp');
    ReviveSlots(S.cs[th.v], s, sp);
    CentralsChange(S.spans, S'.spans, s, S.cs, th.v, S'.cs[th.v]);
    SpansChange(P, S.spans, s, sp', S.pagemap);
    SameUniverse(P, S.spans, s, sp', S.pagemap, S.places.Keys);
    assert S'.places.Keys == S.places.Keys;
    SlotTotalChange(S.cs, th.v, S'.cs[th.v]);
    CentralCacheAt(P, S.cs, th.v);
    CacheChange(P, S.cs, th.v, S'.cs[th.v]);
    SameCacheClass(S.spans, S'.spans, S.pagemap, S.cs);
    CacheClassAt(S'.spans, S.pagemap, S.cs, th.v);
    CacheClassChange(S'.spans, S.pagemap, S.cs, th.v, S'.cs[th.v]);
    SameThreads(P, S.spans, s, sp', S.pagemap, S.threads);
    SameClass(S.spans, S'.spans, S.pagemap, th.mine, th.c);
    OfClassTail(S.spans, S'.spans, S.pagemap, th.shed, th.v);
    ThreadsChange(P, S'.spans, S.pagemap, S.threads, t, th');
    ReleaseBoxes(S, t, s, S');
  }

  lemma OfClassAt(spans: map<SpanId, Span>, pagemap: map<nat, SpanId>, q: seq<Obj>, c: nat, o: Obj)
    requires OfClass(spans, pagemap, q, c) && o in q
    ensures o / 8192 in pagemap && pagemap[o / 8192] in spans && spans[pagemap[o / 8192]].cls == c
  {
  }

  lemma OfClassTail(a: map<SpanId, Span>, b: map<SpanId, Span>, pagemap: map<nat, SpanId>, q: seq<Obj>, c: nat)
    requires OfClass(a, pagemap, q, c) && q != [] && a.Keys == b.Keys && forall x :: x in a ==> a[x].cls == b[x].cls
    ensures OfClass(b, pagemap, q[1..], c)
  {
  }

  lemma FlightPlace(S: State, t: Tid, o: Obj)
    requires BoxesOk(S) && t in S.threads && (o in S.threads[t].mine || o in S.threads[t].shed)
    ensures o in S.places && S.places[o] == Flight(t)
  {
    BoxAt(S, Flight(t));
    assert o in S.threads[t].mine + S.threads[t].shed;
  }

  lemma CentralAt(spans: map<SpanId, Span>, cs: seq<Central>, c: nat)
    requires CentralsOk(spans, cs) && c < |cs|
    ensures CentralOk(spans, c, cs[c])
  {
  }

  lemma ReviveSlots(cen: Central, s: SpanId, sp: Span)
    ensures var r := Revive(cen, s, sp);
      r.slots == cen.slots && r.cacheSize == cen.cacheSize && r.counter == cen.counter && r.numSpans == cen.numSpans
  {
  }

  lemma SpansChange(P: Params, spans: map<SpanId, Span>, s: SpanId, sp: Span, pagemap: map<nat, SpanId>)
    requires P.Valid() && SpansOk(P, spans, pagemap) && s in spans && sp.cls == spans[s].cls &&
             sp.start == spans[s].start
    requires sp.refcount + |sp.objects| == spans[s].refcount + |spans[s].objects| && sp.refcount >= 0
    requires sp.holder != None ==> sp.refcount == 0
    requires forall o :: o in sp.objects ==> sp.cls < P.N() && (o in spans[s].objects || o in ObjectsOf(P, spans[s]))
    ensures SpansOk(P, spans[s := sp], pagemap)
  {
    hide Universe;
    assert SpanOk(P, s, spans[s], pagemap);
    assert ObjectsOf(P, sp) == ObjectsOf(P, spans[s]);
    forall o | o in sp.objects
      ensures o in ObjectsOf(P, sp)
    {
    }
    assert SpanOk(P, s, sp, pagemap);
    hide SpanOk;
  }

  // ---------------------------------------- ReleaseToSpans of the last object

  lemma UnlistOk(spans: map<SpanId, Span>, c: nat, cen: Central, s: SpanId)
    requires CentralOk(spans, c, cen) && OnList(spans, s, c, true)
    ensures CentralOk(spans - {s}, c, cen.(nonempty := Without(cen.nonempty, s), numSpans := cen.numSpans - 1,
                                           counter := cen.counter - |spans[s].objects|))
  {
    hide NoDup;
    var spans' := spans - {s};
    assert forall x, b :: OnList(spans', x, c, b) <==> OnList(spans, x, c, b) && x != s;
    assert !OnList(spans, s, c, false);
    var size := |spans[s].objects|;
    assert s in spans;
    hide OnList;
    WithoutSpec(cen.nonempty, s);
    FreeTotalWithout(spans, cen.nonempty, s);
    FreeTotalOther(spans, spans', Without(cen.nonempty, s));
  }

  /** Every object of span s except o is in the span's own list. */
  ghost predicate AllHome(P: Params, S: State, s: SpanId, o: Obj)
    requires P.Valid() && s in S.spans && S.spans[s].cls < P.N()
  {
    forall x :: x in ObjectsOf(P, S.spans[s]) && x != o ==> x in S.places && S.places[x] == InSpan(s)
  }

  /** Objects that are elsewhere belong to other spans. */
  lemma Elsewhere(P: Params, S: State, total: int, s: SpanId, o: Obj, x: Obj)
    requires Inv(P, S, total) && s in S.spans && S.spans[s].cls < P.N() && AllHome(P, S, s, o)
    requires x in S.places && S.places[x] != InSpan(s) && x != o
    ensures x !in ObjectsOf(P, S.spans[s])
    ensures x / 8192 in S.pagemap && S.pagemap[x / 8192] in S.spans && S.pagemap[x / 8192] != s
  {
    hide LocksOk, CacheOk, CentralsOk, CacheClassOk, ThreadsOk, HoldersOk, Universe, BoxesOk, SpansOk;
    assert x !in ObjectsOf(P, S.spans[s]);
  }

  lemma StillOfClass(P: Params, S: State, total: int, s: SpanId, o: Obj, q: seq<Obj>, c: nat)
    requires Inv(P, S, total) && s in S.spans && S.spans[s].cls < P.N() && AllHome(P, S, s, o)
    requires OfClass(S.spans, S.pagemap, q, c)
    requires forall x :: x in q ==> x in S.places && S.places[x] != InSpan(s) && x != o
    ensures OfClass(S.spans - {s}, S.pagemap, q, c)
  {
    hide Inv, AllHome;
    forall x | x in q
      ensures x / 8192 in S.pagemap && S.pagemap[x / 8192] in S.spans - {s} &&
              (S.spans - {s})[S.pagemap[x / 8192]].cls == c
    {
      Elsewhere(P, S, total, s, o, x);
    }
  }

  lemma KillCacheClass(P: Params, S: State, total: int, s: SpanId, o: Obj)
    requires Inv(P, S, total) && s in S.spans && S.spans[s].cls < P.N() && AllHome(P, S, s, o)
    requires o in S.places && S.places[o].Flight?
    ensures CacheClassOk(S.spans - {s}, S.pagemap, S.cs)
  {
    hide LocksOk, CacheOk, CentralsOk, CacheClassOk, ThreadsOk, HoldersOk, SpansOk, UniverseOk, AllHome, OfClass,
         Flatten;
    forall c | 0 <= c < |S.cs|
      ensures OfClass(S.spans - {s}, S.pagemap, Flatten(S.cs[c].slots), c)
    {
      CacheClassAt(S.spans, S.pagemap, S.cs, c);
      BoxAt(S, InCache(c));
      StillOfClass(P, S, total, s, o, Flatten(S.cs[c].slots), c);
    }
    CacheClassAll(S.spans - {s}, S.pagemap, S.cs);
  }

  lemma CacheClassAll(spans: map<SpanId, Span>, pagemap: map<nat, SpanId>, cs: seq<Central>)
    requires forall c :: 0 <= c < |cs| ==> OfClass(spans, pagemap, Flatten(cs[c].slots), c)
    ensures CacheClassOk(spans, pagemap, cs)
  {
  }

  lemma KillThreads(P: Params, S: State, total: int, s: SpanId, o: Obj, t: Tid)
    requires Inv(P, S, total) && s in S.spans && S.spans[s].cls < P.N() && AllHome(P, S, s, o) &&
             S.spans[s].holder == None
    requires o in S.places && S.places[o] == Flight(t)
    ensures forall u :: u in S.threads && u != t ==> ThreadOk(P, S.spans - {s}, S.pagemap, u, S.threads[u])
  {
    hide LocksOk, CacheOk, CentralsOk, CacheClassOk, HoldersOk, SpansOk, UniverseOk, AllHome, OfClass, ThreadsOk,
         BoxesOk, LocalsOk;
    forall u | u in S.threads && u != t
      ensures ThreadOk(P, S.spans - {s}, S.pagemap, u, S.threads[u])
    {
      ThreadAt(P, S, total, u);
      forall x | x in S.threads[u].mine || x in S.threads[u].shed
        ensures x in S.places && S.places[x] != InSpan(s) && x != o
      {
        FlightPlace(S, u, x);
      }
      StillOfClass(P, S, total, s, o, S.threads[u].mine, S.threads[u].c);
      StillOfClass(P, S, total, s, o, S.threads[u].shed, S.threads[u].v);
    }
  }

  lemma KillUniverse(P: Params, spans: map<SpanId, Span>, pagemap: map<nat, SpanId>, objects: set<Obj>, s: SpanId)
    requires P.Valid() && SpansOk(P, spans, pagemap) && UniverseOk(P, spans, pagemap, objects) && s in spans &&
             spans[s].cls < P.N()
    ensures SpansOk(P, spans - {s}, pagemap)
    ensures UniverseOk(P, spans - {s}, pagemap, objects - ObjectsOf(P, spans[s]))
  {
    hide ObjectsOf, SpanOk;
    var all := ObjectsOf(P, spans[s]);
    forall x | x in spans
      ensures spans[x].cls < P.N()
    {
      SpanClass(P, spans, pagemap, x);
    }
    forall o | o in objects - all
      ensures o / 8192 in pagemap && pagemap[o / 8192] in spans - {s} &&
              o in ObjectsOf(P, (spans - {s})[pagemap[o / 8192]])
    {
    }
    forall x, o | x in spans - {s} && o in ObjectsOf(P, (spans - {s})[x])
      ensures o in objects - all && LivesIn(pagemap, o, x)
    {
      assert LivesIn(pagemap, o, x);
      assert o in all ==> LivesIn(pagemap, o, s);
    }
  }

  lemma SpanClass(P: Params, spans: map<SpanId, Span>, pagemap: map<nat, SpanId>, x: SpanId)
    requires P.Valid() && SpansOk(P, spans, pagemap) && x in spans
    ensures spans[x].cls < P.N()
  {
    assert SpanOk(P, x, spans[x], pagemap);
  }

  lemma KillBoxes(P: Params, S: State, total: int, t: Tid, s: SpanId, S': State)
    requires Inv(P, S, total) && t in S.threads && S.threads[t].shed != [] && s in S.spans && S.spans[s].cls < P.N()
    requires AllHome(P, S, s, S.threads[t].shed[0]) && S.threads[t].shed[0] in ObjectsOf(P, S.spans[s])
    requires S'.spans == S.spans - {s} && S'.places == S.places - ObjectsOf(P, S.spans[s])
    requires |S'.cs| == |S.cs| && forall c :: 0 <= c < |S.cs| ==> S'.cs[c].slots == S.cs[c].slots
    requires t in S'.threads && S'.threads == S.threads[t := S'.threads[t]]
    requires S'.threads[t].mine == S.threads[t].mine && S'.threads[t].shed == S.threads[t].shed[1..]
    ensures BoxesOk(S')
  {
    hide LocksOk, CacheOk, CentralsOk, CacheClassOk, HoldersOk, SpansOk, UniverseOk, ThreadsOk, ObjectsOf, NoDup,
         Flatten, AllHome;
    var th := S.threads[t];
    var o := th.shed[0];
    BoxAt(S, Flight(t));
    assert o in th.mine + th.shed;
    NoDupParts(th.mine, th.shed);
    NoDupTail(th.shed);
    NoDupConcat(th.mine, th.shed[1..]);
    forall pl | pl != Client
      ensures BoxOk(S'.places, pl, Box(S', pl))
    {
      BoxAt(S, pl);
      if pl == InSpan(s) {
        NoDupNone<Obj>();
        AllHomeSpan(P, S, total, s, o);
      } else {
        forall x | x in S.places && S.places[x] == pl && x != o
          ensures x in S'.places
        {
          Elsewhere(P, S, total, s, o, x);
        }
      }
    }
  }

  /** What the span's own list holds are its own objects. */
  lemma AllHomeSpan(P: Params, S: State, total: int, s: SpanId, o: Obj)
    requires Inv(P, S, total) && s in S.spans && S.spans[s].cls < P.N()
    ensures forall x :: x in S.places && S.places[x] == InSpan(s) ==> x in ObjectsOf(P, S.spans[s])
  {
    hide LocksOk, CacheOk, CentralsOk, CacheClassOk, HoldersOk, UniverseOk, ThreadsOk, ObjectsOf, NoDup;
    BoxAt(S, InSpan(s));
    assert SpanOk(P, s, S.spans[s], S.pagemap);
  }

  lemma ReleaseLastKeeps(P: Params, S: State, total: int, t: Tid, s: SpanId)
    requires Inv(P, S, total) && t in S.threads && S.threads[t].pc == Release && S.threads[t].shed != []
    requires var o := S.threads[t].shed[0];
      o / 8192 in S.pagemap && s == S.pagemap[o / 8192] && s in S.spans && S.spans[s].refcount == 1
    requires S.spans[s].cls < P.N() && S.threads[t].v < P.N()
    ensures AllHome(P, S, s, S.threads[t].shed[0])
    ensures Inv(P, ReleaseLast(P, S, t, s), total)
  {
    hide LocksOk, CacheOk, CentralsOk, CacheClassOk, ThreadsOk, UniverseOk, SpansOk, Credits, BoxesOk, OfClass, Revive,
         Flatten, ObjectsOf, CentralOk, LocalsOk;
    var th := S.threads[t];
    var o := th.shed[0];
    var sp := S.spans[s];
    var th' := th.(pc := Deleting, span := s, shed := th.shed[1..]);
    var S' := ReleaseLast(P, S, t, s);
    ThreadAt(P, S, total, t);
    FlightPlace(S, t, o);
    AwayObject(P, S, total, o, s);
    assert AllHome(P, S, s, o);
    OfClassAt(S.spans, S.pagemap, th.shed, th.v, o);
    LockDropped(S.locks, S.threads, th.v, t, th');
    CreditsChange(S.threads, t, th');
    KillCentral(P, S, total, s, o);
    ReviveSlots(S.cs[th.v], s, sp);
    CentralsChange(S.spans, S'.spans, s, S.cs, th.v, S'.cs[th.v]);
    KillUniverse(P, S.spans, S.pagemap, S.places.Keys, s);
    assert S'.places.Keys == S.places.Keys - ObjectsOf(P, sp);
    SlotTotalChange(S.cs, th.v, S'.cs[th.v]);
    CentralCacheAt(P, S.cs, th.v);
    CacheChange(P, S.cs, th.v, S'.cs[th.v]);
    KillCacheClass(P, S, total, s, o);
    CacheClassAt(S'.spans, S.pagemap, S.cs, th.v);
    CacheClassChange(S'.spans, S.pagemap, S.cs, th.v, S'.cs[th.v]);
    KillThreads(P, S, total, s, o, t);
    KillerThread(P, S, total, t, s);
    ThreadsAll(P, S'.spans, S.pagemap, S.threads, t, th');
    KillBoxes(P, S, total, t, s, S');
  }

  lemma KillCentral(P: Params, S: State, total: int, s: SpanId, o: Obj)
    requires Inv(P, S, total) && s in S.spans && S.spans[s].cls < P.N() && S.spans[s].holder == None &&
             S.spans[s].refcount == 1
    ensures var sp := S.spans[s]; var cen := Revive(S.cs[sp.cls], s, sp);
      CentralOk(S.spans - {s}, sp.cls, cen.(counter := cen.counter + 1 - P.Count(sp.cls), numSpans := cen.numSpans - 1,
                                            nonempty := Without(cen.nonempty, s)))
  {
    hide LocksOk, CacheOk, CacheClassOk, ThreadsOk, UniverseOk, Credits, BoxesOk, OfClass, Flatten, ObjectsOf,
         CentralOk, LocalsOk, HoldersOk;
    var sp := S.spans[s];
    var sp' := sp.(objects := [o] + sp.objects);
    var spans' := S.spans[s := sp'];
    assert SpanOk(P, s, sp, S.pagemap);
    CentralAt(S.spans, S.cs, sp.cls);
    ReviveOk(S.spans, sp.cls, S.cs[sp.cls], s, sp');
    ReviveSlots(S.cs[sp.cls], s, sp);
    UnlistOk(spans', sp.cls, Revive(S.cs[sp.cls], s, sp).(counter := S.cs[sp.cls].counter + 1), s);
    assert spans' - {s} == S.spans - {s};
  }

  lemma KillerThread(P: Params, S: State, total: int, t: Tid, s: SpanId)
    requires Inv(P, S, total) && t in S.threads && S.threads[t].pc == Release && S.threads[t].shed != []
    requires s in S.spans && S.spans[s].cls < P.N() && AllHome(P, S, s, S.threads[t].shed[0])
    ensures ThreadOk(P, S.spans - {s}, S.pagemap, t,
            S.threads[t].(pc := Deleting, span := s, shed := S.threads[t].shed[1..]))
  {
    hide LocksOk, CacheOk, CentralsOk, CacheClassOk, HoldersOk, SpansOk, UniverseOk, AllHome, OfClass, ThreadsOk,
         BoxesOk, NoDup;
    var th := S.threads[t];
    var o := th.shed[0];
    ThreadAt(P, S, total, t);
    BoxAt(S, Flight(t));
    NoDupParts(th.mine, th.shed);
    NoDupTail(th.shed);
    forall x | x in th.mine || x in th.shed[1..]
      ensures x in S.places && S.places[x] != InSpan(s) && x != o
    {
      FlightPlace(S, t, x);
    }
    OfClassTail(S.spans, S.spans, S.pagemap, th.shed, th.v);
    StillOfClass(P, S, total, s, o, th.mine, th.c);
    StillOfClass(P, S, total, s, o, th.shed[1..], th.v);
  }

  lemma ThreadsAll(P: Params, spans: map<SpanId, Span>, pagemap: map<nat, SpanId>, threads: map<Tid, Thread>, t: Tid,
                   th: Thread)
    requires forall u :: u in threads && u != t ==> ThreadOk(P, spans, pagemap, u, threads[u])
    requires ThreadOk(P, spans, pagemap, t, th)
    ensures ThreadsOk(P, spans, pagemap, threads[t := th])
  {
    hide ThreadOk;
  }

  // --------------------------------------------------------- FetchFromSpans

  lemma FetchCentral(spans: map<SpanId, Span>, c: nat, cen: Central, s: SpanId, sp': Span)
    requires CentralOk(spans, c, cen) && cen.nonempty != [] && s == cen.nonempty[0] && s in spans
    requires sp'.cls == c && sp'.holder == None && |sp'.objects| == |spans[s].objects| - 1
    ensures CentralOk(spans[s := sp'], c,
      (if sp'.objects == [] then cen.(nonempty := cen.nonempty[1..], empty := [s] + cen.empty)
        else cen).(counter := cen.counter - 1))
  {
    hide NoDup;
    var spans' := spans[s := sp'];
    assert s in cen.nonempty && OnList(spans, s, c, true) && !OnList(spans, s, c, false);
    assert forall x, b :: x != s ==> (OnList(spans', x, c, b) <==> OnList(spans, x, c, b));
    assert OnList(spans', s, c, sp'.objects != []) && !OnList(spans', s, c, sp'.objects == []);
    hide OnList;
    if sp'.objects == [] {
      NoDupTail(cen.nonempty);
      NoDupPrepend(cen.empty, s);
      FreeTotalOther(spans, spans', cen.nonempty[1..]);
    } else {
      FreeTotalChange(spans, cen.nonempty, s, sp');
    }
  }

  lemma FetchBoxes(S: State, t: Tid, s: SpanId, S': State)
    requires BoxesOk(S) && t in S.threads && s in S.spans && S.spans[s].objects != [] && S.threads[t].shed == []
    requires var o := S.spans[s].objects[0];
      && s in S'.spans && S'.spans == S.spans[s := S'.spans[s]] && S'.spans[s].objects == S.spans[s].objects[1..]
      && S'.places == S.places[o := Flight(t)]
      && t in S'.threads && S'.threads == S.threads[t := S'.threads[t]]
      && S'.threads[t].mine == [o] + S.threads[t].mine && S'.threads[t].shed == []
    requires |S'.cs| == |S.cs| && forall c :: 0 <= c < |S.cs| ==> S'.cs[c].slots == S.cs[c].slots
    ensures BoxesOk(S')
  {
    hide NoDup, Flatten;
    var th := S.threads[t];
    var o := S.spans[s].objects[0];
    BoxAt(S, Flight(t));
    BoxAt(S, InSpan(s));
    assert Box(S, Flight(t)) == th.mine && Box(S', Flight(t)) == [o] + th.mine;
    assert o in S.spans[s].objects;
    assert S'.places == MoveAll(S.places, [o], Flight(t));
    NoDupTail(S.spans[s].objects);
    NoDupPrepend(th.mine, o);
    BoxesMove(S, S', [o], InSpan(s), Flight(t));
  }

  lemma FetchReady(P: Params, S: State, total: int, c: nat)
    requires Inv(P, S, total) && c < P.N() && S.cs[c].nonempty != []
    ensures var s := S.cs[c].nonempty[0]; s in S.spans && OnList(S.spans, s, c, true)
  {
    hide LocksOk, CacheOk, CacheClassOk, ThreadsOk, UniverseOk, Credits, BoxesOk, SpansOk, HoldersOk, NoDup;
    CentralAt(S.spans, S.cs, c);
    assert S.cs[c].nonempty[0] in S.cs[c].nonempty;
  }

  lemma FetchOneKeeps(P: Params, S: State, total: int, t: Tid)
    requires Inv(P, S, total) && t in S.threads && S.threads[t].pc == Fetch && S.threads[t].c < P.N() &&
             S.cs[S.threads[t].c].nonempty != []
    requires var s := S.cs[S.threads[t].c].nonempty[0]; OnList(S.spans, s, S.threads[t].c, true)
    ensures Inv(P, FetchOne(S, t), total)
  {
    hide LocksOk, CacheOk, CentralsOk, CacheClassOk, ThreadsOk, UniverseOk, SpansOk, Credits, BoxesOk, OfClass,
         Flatten, ObjectsOf, CentralOk, LocalsOk;
    var th := S.threads[t];
    var s := S.cs[th.c].nonempty[0];
    var sp := S.spans[s];
    var o := sp.objects[0];
    var th' := th.(mine := [o] + th.mine);
    var sp' := sp.(objects := sp.objects[1..], refcount := sp.refcount + 1);
    var S' := FetchOne(S, t);
    ThreadAt(P, S, total, t);
    ObjectHome(P, S, total, s, o);
    LockKept(S.locks, S.threads, t, th');
    CreditsChange(S.threads, t, th');
    CentralAt(S.spans, S.cs, th.c);
    FetchCentral(S.spans, th.c, S.cs[th.c], s, sp');
    CentralsChange(S.spans, S'.spans, s, S.cs, th.c, S'.cs[th.c]);
    SpansChange(P, S.spans, s, sp', S.pagemap);
    SameUniverse(P, S.spans, s, sp', S.pagemap, S.places.Keys);
    assert S'.places.Keys == S.places.Keys;
    SlotTotalChange(S.cs, th.c, S'.cs[th.c]);
    CentralCacheAt(P, S.cs, th.c);
    CacheChange(P, S.cs, th.c, S'.cs[th.c]);
    SameCacheClass(S.spans, S'.spans, S.pagemap, S.cs);
    CacheClassAt(S'.spans, S.pagemap, S.cs, th.c);
    CacheClassChange(S'.spans, S.pagemap, S.cs, th.c, S'.cs[th.c]);
    SameThreads(P, S.spans, s, sp', S.pagemap, S.threads);
    FetchLocals(P, th, o);
    OfClassFetched(S.spans, S'.spans, S.pagemap, th.mine, o, th.c);
    OfClassNone(S'.spans, S.pagemap, th.v);
    ThreadsChange(P, S'.spans, S.pagemap, S.threads, t, th');
    FetchBoxes(S, t, s, S');
  }

  lemma FetchLocals(P: Params, th: Thread, o: Obj)
    requires LocalsOk(P, th) && th.pc == Fetch
    ensures th.shed == [] && LocalsOk(P, th.(mine := [o] + th.mine))
  {
  }

  /** A free object's page leads to the span whose list it is on. */
  lemma ObjectHome(P: Params, S: State, total: int, s: SpanId, o: Obj)
    requires Inv(P, S, total) && s in S.spans && o in S.spans[s].objects
    ensures o in S.places && o / 8192 in S.pagemap && S.pagemap[o / 8192] == s && S.spans[s].refcount >= 0
  {
    hide LocksOk, CacheOk, CacheClassOk, ThreadsOk, Credits, HoldersOk, NoDup, CentralsOk, ObjectsOf;
    assert SpanOk(P, s, S.spans[s], S.pagemap);
    BoxAt(S, InSpan(s));
    assert LivesIn(S.pagemap, o, s);
  }

  lemma OfClassFetched(a: map<SpanId, Span>, b: map<SpanId, Span>, pagemap: map<nat, SpanId>, q: seq<Obj>, o: Obj,
                       c: nat)
    requires OfClass(a, pagemap, q, c) && a.Keys == b.Keys && forall x :: x in a ==> a[x].cls == b[x].cls
    requires o / 8192 in pagemap && pagemap[o / 8192] in a && a[pagemap[o / 8192]].cls == c
    ensures OfClass(b, pagemap, [o] + q, c)
  {
  }

  // ----------------------------------------------------------- clients' hands

  lemma HandOver(P: Params, S: State, total: int, t: Tid, th: Thread, chain: seq<Obj>, from: Place, to: Place,
                 locks: seq<Option<Tid>>)
    requires Inv(P, S, total) && t in S.threads && S.threads[t].pc != PopulateLock && S.threads[t].shed == [] &&
             th.shed == []
    requires (from == Client && to == Flight(t) && S.threads[t].mine == [] && th.mine == chain)
          || (from == Flight(t) && to == Client && S.threads[t].mine == chain && th.mine == [])
    requires NoDup(chain) && forall o :: o in chain ==> o in S.places && S.places[o] == from
    requires LocksOk(locks, S.threads[t := th]) && |locks| == |S.locks|
    requires Credit(th) <= Credit(S.threads[t]) && ThreadOk(P, S.spans, S.pagemap, t, th)
    ensures Inv(P, S.(threads := S.threads[t := th], locks := locks, places := MoveAll(S.places, chain, to)), total)
  {
    hide LocksOk, SpansOk, CentralsOk, CacheOk, UniverseOk, CacheClassOk, ThreadOk, Credits, HasCredit, NoDup, Flatten;
    var S' := S.(threads := S.threads[t := th], locks := locks, places := MoveAll(S.places, chain, to));
    CreditsChange(S.threads, t, th);
    assert S'.places.Keys == S.places.Keys;
    assert Box(S, Flight(t)) == S.threads[t].mine && Box(S', Flight(t)) == th.mine;
    NoDupNone<Obj>();
    assert BoxesOk(S') by {
      BoxesMove(S, S', chain, from, to);
    }
  }

  // ---------------------------------------------------------------- Populate

  lemma {:induction false} ChainOk(base: nat, size: nat, n: nat)
    requires size > 0
    ensures |Chain(base, size, n)| == n && NoDup(Chain(base, size, n))
    ensures forall o :: o in Chain(base, size, n) <==> o in Universe(base, size, n)
  {
    if n > 0 {
      ChainOk(base, size, n - 1);
      var e := base + (n - 1) * size;
      LastObject(base, size, n, e);
      hide Chain, Universe, NoDup;
      assert e !in Universe(base, size, n - 1);
      assert NoDup([e]) by { NoDupNone<Obj>(); NoDupPrepend([], e); assert [e] + [] == [e]; }
      NoDupConcat(Chain(base, size, n - 1), [e]);
    }
  }

  lemma LastObject(base: nat, size: nat, n: nat, e: Obj)
    requires size > 0 && n > 0 && e == base + (n - 1) * size
    ensures Chain(base, size, n) == Chain(base, size, n - 1) + [e]
    ensures Universe(base, size, n) == Universe(base, size, n - 1) + {e}
  {
  }

  lemma ListCentral(spans: map<SpanId, Span>, c: nat, cen: Central, s: SpanId)
    requires CentralOk(spans, c, cen) && s in spans && spans[s].cls == c && spans[s].holder != None &&
             spans[s].objects != []
    ensures CentralOk(spans[s := spans[s].(holder := None)], c,
      cen.(nonempty := [s] + cen.nonempty, numSpans := cen.numSpans + 1, counter := cen.counter + |spans[s].objects|))
  {
    hide NoDup;
    var spans' := spans[s := spans[s].(holder := None)];
    assert !OnList(spans, s, c, true) && !OnList(spans, s, c, false);
    assert forall x, b :: x != s ==> (OnList(spans', x, c, b) <==> OnList(spans, x, c, b));
    assert OnList(spans', s, c, true) && !OnList(spans', s, c, false);
    hide OnList;
    NoDupPrepend(cen.nonempty, s);
    FreeTotalOther(spans, spans', cen.nonempty);
    assert ([s] + cen.nonempty)[1..] == cen.nonempty;
  }

  lemma ListSpanKeeps(P: Params, S: State, total: int, t: Tid, locks: seq<Option<Tid>>)
    requires Inv(P, S, total) && t in S.threads && S.threads[t].pc == PopulateLock
    requires S.threads[t].c < P.N() && S.threads[t].span in S.spans
    requires LocksOk(locks, S.threads[t := S.threads[t].(pc := Fetch, tried := true)]) && |locks| == |S.locks|
    ensures Inv(P, ListSpan(S, t).(locks := locks), total)
  {
    hide LocksOk, CacheOk, CentralsOk, CacheClassOk, ThreadsOk, UniverseOk, SpansOk, Credits, BoxesOk, OfClass,
         Flatten, ObjectsOf, CentralOk;
    var th := S.threads[t];
    var s := th.span;
    var sp := S.spans[s];
    var th' := th.(pc := Fetch, tried := true);
    var sp' := sp.(holder := None);
    var S' := ListSpan(S, t).(locks := locks);
    ThreadAt(P, S, total, t);
    assert !HasCredit(th) && !HasCredit(th');
    hide ThreadOk, LocalsOk, HasCredit, SpanOk;
    CreditsChange(S.threads, t, th');
    CentralAt(S.spans, S.cs, th.c);
    ListCentral(S.spans, th.c, S.cs[th.c], s);
    CentralsChange(S.spans, S'.spans, s, S.cs, th.c, S'.cs[th.c]);
    SpansHolder(P, S.spans, s, S.pagemap);
    SameUniverse(P, S.spans, s, sp', S.pagemap, S.places.Keys);
    SlotTotalChange(S.cs, th.c, S'.cs[th.c]);
    CentralCacheAt(P, S.cs, th.c);
    CacheChange(P, S.cs, th.c, S'.cs[th.c]);
    SameCacheClass(S.spans, S'.spans, S.pagemap, S.cs);
    CacheClassAt(S'.spans, S.pagemap, S.cs, th.c);
    CacheClassChange(S'.spans, S.pagemap, S.cs, th.c, S'.cs[th.c]);
    ListThreads(P, S.spans, S.pagemap, S.threads, t);
    ListBoxes(S, t, S');
  }

  lemma SpansHolder(P: Params, spans: map<SpanId, Span>, s: SpanId, pagemap: map<nat, SpanId>)
    requires P.Valid() && SpansOk(P, spans, pagemap) && s in spans
    ensures SpansOk(P, spans[s := spans[s].(holder := None)], pagemap)
  {
    assert SpanOk(P, s, spans[s], pagemap);
    SpansChange(P, spans, s, spans[s].(holder := None), pagemap);
  }

  lemma ListThreads(P: Params, spans: map<SpanId, Span>, pagemap: map<nat, SpanId>, threads: map<Tid, Thread>, t: Tid)
    requires ThreadsOk(P, spans, pagemap, threads) && t in threads && threads[t].pc == PopulateLock &&
             threads[t].span in spans
    ensures ThreadsOk(P, spans[threads[t].span := spans[threads[t].span].(holder := None)], pagemap,
                      threads[t := threads[t].(pc := Fetch, tried := true)])
  {
    hide OfClass, LocalsOk;
    var s := threads[t].span;
    var spans' := spans[s := spans[s].(holder := None)];
    var th := threads[t].(pc := Fetch, tried := true);
    assert ThreadOk(P, spans, pagemap, t, threads[t]);
    PopulateLocals(P, threads[t]);
    forall u | u in threads
      ensures ThreadOk(P, spans', pagemap, u, threads[t := th][u])
    {
      assert ThreadOk(P, spans, pagemap, u, threads[u]);
      SameClass(spans, spans', pagemap, threads[u].mine, threads[u].c);
      SameClass(spans, spans', pagemap, threads[u].shed, threads[u].v);
    }
    hide ThreadOk;
  }

  lemma PopulateLocals(P: Params, th: Thread)
    requires LocalsOk(P, th) && th.pc == PopulateLock
    ensures LocalsOk(P, th.(pc := Fetch, tried := true))
  {
  }

  lemma ListBoxes(S: State, t: Tid, S': State)
    requires BoxesOk(S) && t in S.threads && S'.places == S.places && |S'.cs| == |S.cs|
    requires forall c :: 0 <= c < |S.cs| ==> S'.cs[c].slots == S.cs[c].slots
    requires S'.spans.Keys == S.spans.Keys && forall s :: s in S.spans ==> S'.spans[s].objects == S.spans[s].objects
    requires t in S'.threads && S'.threads == S.threads[t := S'.threads[t]]
    requires S'.threads[t].mine == S.threads[t].mine && S'.threads[t].shed == S.threads[t].shed
    ensures BoxesOk(S')
  {
    hide BoxOk, Flatten;
    forall pl | pl != Client
      ensures BoxOk(S'.places, pl, Box(S', pl))
    {
      BoxAt(S, pl);
      assert Box(S', pl) == Box(S, pl);
    }
  }

  /** The pages a class-c span at `start` would occupy are not in use. */
  ghost predicate FreshPages(P: Params, S: State, c: nat, start: nat)
    requires P.Valid() && c < P.N()
  {
    forall p :: start <= p < start + P.pages[c] ==> p !in S.pagemap
  }

  ghost predicate Extends<K, V>(a: map<K, V>, b: map<K, V>) {
    forall k :: k in a ==> k in b && b[k] == a[k]
  }

  lemma ExtendClass(a: map<SpanId, Span>, b: map<SpanId, Span>, pm: map<nat, SpanId>, pm': map<nat, SpanId>,
                    q: seq<Obj>, c: nat)
    requires Extends(a, b) && Extends(pm, pm') && OfClass(a, pm, q, c)
    ensures OfClass(b, pm', q, c)
  {
  }

  lemma ExtendCacheClass(a: map<SpanId, Span>, b: map<SpanId, Span>, pm: map<nat, SpanId>, pm': map<nat, SpanId>,
                         cs: seq<Central>)
    requires Extends(a, b) && Extends(pm, pm') && CacheClassOk(a, pm, cs)
    ensures CacheClassOk(b, pm', cs)
  {
    hide OfClass, Flatten, Extends;
    forall c | 0 <= c < |cs|
      ensures OfClass(b, pm', Flatten(cs[c].slots), c)
    {
      ExtendClass(a, b, pm, pm', Flatten(cs[c].slots), c);
    }
  }

  lemma AddThreads(P: Params, S: State, t: Tid, s: SpanId, spans: map<SpanId, Span>, pagemap: map<nat, SpanId>)
    requires ThreadsOk(P, S.spans, S.pagemap, S.threads) && Extends(S.spans, spans) && Extends(S.pagemap, pagemap)
    requires spans.Keys == S.spans.Keys + {s} && t in S.threads && S.threads[t].pc == AtHeap
    requires forall u :: u in S.threads && S.threads[u].pc == Deleting ==> S.threads[u].span != s
    requires spans[s].holder == Some(t) && spans[s].cls == S.threads[t].c && spans[s].objects != []
    ensures ThreadsOk(P, spans, pagemap, S.threads[t := S.threads[t].(pc := PopulateLock, span := s)])
  {
    hide ThreadOk, Extends;
    forall u | u in S.threads
      ensures ThreadOk(P, spans, pagemap, u, if u == t then S.threads[t].(pc := PopulateLock, span := s)
              else S.threads[u])
    {
      assert ThreadOk(P, S.spans, S.pagemap, u, S.threads[u]);
      if u == t {
        ExtendAdder(P, S.spans, spans, S.pagemap, pagemap, t, S.threads[t], s);
      } else {
        ExtendThread(P, S.spans, spans, S.pagemap, pagemap, u, S.threads[u], s);
      }
    }
  }

  lemma ExtendThread(P: Params, a: map<SpanId, Span>, b: map<SpanId, Span>, pm: map<nat, SpanId>,
                     pm': map<nat, SpanId>, u: Tid, th: Thread, s: SpanId)
    requires ThreadOk(P, a, pm, u, th) && Extends(a, b) && Extends(pm, pm') && b.Keys == a.Keys + {s}
    requires th.pc == Deleting ==> th.span != s
    ensures ThreadOk(P, b, pm', u, th)
  {
    hide OfClass, LocalsOk;
    ExtendClass(a, b, pm, pm', th.mine, th.c);
    ExtendClass(a, b, pm, pm', th.shed, th.v);
  }

  lemma ExtendAdder(P: Params, a: map<SpanId, Span>, b: map<SpanId, Span>, pm: map<nat, SpanId>,
                    pm': map<nat, SpanId>, t: Tid, th: Thread, s: SpanId)
    requires ThreadOk(P, a, pm, t, th) && Extends(a, b) && Extends(pm, pm') && th.pc == AtHeap
    requires s in b && b[s].holder == Some(t) && b[s].cls == th.c && b[s].objects != []
    ensures ThreadOk(P, b, pm', t, th.(pc := PopulateLock, span := s))
  {
    assert LocalsOk(P, th.(pc := PopulateLock, span := s));
    hide OfClass, LocalsOk;
    ExtendClass(a, b, pm, pm', th.mine, th.c);
    ExtendClass(a, b, pm, pm', th.shed, th.v);
  }

  /** A span that no list should hold yet does not disturb the lists. */
  lemma AddCentrals(spans: map<SpanId, Span>, s: SpanId, sp: Span, cs: seq<Central>)
    requires CentralsOk(spans, cs) && s !in spans && sp.holder != None
    ensures CentralsOk(spans[s := sp], cs)
  {
    hide NoDup;
    forall c | 0 <= c < |cs|
      ensures CentralOk(spans[s := sp], c, cs[c])
    {
      CentralAt(spans, cs, c);
      assert forall x, b :: OnList(spans[s := sp], x, c, b) <==> OnList(spans, x, c, b);
      assert !OnList(spans, s, c, true);
      FreeTotalOther(spans, spans[s := sp], cs[c].nonempty);
    }
  }

  lemma CountFits(P: Params, c: nat)
    requires P.Valid() && c < P.N()
    ensures P.Count(c) >= 1 && P.Count(c) * P.size[c] <= P.pages[c] * 8192 < (P.Count(c) + 1) * P.size[c]
  {
    var a, d := P.pages[c] * 8192, P.size[c];
    assert a == (a / d) * d + a % d;
    assert (a / d + 1) * d == (a / d) * d + d;
    assert a / d >= 1 by { DivAtLeastOne(a, d); }
  }

  lemma DivAtLeastOne(a: nat, d: nat)
    requires a >= d > 0
    ensures a / d >= 1
  {
  }

  /** Every object of a span lies on one of the span's pages. */
  lemma ObjectPage(P: Params, sp: Span, o: Obj)
    requires P.Valid() && sp.cls < P.N() && o in ObjectsOf(P, sp)
    ensures sp.start <= o / 8192 < sp.start + P.pages[sp.cls]
  {
    hide Universe;
    CountFits(P, sp.cls);
  }

  lemma AddUniverse(P: Params, S: State, total: int, s: SpanId, sp: Span, pagemap: map<nat, SpanId>)
    requires Inv(P, S, total) && s !in S.spans && sp.cls < P.N() && FreshPages(P, S, sp.cls, sp.start)
    requires pagemap == PageHeapOps.PutRange(S.pagemap, sp.start, P.pages[sp.cls], s)
    requires SpanOk(P, s, sp, pagemap)
    ensures Extends(S.pagemap, pagemap) && SpansOk(P, S.spans[s := sp], pagemap)
    ensures UniverseOk(P, S.spans[s := sp], pagemap, S.places.Keys + ObjectsOf(P, sp))
    ensures forall o :: o in ObjectsOf(P, sp) ==> o !in S.places
  {
    hide LocksOk, CacheOk, CacheClassOk, ThreadsOk, Credits, HoldersOk, CentralsOk, ObjectsOf, BoxesOk,
         PageHeapOps.PutRange;
    assert Extends(S.pagemap, pagemap);
    forall x | x in S.spans
      ensures SpanOk(P, x, S.spans[x], pagemap)
    {
      assert SpanOk(P, x, S.spans[x], S.pagemap);
    }
    forall o | o in ObjectsOf(P, sp)
      ensures o / 8192 in pagemap && pagemap[o / 8192] == s && o / 8192 !in S.pagemap
    {
      ObjectPage(P, sp, o);
    }
    hide SpanOk;
    AddUniverseOk(P, S.spans, s, sp, S.pagemap, pagemap, S.places.Keys);
  }

  lemma AddUniverseOk(P: Params, spans: map<SpanId, Span>, s: SpanId, sp: Span, pagemap: map<nat, SpanId>,
                      pagemap': map<nat, SpanId>, objects: set<Obj>)
    requires P.Valid() && sp.cls < P.N() && SpansOk(P, spans, pagemap) && SpansOk(P, spans[s := sp], pagemap')
    requires UniverseOk(P, spans, pagemap, objects) && Extends(pagemap, pagemap') && s !in spans
    requires forall o :: o in ObjectsOf(P, sp) ==> o / 8192 in pagemap' && pagemap'[o / 8192] == s
    ensures UniverseOk(P, spans[s := sp], pagemap', objects + ObjectsOf(P, sp))
  {
    hide ObjectsOf, SpansOk;
    forall x, o | x in spans[s := sp] && spans[s := sp][x].cls < P.N() && o in ObjectsOf(P, spans[s := sp][x])
      ensures o in objects + ObjectsOf(P, sp) && LivesIn(pagemap', o, x)
    {
      if x != s {
        SpanClass(P, spans, pagemap, x);
        assert LivesIn(pagemap, o, x);
      }
    }
  }

  lemma AddBoxes(S: State, t: Tid, s: SpanId, chain: seq<Obj>, S': State)
    requires BoxesOk(S) && s !in S.spans && NoDup(chain) && forall o :: o in chain ==> o !in S.places
    requires S'.spans.Keys == S.spans.Keys + {s} && S'.spans[s].objects == chain && Extends(S.spans, S'.spans)
    requires S'.places == S.places + (map o | o in chain :: InSpan(s)) && S'.cs == S.cs
    requires t in S.threads && t in S'.threads && S'.threads == S.threads[t := S'.threads[t]]
    requires S'.threads[t].mine == S.threads[t].mine && S'.threads[t].shed == S.threads[t].shed
    ensures BoxesOk(S')
  {
    hide NoDup, Flatten;
    BoxAt(S, InSpan(s));
    assert Box(S, InSpan(s)) == [];
    forall pl | pl != Client
      ensures BoxOk(S'.places, pl, Box(S', pl))
    {
      BoxAt(S, pl);
      if pl != InSpan(s) {
        assert Box(S', pl) == Box(S, pl);
      }
    }
  }

  lemma NewSpanOk(P: Params, S: State, t: Tid, s: SpanId, start: nat, c: nat, chain: seq<Obj>)
    requires P.Valid() && c < P.N() && chain == Chain(start * 8192, P.size[c], P.Count(c))
    ensures var sp := Span(start, c, chain, 0, Some(t));
      && SpanOk(P, s, sp, PageHeapOps.PutRange(S.pagemap, start, P.pages[c], s))
      && chain != [] && NoDup(chain) && forall o :: o in chain <==> o in ObjectsOf(P, sp)
  {
    hide PageHeapOps.PutRange, Universe, Chain, NoDup;
    ChainOk(start * 8192, P.size[c], P.Count(c));
    CountFits(P, c);
  }

  lemma AddSpanKeeps(P: Params, S: State, total: int, t: Tid, s: SpanId, start: nat)
    requires Inv(P, S, total) && t in S.threads && S.threads[t].pc == AtHeap && S.threads[t].c < P.N()
    requires s !in S.spans && FreshPages(P, S, S.threads[t].c, start)
    requires forall u :: u in S.threads && S.threads[u].pc == Deleting ==> S.threads[u].span != s
    ensures Inv(P, AddSpan(P, S, t, s, start), total)
  {
    hide LocksOk, CacheOk, CentralsOk, CacheClassOk, ThreadsOk, UniverseOk, SpansOk, SpanOk, Credits, BoxesOk, Flatten,
         ObjectsOf, Chain, NoDup, PageHeapOps.PutRange, FreshPages;
    var th := S.threads[t];
    var th' := th.(pc := PopulateLock, span := s);
    var S' := AddSpan(P, S, t, s, start);
    var sp := S'.spans[s];
    NewSpanOk(P, S, t, s, start, th.c, sp.objects);
    AddUniverse(P, S, total, s, sp, S'.pagemap);
    assert S'.places.Keys == S.places.Keys + ObjectsOf(P, sp);
    LockKept(S.locks, S.threads, t, th');
    CreditsChange(S.threads, t, th');
    AddCentrals(S.spans, s, sp, S.cs);
    ExtendCacheClass(S.spans, S'.spans, S.pagemap, S'.pagemap, S.cs);
    AddThreads(P, S, t, s, S'.spans, S'.pagemap);
    AddBoxes(S, t, s, sp.objects, S');
  }

  // ------------------------------------------------- the page heap's Delete

  lemma FreeClass(spans: map<SpanId, Span>, pm: map<nat, SpanId>, pm': map<nat, SpanId>, q: seq<Obj>, c: nat)
    requires OfClass(spans, pm, q, c) && forall p :: p in pm && pm[p] in spans ==> p in pm' && pm'[p] == pm[p]
    ensures OfClass(spans, pm', q, c)
  {
  }

  lemma FreePages(P: Params, S: State, total: int, pagemap: map<nat, SpanId>)
    requires Inv(P, S, total) && forall p :: p in S.pagemap && S.pagemap[p] in S.spans ==>
      p in pagemap && pagemap[p] == S.pagemap[p]
    ensures SpansOk(P, S.spans, pagemap) && UniverseOk(P, S.spans, pagemap, S.places.Keys)
    ensures CacheClassOk(S.spans, pagemap, S.cs) && ThreadsOk(P, S.spans, pagemap, S.threads)
  {
    hide LocksOk, CacheOk, CentralsOk, Credits, BoxesOk, Flatten, ObjectsOf, OfClass, LocalsOk;
    forall s | s in S.spans
      ensures SpanOk(P, s, S.spans[s], pagemap)
    {
      assert SpanOk(P, s, S.spans[s], S.pagemap);
    }
    forall c | 0 <= c < |S.cs|
      ensures OfClass(S.spans, pagemap, Flatten(S.cs[c].slots), c)
    {
      FreeClass(S.spans, S.pagemap, pagemap, Flatten(S.cs[c].slots), c);
    }
    forall t | t in S.threads
      ensures ThreadOk(P, S.spans, pagemap, t, S.threads[t])
    {
      ThreadAt(P, S, total, t);
      FreeClass(S.spans, S.pagemap, pagemap, S.threads[t].mine, S.threads[t].c);
      FreeClass(S.spans, S.pagemap, pagemap, S.threads[t].shed, S.threads[t].v);
    }
    hide SpanOk;
    FreeUniverse(P, S.spans, S.pagemap, pagemap, S.places.Keys);
  }

  lemma FreeUniverse(P: Params, spans: map<SpanId, Span>, pm: map<nat, SpanId>, pm': map<nat, SpanId>,
                     objects: set<Obj>)
    requires P.Valid() && SpansOk(P, spans, pm) && SpansOk(P, spans, pm') && UniverseOk(P, spans, pm, objects)
    requires forall p :: p in pm && pm[p] in spans ==> p in pm' && pm'[p] == pm[p]
    ensures UniverseOk(P, spans, pm', objects)
  {
    hide ObjectsOf, SpanOk;
    forall x | x in spans
      ensures spans[x].cls < P.N()
    {
      SpanClass(P, spans, pm, x);
    }
    forall x, o | x in spans && o in ObjectsOf(P, spans[x])
      ensures o in objects && LivesIn(pm', o, x)
    {
      assert LivesIn(pm, o, x);
    }
  }

  lemma InvLocks(P: Params, S: State, total: int)
    requires Inv(P, S, total)
    ensures LocksOk(S.locks, S.threads)
  {
  }

  lemma DeletedPages(P: Params, S: State, total: int, t: Tid)
    requires Inv(P, S, total) && t in S.threads && S.threads[t].pc == Deleting
    ensures Inv(P, S.(pagemap := StepDeleting(S, t).pagemap), total)
  {
    hide LocksOk, CacheOk, CentralsOk, CacheClassOk, UniverseOk, SpansOk, Credits, BoxesOk, Flatten, ObjectsOf, OfClass;
    ThreadAt(P, S, total, t);
    var S1 := S.(pagemap := StepDeleting(S, t).pagemap);
    FreePages(P, S, total, S1.pagemap);
    SameBoxes(S, S1);
  }

  lemma DeletingKeeps(P: Params, S: State, total: int, t: Tid)
    requires Inv(P, S, total) && t in S.threads && S.threads[t].pc == Deleting
    ensures Inv(P, StepDeleting(S, t), total)
  {
    hide Inv, LocksOk, OfClass;
    DeletedPages(P, S, total, t);
    var S1 := S.(pagemap := StepDeleting(S, t).pagemap);
    var th' := S.threads[t].(pc := ReleaseLock);
    InvLocks(P, S, total);
    LockKept(S.locks, S.threads, t, th');
    ThreadAt(P, S1, total, t);
    ControlKeeps(P, S1, total, t, th', S.locks, total);
    assert StepDeleting(S, t) == S1.(threads := S1.threads[t := th'], locks := S.locks);
  }

  lemma SameBoxes(S: State, S': State)
    requires BoxesOk(S) && S'.places == S.places && S'.spans == S.spans && S'.cs == S.cs && S'.threads == S.threads
    ensures BoxesOk(S')
  {
    hide BoxOk, Flatten;
    forall pl | pl != Client
      ensures BoxOk(S'.places, pl, Box(S', pl))
    {
      BoxAt(S, pl);
    }
  }

  // --------------------------------------------------- one lemma per counter

  lemma StartReleaseKeeps(P: Params, S: State, total: int, t: Tid, locks: seq<Option<Tid>>)
    requires Inv(P, S, total) && t in S.threads && (S.threads[t].pc == Insert || Evicts(S.threads[t].pc))
    requires LocksOk(locks, StartRelease(S, t).threads) && |locks| == |S.locks|
    ensures Inv(P, StartRelease(S, t).(locks := locks), total)
  {
    hide Inv, LocksOk, OfClass, BoxesOk;
    ThreadAt(P, S, total, t);
    var th := S.threads[t];
    OfClassNone(S.spans, S.pagemap, th.c);
    ControlKeeps(P, S, total, t, th.(pc := Release, v := th.c, back := false, shed := th.mine, mine := []), locks,
      total);
  }

  lemma LockAt(P: Params, S: State, total: int, t: Tid)
    requires Inv(P, S, total)
    ensures LocksOk(S.locks, S.threads) && |S.locks| == |S.cs| == P.N() && P.Valid()
  {
  }

  lemma InsertKeeps(P: Params, S: State, total: int, t: Tid)
    requires Inv(P, S, total) && Runs(P, S, t) && S.threads[t].pc == Insert
    ensures Inv(P, StepInsert(P, S, t), total)
  {
    hide Inv, LocksOk, OfClass, ThreadOk, HasCredit;
    var th := S.threads[t];
    var cen := S.cs[th.c];
    LockAt(P, S, total, t);
    LocalsAt(P, S, total, t);
    InsertLocals(P, th);
    hide LocalsOk;
    if |th.mine| == P.batch[th.c] && |cen.slots| < cen.cacheSize {
      CacheAt(P, S, total, th.c);
      LockDropped(S.locks, S.threads, th.c, t, th.(pc := Idle, mine := []));
      PushKeeps(P, S, total, t, 0, S.locks[th.c := None]);
      assert Grow(S, th.c, 0) == S;
    } else if |th.mine| == P.batch[th.c] && cen.cacheSize != P.maxCache[th.c] {
      var th' := th.(pc := Evict, force := false);
      LockKept(S.locks, S.threads, t, th');
      MoveOn(P, S, total, t, th', S.locks);
      assert Put(S, t, th') == S.(threads := S.threads[t := th'], locks := S.locks);
    } else {
      LockKept(S.locks, S.threads, t, th.(pc := Release, v := th.c, back := false, shed := th.mine, mine := []));
      StartReleaseKeeps(P, S, total, t, S.locks);
      assert StartRelease(S, t) == StartRelease(S, t).(locks := S.locks);
    }
  }

  /** What InsertRange's locals say at the places it goes on to. */
  lemma InsertLocals(P: Params, th: Thread)
    requires LocalsOk(P, th) && th.pc == Insert
    ensures th.shed == [] && !th.back && Held(th) == Some(th.c) && !HasCredit(th)
    ensures !HasCredit(th.(pc := Idle, mine := [])) && !HasCredit(th.(pc := Evict, force := false))
    ensures |th.mine| == P.batch[th.c] ==> LocalsOk(P, th.(pc := Evict, force := false))
    ensures LocalsOk(P, th.(pc := Idle, mine := []))
  {
  }

  lemma LocalsAt(P: Params, S: State, total: int, t: Tid)
    requires Inv(P, S, total) && t in S.threads
    ensures LocalsOk(P, S.threads[t])
  {
    ThreadAt(P, S, total, t);
  }

  lemma CacheAt(P: Params, S: State, total: int, c: nat)
    requires Inv(P, S, total) && c < |S.cs|
    ensures P.Valid() && |S.cs| == P.N() && CentralCacheOk(P, c, S.cs[c])
  {
  }

  /** A thread that keeps its chains and their classes stays well typed. */
  lemma ControlThread(P: Params, S: State, total: int, t: Tid, th: Thread)
    requires Inv(P, S, total) && t in S.threads && LocalsOk(P, th) && th.pc != Deleting && th.pc != PopulateLock
    requires th.mine == S.threads[t].mine && th.shed == S.threads[t].shed
    requires th.c == S.threads[t].c || th.mine == []
    requires th.v == S.threads[t].v || th.shed == []
    ensures ThreadOk(P, S.spans, S.pagemap, t, th)
  {
    hide LocalsOk;
    ThreadAt(P, S, total, t);
  }

  /** Thread t moves on with the same chains, taking or dropping locks only. */
  lemma MoveOn(P: Params, S: State, total: int, t: Tid, th: Thread, locks: seq<Option<Tid>>)
    requires Inv(P, S, total) && t in S.threads && LocalsOk(P, th) && th.pc != Deleting && th.pc != PopulateLock
    requires S.threads[t].pc != PopulateLock
    requires th.mine == S.threads[t].mine && th.shed == S.threads[t].shed
    requires th.c == S.threads[t].c || th.mine == []
    requires th.v == S.threads[t].v || th.shed == []
    requires LocksOk(locks, S.threads[t := th]) && |locks| == |S.locks| && Credit(th) <= Credit(S.threads[t])
    ensures Inv(P, S.(threads := S.threads[t := th], locks := locks), total)
  {
    hide Inv, LocalsOk, LocksOk, HasCredit;
    ControlThread(P, S, total, t, th);
    ControlKeeps(P, S, total, t, th, locks, total);
  }

  lemma EvictFailedKeeps(P: Params, S: State, total: int, t: Tid, locks: seq<Option<Tid>>)
    requires Inv(P, S, total) && Runs(P, S, t) &&
             (S.threads[t].pc == Evict || (S.threads[t].pc == BackLock && !S.threads[t].ok))
    requires |locks| == |S.locks| && LocksOk(locks, EvictFailed(S, t).threads)
    ensures Inv(P, EvictFailed(S, t).(locks := locks), total)
  {
    hide Inv, LocksOk;
    LocalsAt(P, S, total, t);
    if S.threads[t].force {
      StartReleaseKeeps(P, S, total, t, locks);
    } else {
      MoveOn(P, S, total, t, S.threads[t].(pc := Evict, force := true), locks);
    }
  }

  lemma EvictLocals(P: Params, th: Thread, v: nat)
    requires LocalsOk(P, th) && th.pc == Evict && v < P.N()
    ensures th.shed == [] && Held(th) == Some(th.c) && !HasCredit(th) && th.c < P.N()
    ensures v != th.c ==> LocalsOk(P, th.(pc := VictimLock, v := v))
    ensures Held(th.(pc := VictimLock, v := v)) == None && !HasCredit(th.(pc := VictimLock, v := v))
  {
  }

  lemma EvictKeeps(P: Params, S: State, total: int, t: Tid, v: nat)
    requires Inv(P, S, total) && Runs(P, S, t) && S.threads[t].pc == Evict && v < P.N()
    ensures Inv(P, StepEvict(P, S, t, v), total)
  {
    hide Inv, LocksOk;
    var th := S.threads[t];
    LockAt(P, S, total, t);
    LocalsAt(P, S, total, t);
    EvictLocals(P, th, v);
    hide LocalsOk, Held, HasCredit, StartRelease;
    if v == th.c || S.cs[v].cacheSize == 0 || (!th.force && |S.cs[v].slots| == S.cs[v].cacheSize) {
      LockKept(S.locks, S.threads, t, EvictFailed(S, t).threads[t]);
      EvictFailedKeeps(P, S, total, t, S.locks);
      assert EvictFailed(S, t) == EvictFailed(S, t).(locks := S.locks);
    } else {
      var th' := th.(pc := VictimLock, v := v);
      LockDropped(S.locks, S.threads, th.c, t, th');
      MoveOn(P, S, total, t, th', S.locks[th.c := None]);
    }
  }

  lemma GrowKeeps(P: Params, S: State, total: int, c: nat, delta: int)
    requires Inv(P, S, total) && c < P.N() && |S.cs[c].slots| <= S.cs[c].cacheSize + delta <= P.maxCache[c]
    ensures Inv(P, Grow(S, c, delta), total + delta)
  {
    hide LocksOk, SpansOk, UniverseOk, ThreadsOk, BoxesOk, CacheOk, CentralsOk, CacheClassOk, OfClass, Flatten, Credits;
    var cen := S.cs[c].(cacheSize := S.cs[c].cacheSize + delta);
    SlotTotalChange(S.cs, c, cen);
    CentralsSlots(S.spans, S.cs, c, cen);
    CentralCacheAt(P, S.cs, c);
    CacheChange(P, S.cs, c, cen);
    CacheClassAt(S.spans, S.pagemap, S.cs, c);
    CacheClassChange(S.spans, S.pagemap, S.cs, c, cen);
    GrowBoxes(S, c, delta);
  }

  lemma GrowBoxes(S: State, c: nat, delta: int)
    requires BoxesOk(S) && c < |S.cs|
    ensures BoxesOk(Grow(S, c, delta))
  {
    hide BoxOk, Flatten;
    forall pl | pl != Client
      ensures BoxOk(S.places, pl, Box(Grow(S, c, delta), pl))
    {
      BoxAt(S, pl);
      assert Box(Grow(S, c, delta), pl) == Box(S, pl);
    }
  }

  /** A slot is taken from class v and not yet given to another class. */
  lemma ShrinkKeeps(P: Params, S: State, total: int, t: Tid)
    requires Inv(P, S, total) && Runs(P, S, t) && S.threads[t].pc == Victim
    requires var cen := S.cs[S.threads[t].v]; |cen.slots| < cen.cacheSize <= P.maxCache[S.threads[t].v]
    ensures var th := S.threads[t]; Inv(P, Put(Unlock(Grow(S, th.v, -1), th.v), t, th.(pc := BackLock, ok := true)),
            total)
  {
    hide Inv, LocksOk;
    var th := S.threads[t];
    var th' := th.(pc := BackLock, ok := true);
    var S1 := Grow(S, th.v, -1);
    LockAt(P, S, total, t);
    LocalsAt(P, S, total, t);
    GrowKeeps(P, S, total, th.v, -1);
    ControlThread(P, S1, total - 1, t, th');
    LockDropped(S.locks, S.threads, th.v, t, th');
    ControlKeeps(P, S1, total - 1, t, th', S.locks[th.v := None], total);
  }

  lemma VictimKeeps(P: Params, S: State, total: int, t: Tid)
    requires Inv(P, S, total) && Runs(P, S, t) && S.threads[t].pc == Victim
    ensures Inv(P, StepVictim(P, S, t), total)
  {
    hide Inv, LocksOk, Flatten;
    var th := S.threads[t];
    var cen := S.cs[th.v];
    LockAt(P, S, total, t);
    LocalsAt(P, S, total, t);
    CacheAt(P, S, total, th.v);
    if cen.cacheSize == 0 || (|cen.slots| == cen.cacheSize && !th.force) {
      var th' := th.(pc := BackLock, ok := false);
      LockDropped(S.locks, S.threads, th.v, t, th');
      MoveOn(P, S, total, t, th', S.locks[th.v := None]);
    } else if |cen.slots| == cen.cacheSize && cen.slots != [] {
      var th' := th.(pc := Release, back := true, shed := cen.slots[|cen.slots| - 1]);
      LockKept(S.locks, S.threads, t, th');
      PopKeeps(P, S, total, t, th.v, -1, Flight(t), th', S.locks);
      assert StepVictim(P, S, t) == PopSlot(Grow(S, th.v, -1), th.v, Flight(t)).(threads := S.threads[t := th'],
             locks := S.locks);
    } else {
      ShrinkKeeps(P, S, total, t);
    }
  }

  lemma BackKeeps(P: Params, S: State, total: int, t: Tid)
    requires Inv(P, S, total) && Runs(P, S, t) && S.threads[t].pc == BackLock && S.locks[S.threads[t].c] == None
    ensures Inv(P, StepBack(P, S, t), total)
  {
    hide Inv, LocksOk, Flatten;
    var th := S.threads[t];
    var locks := S.locks[th.c := Some(t)];
    LockAt(P, S, total, t);
    LocalsAt(P, S, total, t);
    CacheAt(P, S, total, th.c);
    if !th.ok {
      LockTaken(S.locks, S.threads, th.c, t, EvictFailed(S, t).threads[t]);
      EvictFailedKeeps(P, S, total, t, locks);
      assert StepBack(P, S, t) == EvictFailed(S, t).(locks := locks);
    } else if S.cs[th.c].cacheSize < P.maxCache[th.c] {
      LockKept(S.locks, S.threads, t, th.(pc := Idle, mine := []));
      PushKeeps(P, S, total, t, 1, S.locks);
      assert StepBack(P, S, t) == PushSlot(Grow(S, th.c, 1), t).(locks := S.locks);
    } else {
      LockTaken(S.locks, S.threads, th.c, t, StartRelease(S, t).threads[t]);
      StartReleaseKeeps(P, S, total, t, locks);
      assert StepBack(P, S, t) == StartRelease(S, t).(locks := locks);
    }
  }

  lemma ReleaseKeeps(P: Params, S: State, total: int, t: Tid)
    requires Inv(P, S, total) && Runs(P, S, t) && S.threads[t].pc == Release && Safe(P, S, t)
    ensures Inv(P, StepRelease(P, S, t), total)
  {
    hide Inv, LocksOk, AllHome;
    var th := S.threads[t];
    LockAt(P, S, total, t);
    LocalsAt(P, S, total, t);
    if th.shed == [] {
      var th' := if th.back then th.(pc := BackLock, ok := true, back := false) else th.(pc := Idle);
      LockDropped(S.locks, S.threads, th.v, t, th');
      MoveOn(P, S, total, t, th', S.locks[th.v := None]);
    } else {
      var s := S.pagemap[th.shed[0] / 8192];
      if S.spans[s].refcount == 1 {
        ReleaseLastKeeps(P, S, total, t, s);
      } else {
        ReleaseOneKeeps(P, S, total, t, s);
      }
    }
  }

  lemma RemoveKeeps(P: Params, S: State, total: int, t: Tid)
    requires Inv(P, S, total) && Runs(P, S, t) && S.threads[t].pc == Remove
    ensures Inv(P, StepRemove(P, S, t), total)
  {
    hide Inv, LocksOk, Flatten;
    var th := S.threads[t];
    LockAt(P, S, total, t);
    LocalsAt(P, S, total, t);
    if th.n == P.batch[th.c] && S.cs[th.c].slots != [] {
      var th' := th.(pc := Idle);
      LockDropped(S.locks, S.threads, th.c, t, th');
      PopKeeps(P, S, total, t, th.c, 0, Client, th', S.locks[th.c := None]);
      assert Grow(S, th.c, 0) == S;
    } else {
      var th' := th.(pc := Fetch, tried := false);
      LockKept(S.locks, S.threads, t, th');
      MoveOn(P, S, total, t, th', S.locks);
      assert StepRemove(P, S, t) == S.(threads := S.threads[t := th'], locks := S.locks);
    }
  }

  lemma FetchKeeps(P: Params, S: State, total: int, t: Tid)
    requires Inv(P, S, total) && Runs(P, S, t) && S.threads[t].pc == Fetch && Safe(P, S, t)
    ensures Inv(P, StepFetch(P, S, t), total)
  {
    hide Inv, LocksOk, OfClass, NoDup;
    var th := S.threads[t];
    var q := S.cs[th.c].nonempty;
    LockAt(P, S, total, t);
    LocalsAt(P, S, total, t);
    if |th.mine| >= th.n || (q == [] && (th.mine != [] || th.tried)) {
      var th' := th.(pc := Idle, mine := []);
      LockDropped(S.locks, S.threads, th.c, t, th');
      MineOk(P, S, total, t);
      OfClassNone(S.spans, S.pagemap, th.c);
      OfClassNone(S.spans, S.pagemap, th.v);
      HandOver(P, S, total, t, th', th.mine, Flight(t), Client, S.locks[th.c := None]);
    } else if q == [] {
      var th' := th.(pc := AtHeap);
      LockDropped(S.locks, S.threads, th.c, t, th');
      MoveOn(P, S, total, t, th', S.locks[th.c := None]);
    } else {
      FetchReady(P, S, total, th.c);
      FetchOneKeeps(P, S, total, t);
    }
  }

  lemma MineOk(P: Params, S: State, total: int, t: Tid)
    requires Inv(P, S, total) && t in S.threads && S.threads[t].shed == []
    ensures NoDup(S.threads[t].mine) && forall o :: o in S.threads[t].mine ==> o in S.places && S.places[o] == Flight(t)
  {
    hide NoDup;
    BoxAt(S, Flight(t));
    assert Box(S, Flight(t)) == S.threads[t].mine;
  }

  // ------------------------------------------------------------- main results

  /** No step ever follows a dangling pointer. */
  lemma AlwaysSafe(P: Params, S: State, total: int, t: Tid)
    requires Inv(P, S, total) && t in S.threads
    ensures Runs(P, S, t) && Safe(P, S, t)
  {
    hide Inv, LocalsOk, OnList;
    LockAt(P, S, total, t);
    ThreadAt(P, S, total, t);
    var th := S.threads[t];
    if th.pc == Release && th.shed != [] {
      assert th.shed[0] in th.shed;
      ClassInRange(P, S, total, th.shed[0]);
    }
    if th.pc == Fetch && S.cs[th.c].nonempty != [] {
      FetchReady(P, S, total, th.c);
      OnListHas(S.spans, S.cs[th.c].nonempty[0], th.c);
    }
  }

  lemma OnListHas(spans: map<SpanId, Span>, s: SpanId, c: nat)
    requires OnList(spans, s, c, true)
    ensures s in spans && spans[s].objects != []
  {
  }

  lemma ClassInRange(P: Params, S: State, total: int, o: Obj)
    requires Inv(P, S, total) && o / 8192 in S.pagemap && S.pagemap[o / 8192] in S.spans
    ensures Findable(P, S, o)
  {
    hide LocksOk, CacheOk, CentralsOk, CacheClassOk, ThreadsOk, UniverseOk, Credits, BoxesOk, HoldersOk, SpanOk;
    SpanClass(P, S.spans, S.pagemap, S.pagemap[o / 8192]);
  }

  /** Taking a lock that is free. */
  lemma AcquireKeeps(P: Params, S: State, total: int, t: Tid, c: nat, th: Thread)
    requires Inv(P, S, total) && Runs(P, S, t) && c < P.N() && S.locks[c] == None && Held(th) == Some(c)
    requires Held(S.threads[t]) == None && S.threads[t].pc != PopulateLock && LocalsOk(P, th) && th.pc != Deleting &&
             th.pc != PopulateLock
    requires th.mine == S.threads[t].mine && th.shed == S.threads[t].shed && th.c == S.threads[t].c &&
             th.v == S.threads[t].v
    requires Credit(th) <= Credit(S.threads[t])
    ensures Inv(P, Put(Lock(S, c, t), t, th), total)
  {
    hide Inv, LocksOk, LocalsOk, HasCredit, Held;
    LockAt(P, S, total, t);
    LockTaken(S.locks, S.threads, c, t, th);
    MoveOn(P, S, total, t, th, S.locks[c := Some(t)]);
  }

  lemma BeginKeeps(P: Params, S: State, total: int, t: Tid, ch: Choice)
    requires Inv(P, S, total) && Runs(P, S, t) && S.threads[t].pc == Idle && Enabled(P, S, t, ch) && Safe(P, S, t)
    ensures Inv(P, Step(P, S, t, ch), total)
  {
    hide Inv, LocksOk, NoDup;
    var th := S.threads[t];
    LockAt(P, S, total, t);
    LocalsAt(P, S, total, t);
    if ch.BeginInsert? {
      var th' := th.(pc := InsertLock, c := ch.c, mine := ch.chain);
      LockKept(S.locks, S.threads, t, th');
      HandOver(P, S, total, t, th', ch.chain, Client, Flight(t), S.locks);
      assert Step(P, S, t, ch) == S.(threads := S.threads[t := th'], locks := S.locks,
             places := MoveAll(S.places, ch.chain, Flight(t)));
    } else {
      var th' := th.(pc := RemoveLock, c := ch.c, n := ch.n);
      LockKept(S.locks, S.threads, t, th');
      MoveOn(P, S, total, t, th', S.locks);
      assert Step(P, S, t, ch) == S.(threads := S.threads[t := th'], locks := S.locks);
    }
  }

  /** The program counter after a wait for a lock. */
  function AfterLock(th: Thread): Thread {
    match th.pc
    case InsertLock => th.(pc := Insert)
    case VictimLock => th.(pc := Victim)
    case ReleaseLock => th.(pc := Release)
    case RemoveLock => th.(pc := Remove)
    case FetchLock => th.(pc := Fetch, tried := true)
    case _ => th
  }

  predicate WaitsForLock(pc: Pc) {
    pc == InsertLock || pc == VictimLock || pc == ReleaseLock || pc == RemoveLock || pc == FetchLock
  }

  lemma LockLocals(P: Params, th: Thread)
    requires LocalsOk(P, th) && WaitsForLock(th.pc)
    ensures LocalsOk(P, AfterLock(th))
    ensures Held(th) == None && Held(AfterLock(th)).Some? && Held(AfterLock(th)).value < P.N()
    ensures Credit(AfterLock(th)) == Credit(th) && AfterLock(th).pc != Deleting && AfterLock(th).pc != PopulateLock
  {
    LockKeepsLocals(P, th);
    LockTakesOne(P.N(), th);
    hide *;
  }

  lemma LockTakesOne(n: nat, th: Thread)
    requires WaitsForLock(th.pc) && th.c < n && th.v < n
    ensures Held(th) == None && Held(AfterLock(th)).Some? && Held(AfterLock(th)).value < n
    ensures Credit(AfterLock(th)) == Credit(th) && AfterLock(th).pc != Deleting && AfterLock(th).pc != PopulateLock
  {
  }

  lemma LockKeepsLocals(P: Params, th: Thread)
    requires LocalsOk(P, th) && WaitsForLock(th.pc)
    ensures LocalsOk(P, AfterLock(th))
  {
    var th' := AfterLock(th);
    assert Sheds(th'.pc) == Sheds(th.pc) && Evicts(th'.pc) == Evicts(th.pc);
    assert th'.mine == th.mine && th'.shed == th.shed && th'.back == th.back && th'.c == th.c && th'.v == th.v;
  }

  lemma LockStepIs(P: Params, S: State, t: Tid, ch: Choice)
    requires Runs(P, S, t) && Enabled(P, S, t, ch) && Safe(P, S, t) && WaitsForLock(S.threads[t].pc)
    ensures var th := AfterLock(S.threads[t]);
      Held(th).Some? && Held(th).value < P.N() && S.locks[Held(th).value] == None &&
        Step(P, S, t, ch) == Put(Lock(S, Held(th).value, t), t, th)
  {
    hide StepInsert, StepBack, StepRemove, StepFetch, ListSpan, StepVictim, StepRelease, StepEvict, AddSpan,
         StepDeleting, MoveAll, Safe, NoDup, Findable;
  }

  lemma LockStepKeeps(P: Params, S: State, total: int, t: Tid, ch: Choice)
    requires Inv(P, S, total) && Runs(P, S, t) && Enabled(P, S, t, ch) && Safe(P, S, t)
    requires WaitsForLock(S.threads[t].pc)
    ensures Inv(P, Step(P, S, t, ch), total)
  {
    hide Inv, LocksOk, LocalsOk, HasCredit, Held, Step, Enabled, Safe;
    var th := S.threads[t];
    LocalsAt(P, S, total, t);
    LockLocals(P, th);
    LockStepIs(P, S, t, ch);
    AcquireKeeps(P, S, total, t, Held(AfterLock(th)).value, AfterLock(th));
  }

  lemma HeapStepKeeps(P: Params, S: State, total: int, t: Tid, ch: Choice)
    requires Inv(P, S, total) && Runs(P, S, t) && Enabled(P, S, t, ch) && S.threads[t].pc == AtHeap
    ensures Inv(P, if ch.NewOk? then AddSpan(P, S, t, ch.s, ch.start)
                   else Put(S, t, S.threads[t].(pc := FetchLock)), total)
  {
    hide Inv, LocksOk;
    var th := S.threads[t];
    if ch.NewOk? {
      AddSpanKeeps(P, S, total, t, ch.s, ch.start);
    } else {
      LockAt(P, S, total, t);
      LocalsAt(P, S, total, t);
      var th' := th.(pc := FetchLock);
      assert LocalsOk(P, th');
      hide LocalsOk;
      LockKept(S.locks, S.threads, t, th');
      MoveOn(P, S, total, t, th', S.locks);
      assert Put(S, t, th') == S.(threads := S.threads[t := th'], locks := S.locks);
    }
  }

  lemma PopulateKeeps(P: Params, S: State, total: int, t: Tid)
    requires Inv(P, S, total) && Runs(P, S, t) && S.threads[t].pc == PopulateLock
    requires S.threads[t].span in S.spans && S.locks[S.threads[t].c] == None
    ensures Inv(P, Lock(ListSpan(S, t), S.threads[t].c, t), total)
  {
    hide Inv, LocksOk;
    var th := S.threads[t];
    LockAt(P, S, total, t);
    LockTaken(S.locks, S.threads, th.c, t, th.(pc := Fetch, tried := true));
    ListSpanKeeps(P, S, total, t, S.locks[th.c := Some(t)]);
  }

  /** Every enabled step of every thread keeps the invariant. */
  lemma StepKeeps(P: Params, S: State, total: int, t: Tid, ch: Choice)
    requires Inv(P, S, total) && Runs(P, S, t) && Enabled(P, S, t, ch) && Safe(P, S, t)
    ensures Inv(P, Step(P, S, t, ch), total)
  {
    hide Inv, StepInsert, StepEvict, StepVictim, StepBack, StepRelease, StepDeleting, StepRemove, StepFetch, AddSpan,
         ListSpan;
    match S.threads[t].pc
    case Idle => BeginKeeps(P, S, total, t, ch);
    case Insert => InsertKeeps(P, S, total, t);
    case Evict => EvictKeeps(P, S, total, t, ch.v);
    case Victim => VictimKeeps(P, S, total, t);
    case BackLock => BackKeeps(P, S, total, t);
    case Release => ReleaseKeeps(P, S, total, t);
    case Deleting => DeletingKeeps(P, S, total, t);
    case Remove => RemoveKeeps(P, S, total, t);
    case Fetch => FetchKeeps(P, S, total, t);
    case AtHeap => HeapStepKeeps(P, S, total, t, ch);
    case PopulateLock => PopulateKeeps(P, S, total, t);
    case _ => LockStepKeeps(P, S, total, t, ch);
  }

  lemma InitOk(P: Params, S: State)
    requires Init(P, S)
    ensures Inv(P, S, SlotTotal(S.cs))
  {
    assert Credits(S.threads) == {};
    forall c | 0 <= c < P.N()
      ensures CentralOk(S.spans, c, S.cs[c]) && Flatten(S.cs[c].slots) == []
    {
    }
  }

  /** In every state of every interleaving the invariant holds and the next step is
      safe; the transfer slots never outnumber those handed out at the start. */
  lemma {:induction false} RunKeeps(P: Params, states: seq<State>, steps: seq<(Tid, Choice)>, i: nat)
    requires IsRun(P, states, steps) && i < |states|
    ensures Inv(P, states[i], SlotTotal(states[0].cs))
    ensures i < |steps| ==> Runs(P, states[i], steps[i].0) && Safe(P, states[i], steps[i].0)
  {
    hide Inv, Init, Safe, Enabled, Runs, Step;
    if i == 0 {
      InitOk(P, states[0]);
    } else {
      RunKeeps(P, states, steps, i - 1);
      assert Next(P, states[i - 1], steps[i - 1].0, steps[i - 1].1, states[i]);
      StepKeeps(P, states[i - 1], SlotTotal(states[0].cs), steps[i - 1].0, steps[i - 1].1);
    }
    if i < |steps| {
      assert Next(P, states[i], steps[i].0, steps[i].1, states[i + 1]);
      RunsThread(P, states[i], steps[i].0);
      AlwaysSafe(P, states[i], SlotTotal(states[0].cs), steps[i].0);
    }
  }

  lemma RunsThread(P: Params, S: State, t: Tid)
    requires Runs(P, S, t)
    ensures t in S.threads
  {
  }

  /** What the invariant says of one span and its class, in every reachable state: the
      reference count is the number of its objects that are away, and the class's
      lists and counters are exact. */
  lemma CountsExact(P: Params, states: seq<State>, steps: seq<(Tid, Choice)>, i: nat, s: SpanId)
    requires IsRun(P, states, steps) && i < |states| && s in states[i].spans
    ensures var S := states[i]; var sp := S.spans[s];
      && P.Valid() && |S.cs| == P.N() && sp.cls < P.N() && sp.refcount + |sp.objects| == P.Count(sp.cls)
      && (sp.holder == None ==>
        (s in S.cs[sp.cls].nonempty <==> sp.objects != []) && (s in S.cs[sp.cls].empty <==> sp.objects == []))
      && S.cs[sp.cls].counter == FreeTotal(S.spans, S.cs[sp.cls].nonempty)
      && S.cs[sp.cls].numSpans == |S.cs[sp.cls].nonempty| + |S.cs[sp.cls].empty|
      && P.Count(sp.cls) * P.size[sp.cls] <= P.pages[sp.cls] * 8192 < (P.Count(sp.cls) + 1) * P.size[sp.cls]
  {
    hide LocksOk, CacheOk, CacheClassOk, ThreadsOk, UniverseOk, Credits, BoxesOk, HoldersOk, Init, Next, NoDup;
    RunKeeps(P, states, steps, i);
    var S := states[i];
    assert SpanOk(P, s, S.spans[s], S.pagemap);
    CentralAt(S.spans, S.cs, S.spans[s].cls);
    CountFits(P, S.spans[s].cls);
  }

  /** In every reachable state no object is in two places, nor twice in one. */
  lemma OnePlace(P: Params, states: seq<State>, steps: seq<(Tid, Choice)>, i: nat, o: Obj, a: Place, b: Place)
    requires IsRun(P, states, steps) && i < |states| && o in Box(states[i], a) && o in Box(states[i], b)
    ensures a == b && NoDup(Box(states[i], a)) && o in states[i].places && states[i].places[o] == a
  {
    hide LocksOk, CacheOk, CacheClassOk, ThreadsOk, UniverseOk, Credits, HoldersOk, Init, Next, NoDup, SpansOk,
         CentralsOk, Flatten;
    RunKeeps(P, states, steps, i);
    assert a != Client && b != Client;
    BoxAt(states[i], a);
    BoxAt(states[i], b);
  }

  /** In every reachable state every class is within its slot bounds, and the slots of
      all classes together never exceed the initial number. */
  lemma SlotsBounded(P: Params, states: seq<State>, steps: seq<(Tid, Choice)>, i: nat, c: nat)
    requires IsRun(P, states, steps) && i < |states| && c < P.N()
    ensures |states[i].cs| == P.N() == |P.maxCache|
    ensures |states[i].cs[c].slots| <= states[i].cs[c].cacheSize <= P.maxCache[c]
    ensures SlotTotal(states[i].cs) <= SlotTotal(states[0].cs)
  {
    hide LocksOk, CacheClassOk, ThreadsOk, UniverseOk, Credits, HoldersOk, Init, Next, SpansOk, CentralsOk, BoxesOk;
    RunKeeps(P, states, steps, i);
    CentralCacheAt(P, states[i].cs, c);
  }

  /** No thread ever holds two size class locks. */
  lemma OneLock(P: Params, states: seq<State>, steps: seq<(Tid, Choice)>, i: nat, t: Tid, c: nat, d: nat)
    requires IsRun(P, states, steps) && i < |states| && c < |states[i].locks| && d < |states[i].locks|
    requires states[i].locks[c] == Some(t) && states[i].locks[d] == Some(t)
    ensures c == d
  {
    hide CacheOk, CacheClassOk, ThreadsOk, UniverseOk, Credits, HoldersOk, Init, Next, SpansOk, CentralsOk, BoxesOk,
         Held;
    RunKeeps(P, states, steps, i);
  }

  /** A class's data is written only while no other thread holds its lock. */
  lemma WritesUnderLock(P: Params, states: seq<State>, steps: seq<(Tid, Choice)>, i: nat, c: nat, u: Tid)
    requires IsRun(P, states, steps) && i < |steps| && c < P.N()
    requires |states[i].cs| == |states[i + 1].cs| == |states[i].locks| == P.N()
    requires states[i + 1].cs[c] != states[i].cs[c] && u != steps[i].0
    ensures states[i].locks[c] != Some(u)
  {
    var S, t := states[i], steps[i].0;
    RunKeeps(P, states, steps, i);
    assert Next(P, S, t, steps[i].1, states[i + 1]);
    hide Inv, Next, IsRun;
    LockAt(P, S, SlotTotal(states[0].cs), t);
    WriterHolds(P, S, t, steps[i].1, c);
  }

  /** A span's objects and reference count change, and a span goes, only in the hands of
      the thread that holds its class's lock. */
  lemma SpanWritesUnderLock(P: Params, states: seq<State>, steps: seq<(Tid, Choice)>, i: nat, s: SpanId)
    requires IsRun(P, states, steps) && i < |steps| && s in states[i].spans
    requires s in states[i + 1].spans ==>
      states[i + 1].spans[s].objects != states[i].spans[s].objects ||
        states[i + 1].spans[s].refcount != states[i].spans[s].refcount
    ensures states[i].spans[s].cls < |states[i].locks| && states[i].locks[states[i].spans[s].cls] == Some(steps[i].0)
  {
    var S, t, total := states[i], steps[i].0, SlotTotal(states[0].cs);
    RunKeeps(P, states, steps, i);
    assert Next(P, S, t, steps[i].1, states[i + 1]);
    hide Inv, Next, IsRun;
    LockAt(P, S, total, t);
    SpanWriter(P, S, total, t, steps[i].1, s);
  }

  lemma SpanWriter(P: Params, S: State, total: int, t: Tid, ch: Choice, s: SpanId)
    requires Inv(P, S, total) && Runs(P, S, t) && Enabled(P, S, t, ch) && Safe(P, S, t) && s in S.spans
    requires var spans := Step(P, S, t, ch).spans;
      s in spans ==> spans[s].objects != S.spans[s].objects || spans[s].refcount != S.spans[s].refcount
    ensures S.spans[s].cls < |S.locks| && S.locks[S.spans[s].cls] == Some(t)
  {
    hide Inv, Step, StepFetch, StepRelease, Enabled, LocalsOk, OfClass;
    var th := S.threads[t];
    SpansKept(P, S, t, ch);
    SpanStep(P, S, t, ch);
    LockAt(P, S, total, t);
    ThreadAt(P, S, total, t);
    hide Safe;
    if th.pc == Release {
      ReleasedSpan(P, S, t);
    } else {
      FetchedSpan(P, S, total, t);
    }
  }

  lemma SpanStep(P: Params, S: State, t: Tid, ch: Choice)
    requires Runs(P, S, t) && Enabled(P, S, t, ch) && Safe(P, S, t)
    ensures S.threads[t].pc == Release ==> Step(P, S, t, ch) == StepRelease(P, S, t)
    ensures S.threads[t].pc == Fetch ==> Step(P, S, t, ch) == StepFetch(P, S, t)
  {
    hide Enabled, StepRelease, StepFetch;
  }

  /** The steps that leave every span's objects and reference count alone. */
  lemma SpansKept(P: Params, S: State, t: Tid, ch: Choice)
    requires Runs(P, S, t) && Enabled(P, S, t, ch) && Safe(P, S, t)
    ensures S.threads[t].pc != Release && S.threads[t].pc != Fetch ==>
      forall s :: s in S.spans ==>
        var spans := Step(P, S, t, ch).spans;
        s in spans && spans[s].objects == S.spans[s].objects && spans[s].refcount == S.spans[s].refcount
  {
    hide MoveAll, Without, Chain, PageHeapOps.PutRange;
  }

  /** Releasing an object changes the object's span only. */
  lemma ReleasedSpan(P: Params, S: State, t: Tid)
    requires Runs(P, S, t) && Safe(P, S, t) && S.threads[t].pc == Release
    requires OfClass(S.spans, S.pagemap, S.threads[t].shed, S.threads[t].v)
    ensures forall s :: s in S.spans && S.spans[s].cls != S.threads[t].v ==>
      s in StepRelease(P, S, t).spans && StepRelease(P, S, t).spans[s] == S.spans[s]
  {
    hide MoveAll, Without, ObjectsOf;
    if S.threads[t].shed != [] {
      assert S.threads[t].shed[0] in S.threads[t].shed;
    }
  }

  lemma FetchedSpan(P: Params, S: State, total: int, t: Tid)
    requires Inv(P, S, total) && Runs(P, S, t) && Safe(P, S, t) && S.threads[t].pc == Fetch
    ensures forall s :: s in S.spans && S.spans[s].cls != S.threads[t].c ==>
      s in StepFetch(P, S, t).spans && StepFetch(P, S, t).spans[s] == S.spans[s]
  {
    hide Inv, MoveAll;
    if S.cs[S.threads[t].c].nonempty != [] {
      FetchReady(P, S, total, S.threads[t].c);
    }
  }

  /** Freedom from deadlock: in every reachable state in which a thread is not idle, some
      thread that is not idle can take a step. */
  lemma NoDeadlock(P: Params, states: seq<State>, steps: seq<(Tid, Choice)>, i: nat, t: Tid)
    returns (u: Tid, ch: Choice)
    requires IsRun(P, states, steps) && i < |states| && t in states[i].threads && states[i].threads[t].pc != Idle
    ensures u in states[i].threads && states[i].threads[u].pc != Idle
    ensures Runs(P, states[i], u) && Enabled(P, states[i], u, ch) && Safe(P, states[i], u)
  {
    RunKeeps(P, states, steps, i);
    hide Inv, Safe, IsRun, Enabled, Runs;
    u, ch := SomeStep(P, states[i], SlotTotal(states[0].cs), t);
  }

  /** A thread that waits for a lock waits for one that runs, or the lock is free. */
  lemma SomeStep(P: Params, S: State, total: int, t: Tid) returns (u: Tid, ch: Choice)
    requires Inv(P, S, total) && t in S.threads && S.threads[t].pc != Idle
    ensures u in S.threads && S.threads[u].pc != Idle
    ensures Runs(P, S, u) && Enabled(P, S, u, ch) && Safe(P, S, u)
  {
    hide Inv, Safe, Enabled, Held, WaitsFor, LocksOk;
    LockAt(P, S, total, t);
    AlwaysSafe(P, S, total, t);
    WaitsInRange(P, S.threads[t]);
    u := t;
    var lock := WaitsFor(S.threads[t]);
    if lock.Some? && S.locks[lock.value].Some? {
      u := S.locks[lock.value].value;
      HolderRuns(S.locks, S.threads, lock.value);
      AlwaysSafe(P, S, total, u);
    }
    CanStep(P, S, u);
    ch := AnyChoice(S.threads[u].pc);
  }

  lemma WaitsInRange(P: Params, th: Thread)
    requires th.c < P.N() && th.v < P.N()
    ensures WaitsFor(th).Some? ==> WaitsFor(th).value < P.N()
  {
  }

  lemma HolderRuns(locks: seq<Option<Tid>>, threads: map<Tid, Thread>, c: nat)
    requires LocksOk(locks, threads) && c < |locks| && locks[c].Some?
    ensures var u := locks[c].value; u in threads && threads[u].pc != Idle && WaitsFor(threads[u]).None?
  {
    assert Held(threads[locks[c].value]) == Some(c);
  }

  /** A choice that a thread may always make. */
  function AnyChoice(pc: Pc): Choice {
    if pc == Evict then Pick(0) else if pc == AtHeap then NewFail else Go
  }

  lemma CanStep(P: Params, S: State, t: Tid)
    requires Runs(P, S, t) && S.threads[t].pc != Idle
    requires var lock := WaitsFor(S.threads[t]); lock.Some? ==> S.locks[lock.value] == None
    ensures Enabled(P, S, t, AnyChoice(S.threads[t].pc))
  {
  }

  /** The class whose lock a thread waits for. */
  function WaitsFor(th: Thread): Option<nat> {
    match th.pc
    case InsertLock | BackLock | RemoveLock | PopulateLock | FetchLock => Some(th.c)
    case VictimLock | ReleaseLock => Some(th.v)
    case _ => None
  }

  /** Outside class d nothing is written. */
  ghost predicate OnlyWrites(S: State, S': State, d: nat) {
    |S'.cs| == |S.cs| && forall c :: 0 <= c < |S.cs| && c != d ==> S'.cs[c] == S.cs[c]
  }

  lemma OwnClassWrites(P: Params, S: State, t: Tid)
    requires Runs(P, S, t) && Safe(P, S, t)
    ensures S.threads[t].pc == Insert ==> OnlyWrites(S, StepInsert(P, S, t), S.threads[t].c)
    ensures S.threads[t].pc == BackLock ==> OnlyWrites(S, StepBack(P, S, t), S.threads[t].c)
    ensures S.threads[t].pc == Remove ==> OnlyWrites(S, StepRemove(P, S, t), S.threads[t].c)
    ensures S.threads[t].pc == Fetch ==> OnlyWrites(S, StepFetch(P, S, t), S.threads[t].c)
    ensures S.threads[t].pc == PopulateLock ==> OnlyWrites(S, ListSpan(S, t), S.threads[t].c)
  {
    hide MoveAll;
  }

  lemma VictimClassWrites(P: Params, S: State, t: Tid)
    requires Runs(P, S, t) && Safe(P, S, t)
    ensures S.threads[t].pc == Victim ==> OnlyWrites(S, StepVictim(P, S, t), S.threads[t].v)
    ensures S.threads[t].pc == Release ==> OnlyWrites(S, StepRelease(P, S, t), S.threads[t].v)
  {
    hide MoveAll, Without, ObjectsOf, Revive;
  }

  predicate Writes(pc: Pc) {
    || pc == Insert || pc == BackLock || pc == Remove || pc == Fetch || pc == PopulateLock
    || pc == Victim || pc == Release
  }

  /** The class a writing step writes. */
  function Written(th: Thread): nat {
    if th.pc == Victim || th.pc == Release then th.v else th.c
  }

  lemma QuietSteps(P: Params, S: State, t: Tid, ch: Choice)
    requires Runs(P, S, t) && Enabled(P, S, t, ch) && Safe(P, S, t) && !Writes(S.threads[t].pc)
    ensures Step(P, S, t, ch).cs == S.cs
  {
    hide Chain, PageHeapOps.PutRange, MoveAll, Safe, NoDup, Findable, StepInsert, StepBack, StepRemove, StepFetch,
         StepVictim, StepRelease, ListSpan;
  }

  lemma StepWrites(P: Params, S: State, t: Tid, ch: Choice)
    requires Runs(P, S, t) && Enabled(P, S, t, ch) && Safe(P, S, t) && Writes(S.threads[t].pc)
    ensures OnlyWrites(S, Step(P, S, t, ch), Written(S.threads[t]))
  {
    OwnClassWrites(P, S, t);
    VictimClassWrites(P, S, t);
    hide StepInsert, StepBack, StepRemove, StepFetch, ListSpan, StepVictim, StepRelease, StepEvict, AddSpan,
         StepDeleting, MoveAll, OnlyWrites, Safe, NoDup, Findable;
    if S.threads[t].pc == PopulateLock {
      LockWrites(S, ListSpan(S, t), S.threads[t].c, t);
    }
  }

  lemma LockWrites(S: State, S': State, c: nat, t: Tid)
    requires c < |S'.locks| && OnlyWrites(S, S', c)
    ensures OnlyWrites(S, Lock(S', c, t), c)
  {
  }

  lemma WriterHolds(P: Params, S: State, t: Tid, ch: Choice, c: nat)
    requires Runs(P, S, t) && Enabled(P, S, t, ch) && Safe(P, S, t) && c < P.N() && LocksOk(S.locks, S.threads)
    requires |Step(P, S, t, ch).cs| == P.N() && Step(P, S, t, ch).cs[c] != S.cs[c]
    ensures S.locks[c] == Some(t) || S.locks[c] == None
  {
    hide Step, Safe;
    if Writes(S.threads[t].pc) {
      StepWrites(P, S, t, ch);
      assert c == Written(S.threads[t]);
    } else {
      QuietSteps(P, S, t, ch);
    }
  }

  /** Populate's loop: cut `bytes` bytes from `base` into objects of `size` bytes. */
  method CutObjects(base: nat, size: nat, bytes: nat) returns (chain: seq<Obj>, num: nat)
    requires size > 0
    ensures num == bytes / size && chain == Chain(base, size, num)
    ensures |chain| == num && NoDup(chain) && forall o :: o in chain ==> base <= o && o + size <= base + bytes
    ensures forall i, j :: 0 <= i < j < |chain| ==> chain[i] + size <= chain[j]
  {
    var ptr, limit := base, base + bytes;
    num, chain := 0, [];
    while ptr + size <= limit
      invariant ptr == base + num * size && ptr <= limit && chain == Chain(base, size, num)
      invariant forall i :: 0 <= i < |chain| ==> chain[i] + size <= ptr
      invariant forall i, j :: 0 <= i < j < |chain| ==> chain[i] + size <= chain[j]
      invariant forall o :: o in chain ==> base <= o && o + size <= base + bytes
      decreases limit - ptr
    {
      chain := chain + [ptr];
      assert (num + 1) * size == num * size + size;
      ptr := ptr + size;
      num := num + 1;
    }
    QuotientRemainder(bytes, num, size, limit - ptr);
    ChainOk(base, size, num);
  }
}
