/** The leak checker's mark phase: which allocations are reachable from the roots, and
    which of the others are reported. */
module HeapChecker {
  import opened Options
  import opened Arithmetic
  import opened FiniteSets

  const WORD_SIZE := 8

  /** A recorded allocation; live and ignore are the two low bits of bucket_rep. */
  datatype Alloc = Alloc(bytes: nat, live: bool, ignore: bool)
  type Allocs = map<nat, Alloc>

  datatype Placement = MustBeOnHeap | IgnoredOnHeap | InGlobalData | ThreadData
  datatype AllocObject = AllocObject(ptr: nat, size: nat, place: Placement)

  /** What the scan reads: memory words, the lookup of the allocation a word points
      into, the alignment of pointers and the bounds of the heap. */
  datatype Env = Env(mem: nat -> nat, resolve: nat -> Option<nat>, alignment: nat, lowest: nat, highest: nat)

  // ------------------------------------------------------- what can be reached

  /** The word at a, in the region, points into allocation t. */
  predicate SeesAt(env: Env, ptr: nat, size: nat, a: nat, t: nat)
    requires env.alignment > 0
  {
    && ptr <= a && a % env.alignment == 0 && a + WORD_SIZE <= ptr + size
    && env.lowest <= env.mem(a) <= env.highest && env.resolve(env.mem(a)) == Some(t)
  }

  ghost predicate Sees(env: Env, ptr: nat, size: nat, t: nat)
    requires env.alignment > 0
  {
    exists a :: SeesAt(env, ptr, size, a, t)
  }

  /** The lookup yields recorded allocations only. */
  ghost predicate Resolves(env: Env, allocs: Allocs) {
    env.alignment > 0 && forall w, t :: env.resolve(w) == Some(t) ==> t in allocs
  }

  /** Allocation t is a root or seen from one. */
  ghost predicate FromRoot(env: Env, allocs: Allocs, roots: seq<AllocObject>, t: nat)
    requires env.alignment > 0
  {
    exists r :: r in roots && (Sees(env, r.ptr, r.size, t) || (r.place == MustBeOnHeap && r.ptr == t && t in allocs))
  }

  ghost predicate IsPath(env: Env, allocs: Allocs, roots: seq<AllocObject>, path: seq<nat>)
    requires env.alignment > 0
  {
    && path != [] && FromRoot(env, allocs, roots, path[0])
    && forall i :: 0 <= i < |path| - 1 ==> path[i] in allocs && Sees(env, path[i], allocs[path[i]].bytes, path[i + 1])
  }

  ghost predicate Reachable(env: Env, allocs: Allocs, roots: seq<AllocObject>, t: nat)
    requires env.alignment > 0
  {
    exists path :: IsPath(env, allocs, roots, path) && path[|path| - 1] == t
  }

  ghost function Live(allocs: Allocs): set<nat> {
    set t | t in allocs && allocs[t].live
  }

  /** Everything seen from a marked allocation is marked. */
  ghost predicate Closed(env: Env, allocs: Allocs)
    requires env.alignment > 0
  {
    forall t, u :: t in Live(allocs) && Sees(env, t, allocs[t].bytes, u) ==> u in Live(allocs)
  }

  /** The allocations are the same up to their live bits, of which none was cleared. */
  ghost predicate OnlyMarked(allocs: Allocs, allocs': Allocs) {
    && allocs'.Keys == allocs.Keys
    && forall t :: t in allocs ==>
      allocs'[t] == allocs[t].(live := allocs'[t].live) && (allocs[t].live ==> allocs'[t].live)
  }

  ghost function Sizes(allocs: Allocs): map<nat, nat> {
    map t | t in allocs :: allocs[t].bytes
  }

  /** Bytes of the given allocations together. */
  ghost function TotalBytes(allocs: Allocs, s: set<nat>): nat
    requires s <= allocs.Keys
  {
    Sum(Sizes(allocs), s)
  }

  lemma SameSizes(allocs: Allocs, allocs': Allocs)
    requires OnlyMarked(allocs, allocs')
    ensures Sizes(allocs') == Sizes(allocs)
  {
  }

  // -------------------------------------------------------- marking is complete

  /** A path that starts in a closed marked set stays in it. */
  lemma {:induction false} PathMarked(env: Env, allocs: Allocs, roots: seq<AllocObject>, path: seq<nat>, i: nat)
    requires env.alignment > 0 && Closed(env, allocs) && IsPath(env, allocs, roots, path) && i < |path|
    requires forall t :: FromRoot(env, allocs, roots, t) ==> t in Live(allocs)
    ensures path[i] in Live(allocs)
  {
    if i > 0 {
      PathMarked(env, allocs, roots, path, i - 1);
      assert Sees(env, path[i - 1], allocs[path[i - 1]].bytes, path[i - 1 + 1]);
    }
  }

  /** What is reachable depends on the allocations' addresses and sizes only. */
  lemma SameReachable(env: Env, allocs: Allocs, allocs': Allocs, roots: seq<AllocObject>, t: nat)
    requires env.alignment > 0 && Sizes(allocs) == Sizes(allocs') && Reachable(env, allocs, roots, t)
    ensures Reachable(env, allocs', roots, t)
  {
    hide Sees;
    var path :| IsPath(env, allocs, roots, path) && path[|path| - 1] == t;
    SamePath(env, allocs, allocs', roots, path);
  }

  lemma SamePath(env: Env, allocs: Allocs, allocs': Allocs, roots: seq<AllocObject>, path: seq<nat>)
    requires env.alignment > 0 && Sizes(allocs) == Sizes(allocs') && IsPath(env, allocs, roots, path)
    ensures IsPath(env, allocs', roots, path)
  {
    hide Sees;
    SizesAt(allocs, allocs');
    SameRoot(env, allocs, allocs', roots, path[0]);
  }

  lemma SizesAt(allocs: Allocs, allocs': Allocs)
    requires Sizes(allocs) == Sizes(allocs')
    ensures allocs.Keys == allocs'.Keys && forall t :: t in allocs ==> allocs'[t].bytes == allocs[t].bytes
  {
    assert Sizes(allocs).Keys == allocs.Keys && Sizes(allocs').Keys == allocs'.Keys;
    forall t | t in allocs
      ensures t in allocs' && allocs'[t].bytes == allocs[t].bytes
    {
      assert Sizes(allocs)[t] == allocs[t].bytes && Sizes(allocs')[t] == allocs'[t].bytes;
    }
  }

  lemma SameRoot(env: Env, allocs: Allocs, allocs': Allocs, roots: seq<AllocObject>, t: nat)
    requires env.alignment > 0 && allocs.Keys == allocs'.Keys
    ensures FromRoot(env, allocs, roots, t) <==> FromRoot(env, allocs', roots, t)
  {
    hide Sees;
  }

  lemma RootReachable(env: Env, allocs: Allocs, roots: seq<AllocObject>, t: nat)
    requires env.alignment > 0 && FromRoot(env, allocs, roots, t)
    ensures Reachable(env, allocs, roots, t)
  {
    assert IsPath(env, allocs, roots, [t]);
  }

  lemma NextReachable(env: Env, allocs: Allocs, roots: seq<AllocObject>, t: nat, u: nat)
    requires env.alignment > 0 && Reachable(env, allocs, roots, t) && t in allocs && Sees(env, t, allocs[t].bytes, u)
    ensures Reachable(env, allocs, roots, u)
  {
    hide Sees, FromRoot;
    var path :| IsPath(env, allocs, roots, path) && path[|path| - 1] == t;
    assert IsPath(env, allocs, roots, path + [u]);
  }

  // ------------------------------------------------------------ the scan's steps

  /** Positions of a region are its multiples of the alignment. */
  lemma OneMultiple(a: nat, b: nat, d: nat)
    requires d > 0 && a % d == 0 && b % d == 0 && a <= b < a + d
    ensures a == b
  {
    DivMod(a, d);
    DivMod(b, d);
    MulMonotone(a / d + 1, b / d, d);
    MulMonotone(b / d, a / d, d);
    assert (a / d + 1) * d == (a / d) * d + d;
  }

  lemma NextMultiple(a: nat, d: nat)
    requires d > 0
    ensures a % d == 0 ==> (a + d) % d == 0
    ensures a % d > 0 ==> (a + d - a % d) % d == 0
    ensures forall b: nat :: a <= b < a + d - a % d && b % d == 0 ==> b == a
  {
    DivMod(a, d);
    assert (a / d + 1) * d == (a / d) * d + d;
    Multiple(a / d + 1, d);
    forall b: nat | a <= b < a + d - a % d && b % d == 0
      ensures b == a
    {
      Multiple(a / d, d);
      OneMultiple((a / d) * d, b, d);
    }
  }

  /** Everything the region sees is marked. */
  ghost predicate Done(env: Env, allocs: Allocs, ptr: nat, size: nat)
    requires env.alignment > 0
  {
    forall u :: Sees(env, ptr, size, u) ==> u in Live(allocs)
  }

  /** Everything seen from the words before position p is marked. */
  ghost predicate DoneUpTo(env: Env, allocs: Allocs, ptr: nat, size: nat, p: nat)
    requires env.alignment > 0
  {
    forall a: nat, u :: a < p && SeesAt(env, ptr, size, a, u) ==> u in Live(allocs)
  }

  lemma AllDone(env: Env, allocs: Allocs, ptr: nat, size: nat, p: nat)
    requires env.alignment > 0 && DoneUpTo(env, allocs, ptr, size, p) && p + WORD_SIZE > ptr + size
    ensures Done(env, allocs, ptr, size)
  {
  }

  function Item(allocs: Allocs, t: nat): AllocObject
    requires t in allocs
  {
    AllocObject(t, allocs[t].bytes, IgnoredOnHeap)
  }

  /** From allocs to allocs' the allocations of `new` were marked, and an item for each
      was pushed. */
  ghost predicate Pushed(allocs: Allocs, allocs': Allocs, work: seq<AllocObject>, work': seq<AllocObject>) {
    && OnlyMarked(allocs, allocs')
    && (forall o :: o in work ==> o in work')
    && (forall t :: t in Live(allocs') && t !in Live(allocs) ==> Item(allocs', t) in work')
    && (forall o :: o in work' ==>
      o in work || (o.ptr in Live(allocs') && o.ptr !in Live(allocs) && o == Item(allocs', o.ptr)))
  }

  /** The allocation at t gets its live bit. */
  lemma MarkedOne(allocs: Allocs, t: nat)
    requires t in allocs && !allocs[t].live
    ensures var allocs' := allocs[t := allocs[t].(live := true)];
      OnlyMarked(allocs, allocs') && Live(allocs') == Live(allocs) + {t}
  {
  }

  lemma MarkedTrans(a: Allocs, b: Allocs, c: Allocs)
    requires OnlyMarked(a, b) && OnlyMarked(b, c)
    ensures OnlyMarked(a, c) && Live(a) <= Live(b) <= Live(c) <= a.Keys
  {
  }

  lemma PushedOne(a: Allocs, b: Allocs, work: seq<AllocObject>, work': seq<AllocObject>, t: nat)
    requires Pushed(a, b, work, work') && t in b && !b[t].live
    ensures Pushed(a, b[t := b[t].(live := true)], work, work' + [Item(b, t)])
  {
    var c := b[t := b[t].(live := true)];
    MarkedOne(b, t);
    MarkedTrans(a, b, c);
    assert Item(c, t) == Item(b, t);
    forall u | u in Live(c) && u !in Live(a)
      ensures Item(c, u) in work' + [Item(b, t)]
    {
      if u != t {
        assert Item(c, u) == Item(b, u);
      }
    }
  }

  /** Counting: one more marked allocation of the given bytes. */
  lemma CountedOne(a: Allocs, b: Allocs, t: nat)
    requires OnlyMarked(a, b) && t in b && !b[t].live
    ensures var c := b[t := b[t].(live := true)];
      && OnlyMarked(a, c) && Live(c) - Live(a) <= a.Keys && Live(b) - Live(a) <= a.Keys
      && |Live(c) - Live(a)| == |Live(b) - Live(a)| + 1
      && TotalBytes(a, Live(c) - Live(a)) == TotalBytes(a, Live(b) - Live(a)) + b[t].bytes
  {
    var c := b[t := b[t].(live := true)];
    MarkedOne(b, t);
    MarkedTrans(a, b, c);
    var s, s' := Live(b) - Live(a), Live(c) - Live(a);
    assert t in s' && s' - {t} == s;
    SumWithout(Sizes(a), s', t);
  }

  // ------------------------------------------------------------- the invariant

  /** Whatever was marked is reachable. */
  ghost predicate Sound(env: Env, allocs0: Allocs, allocs: Allocs, roots: seq<AllocObject>)
    requires env.alignment > 0
  {
    forall t :: t in Live(allocs) ==> t in Live(allocs0) || Reachable(env, allocs0, roots, t)
  }

  ghost predicate WorkOk(allocs0: Allocs, allocs: Allocs, roots: seq<AllocObject>, work: seq<AllocObject>) {
    forall o :: o in work ==>
      o in roots || (o.ptr in Live(allocs) && o.ptr !in Live(allocs0) && o == Item(allocs, o.ptr))
  }

  /** Whatever was marked is scanned or still to be scanned. */
  ghost predicate MarkedOwed(env: Env, allocs0: Allocs, allocs: Allocs, work: seq<AllocObject>)
    requires env.alignment > 0
  {
    forall t :: t in Live(allocs) && t !in Live(allocs0) ==>
      Item(allocs, t) in work || Done(env, allocs, t, allocs[t].bytes)
  }

  ghost predicate RootDone(env: Env, allocs: Allocs, r: AllocObject)
    requires env.alignment > 0
  {
    Done(env, allocs, r.ptr, r.size) && (r.place == MustBeOnHeap && r.ptr in allocs ==> r.ptr in Live(allocs))
  }

  ghost predicate RootsOwed(env: Env, allocs: Allocs, roots: seq<AllocObject>, work: seq<AllocObject>)
    requires env.alignment > 0
  {
    forall r :: r in roots ==> r in work || RootDone(env, allocs, r)
  }

  /** Roots on the heap carry the size of their allocation. */
  ghost predicate RootSizes(allocs: Allocs, roots: seq<AllocObject>) {
    forall r :: r in roots && r.place == MustBeOnHeap && r.ptr in allocs ==> r.size == allocs[r.ptr].bytes
  }

  lemma DoneMore(env: Env, a: Allocs, b: Allocs, ptr: nat, size: nat)
    requires env.alignment > 0 && Done(env, a, ptr, size) && Live(a) <= Live(b)
    ensures Done(env, b, ptr, size)
  {
  }

  /** What object o sees is reachable if o is a root or a marked reachable allocation. */
  lemma SeenReachable(env: Env, allocs0: Allocs, allocs: Allocs, roots: seq<AllocObject>, o: AllocObject, u: nat)
    requires env.alignment > 0 && Sound(env, allocs0, allocs, roots) && OnlyMarked(allocs0, allocs)
    requires o in roots || (o.ptr in Live(allocs) && o.ptr !in Live(allocs0) && o == Item(allocs, o.ptr))
    requires Sees(env, o.ptr, o.size, u)
    ensures Reachable(env, allocs0, roots, u)
  {
    hide Sees, Reachable;
    if o in roots {
      assert FromRoot(env, allocs0, roots, u);
      RootReachable(env, allocs0, roots, u);
    } else {
      assert o.size == allocs0[o.ptr].bytes;
      NextReachable(env, allocs0, roots, o.ptr, u);
    }
  }

  /** One round of the loop: object o was taken from the work list, marked if it is a
      root on the heap, and scanned. */
  lemma RoundKeeps(env: Env, allocs0: Allocs, a: Allocs, m: Allocs, b: Allocs, roots: seq<AllocObject>,
                   work: seq<AllocObject>, o: AllocObject, work': seq<AllocObject>)
    requires env.alignment > 0 && OnlyMarked(allocs0, a) && OnlyMarked(a, m) && RootSizes(allocs0, roots)
    requires WorkOk(allocs0, a, roots, work + [o]) && MarkedOwed(env, allocs0, a, work + [o]) &&
             RootsOwed(env, a, roots, work + [o])
    requires forall t :: t in Live(m) && t !in Live(a) ==> t == o.ptr && o.place == MustBeOnHeap
    requires o.place == MustBeOnHeap && o.ptr in a ==> o.ptr in Live(m)
    requires Pushed(m, b, work, work') && Done(env, b, o.ptr, o.size)
    ensures OnlyMarked(allocs0, b) && WorkOk(allocs0, b, roots, work')
    ensures MarkedOwed(env, allocs0, b, work') && RootsOwed(env, b, roots, work')
  {
    MarkedTrans(allocs0, a, m);
    MarkedTrans(allocs0, m, b);
    MarkedTrans(a, m, b);
    assert o in work + [o];
    hide OnlyMarked, RootSizes, Pushed;
    RoundWork(allocs0, a, m, b, roots, work, o, work');
    RoundMarked(env, allocs0, a, m, b, roots, work, o, work');
    RoundRoots(env, a, b, m, roots, work, o, work');
  }

  lemma RoundWork(allocs0: Allocs, a: Allocs, m: Allocs, b: Allocs, roots: seq<AllocObject>, work: seq<AllocObject>,
                  o: AllocObject, work': seq<AllocObject>)
    requires OnlyMarked(allocs0, m) && OnlyMarked(a, b) && WorkOk(allocs0, a, roots, work + [o]) &&
             Pushed(m, b, work, work')
    ensures WorkOk(allocs0, b, roots, work')
  {
    forall p | p in work'
      ensures p in roots || (p.ptr in Live(b) && p.ptr !in Live(allocs0) && p == Item(b, p.ptr))
    {
      if p in work {
        assert p in work + [o];
      }
    }
  }

  lemma RoundMarked(env: Env, allocs0: Allocs, a: Allocs, m: Allocs, b: Allocs, roots: seq<AllocObject>,
                    work: seq<AllocObject>, o: AllocObject, work': seq<AllocObject>)
    requires env.alignment > 0 && OnlyMarked(allocs0, a) && OnlyMarked(a, m) && OnlyMarked(a, b) &&
             RootSizes(allocs0, roots)
    requires WorkOk(allocs0, a, roots, work + [o]) && MarkedOwed(env, allocs0, a, work + [o])
    requires forall t :: t in Live(m) && t !in Live(a) ==> t == o.ptr && o.place == MustBeOnHeap
    requires Pushed(m, b, work, work') && Done(env, b, o.ptr, o.size)
    ensures MarkedOwed(env, allocs0, b, work')
  {
    hide Done;
    forall t | t in Live(b) && t !in Live(allocs0)
      ensures Item(b, t) in work' || Done(env, b, t, b[t].bytes)
    {
      if t in Live(a) {
        assert Item(b, t) == Item(a, t);
        if Item(a, t) !in work + [o] {
          DoneMore(env, a, b, t, a[t].bytes);
        } else if Item(a, t) in work {
          assert Item(a, t) in work';
        }
      } else if t in Live(m) {
        assert o in work + [o];
        assert o in roots;
      }
    }
  }

  lemma RoundRoots(env: Env, a: Allocs, b: Allocs, m: Allocs, roots: seq<AllocObject>, work: seq<AllocObject>,
                   o: AllocObject, work': seq<AllocObject>)
    requires env.alignment > 0 && RootsOwed(env, a, roots, work + [o]) && Live(a) <= Live(m) <= Live(b) &&
             a.Keys == b.Keys
    requires o.place == MustBeOnHeap && o.ptr in a ==> o.ptr in Live(m)
    requires Pushed(m, b, work, work') && Done(env, b, o.ptr, o.size)
    ensures RootsOwed(env, b, roots, work')
  {
    hide Done, Live;
    forall r | r in roots
      ensures r in work' || RootDone(env, b, r)
    {
      if r !in work && r != o {
        assert r !in work + [o];
        DoneMore(env, a, b, r.ptr, r.size);
      }
    }
  }

  /** With nothing left to scan the marked allocations are the reachable ones. */
  lemma Finished(env: Env, allocs0: Allocs, allocs: Allocs, roots: seq<AllocObject>)
    requires env.alignment > 0 && OnlyMarked(allocs0, allocs) && Closed(env, allocs0)
    requires Sound(env, allocs0, allocs, roots)
    requires MarkedOwed(env, allocs0, allocs, []) && RootsOwed(env, allocs, roots, [])
    ensures Closed(env, allocs)
    ensures forall t :: t in Live(allocs) <==> t in Live(allocs0) || Reachable(env, allocs0, roots, t)
  {
    hide Sees;
    forall t, u | t in Live(allocs) && Sees(env, t, allocs[t].bytes, u)
      ensures u in Live(allocs)
    {
      assert t in Live(allocs0) ==> u in Live(allocs0);
    }
    forall t | FromRoot(env, allocs, roots, t)
      ensures t in Live(allocs)
    {
      var r :| r in roots && (Sees(env, r.ptr, r.size, t) || (r.place == MustBeOnHeap && r.ptr == t && t in allocs));
      assert RootDone(env, allocs, r);
    }
    hide FromRoot, Closed;
    forall t | Reachable(env, allocs0, roots, t)
      ensures t in Live(allocs)
    {
      SameSizes(allocs0, allocs);
      SameReachable(env, allocs0, allocs, roots, t);
      var path :| IsPath(env, allocs, roots, path) && path[|path| - 1] == t;
      PathMarked(env, allocs, roots, path, |path| - 1);
    }
  }

  /** The allocation that the word at pos points into, if it is to be marked. */
  function NewTarget(env: Env, allocs: Allocs, pos: nat): (r: Option<nat>)
    ensures r.Some? ==> r.value in allocs && !allocs[r.value].live
  {
    var addr := env.mem(pos);
    if env.lowest <= addr <= env.highest && env.resolve(addr).Some?
       && env.resolve(addr).value in allocs && !allocs[env.resolve(addr).value].live
    then env.resolve(addr) else None
  }

  function MarkedTarget(allocs: Allocs, r: Option<nat>): Allocs
    requires r.Some? ==> r.value in allocs
  {
    if r.Some? then allocs[r.value := allocs[r.value].(live := true)] else allocs
  }

  function NewItems(allocs: Allocs, r: Option<nat>): seq<AllocObject>
    requires r.Some? ==> r.value in allocs
  {
    if r.Some? then [Item(allocs, r.value)] else []
  }

  /** What a scan has done so far: allocations that the region sees were marked, an item
      pushed for each, and both their number and their bytes counted. */
  ghost predicate Scanned(env: Env, a: Allocs, work: seq<AllocObject>, b: Allocs, work': seq<AllocObject>, ptr: nat,
                          size: nat, count: nat, bytes: nat)
    requires env.alignment > 0
  {
    && Pushed(a, b, work, work') && (count == 0 ==> work' == work)
    && (forall t :: t in Live(b) && t !in Live(a) ==> Sees(env, ptr, size, t))
    && Live(b) - Live(a) <= a.Keys && count == |Live(b) - Live(a)|
    && bytes == TotalBytes(a, Live(b) - Live(a))
  }

  lemma NothingScanned(env: Env, allocs: Allocs, work: seq<AllocObject>, ptr: nat, size: nat)
    requires env.alignment > 0
    ensures Scanned(env, allocs, work, allocs, work, ptr, size, 0, 0)
  {
    assert Live(allocs) - Live(allocs) == {};
  }

  /** One word further: everything up to the next word is done, */
  lemma WordHandled(env: Env, a: Allocs, ptr: nat, size: nat, pos: nat)
    requires Resolves(env, a) && pos % env.alignment == 0 && DoneUpTo(env, a, ptr, size, pos)
    ensures var b := MarkedTarget(a, NewTarget(env, a, pos));
      Resolves(env, b) && DoneUpTo(env, b, ptr, size, pos + env.alignment)
  {
    hide Live, DoneUpTo, NewTarget;
    TargetLive(env, a, pos);
    WordDone(env, a, MarkedTarget(a, NewTarget(env, a, pos)), ptr, size, pos);
  }

  /** and what was found was seen, pushed and counted. */
  lemma WordScanned(env: Env, allocs0: Allocs, work0: seq<AllocObject>, a: Allocs, work: seq<AllocObject>,
                    ptr: nat, size: nat, count: nat, bytes: nat, pos: nat, found: Option<nat>)
    requires env.alignment > 0 && Scanned(env, allocs0, work0, a, work, ptr, size, count, bytes)
    requires ptr <= pos && pos % env.alignment == 0 && pos + WORD_SIZE <= ptr + size
    requires found == NewTarget(env, a, pos)
    ensures Scanned(env, allocs0, work0, MarkedTarget(a, found), work + NewItems(a, found), ptr, size,
                    count + Found(found), bytes + FoundBytes(a, found))
  {
    hide Live, Scanned, Sees, NewTarget;
    assert work + [] == work;
    if found.Some? {
      NewTargetSeen(env, a, pos);
      SeenHere(env, ptr, size, pos, found.value);
      FoundScanned(env, allocs0, work0, a, work, ptr, size, count, bytes, found.value);
    }
  }

  function Found(r: Option<nat>): nat {
    if r.Some? then 1 else 0
  }

  function FoundBytes(allocs: Allocs, r: Option<nat>): nat
    requires r.Some? ==> r.value in allocs
  {
    if r.Some? then allocs[r.value].bytes else 0
  }

  lemma FoundScanned(env: Env, allocs0: Allocs, work0: seq<AllocObject>, a: Allocs, work: seq<AllocObject>, ptr: nat,
                     size: nat, count: nat, bytes: nat, t: nat)
    requires env.alignment > 0 && Scanned(env, allocs0, work0, a, work, ptr, size, count, bytes)
    requires t in a && !a[t].live && Sees(env, ptr, size, t)
    ensures Scanned(env, allocs0, work0, a[t := a[t].(live := true)], work + [Item(a, t)], ptr, size, count + 1,
            bytes + a[t].bytes)
  {
    hide Sees, Live;
    PushedOne(allocs0, a, work0, work, t);
    CountedOne(allocs0, a, t);
    MarkedOne(a, t);
    hide Pushed;
  }

  lemma NewTargetSeen(env: Env, a: Allocs, pos: nat)
    ensures NewTarget(env, a, pos).Some? ==>
      env.lowest <= env.mem(pos) <= env.highest && env.resolve(env.mem(pos)) == NewTarget(env, a, pos)
  {
  }

  lemma TargetLive(env: Env, a: Allocs, pos: nat)
    requires Resolves(env, a)
    ensures env.lowest <= env.mem(pos) <= env.highest && env.resolve(env.mem(pos)).Some? ==>
              env.resolve(env.mem(pos)).value in Live(MarkedTarget(a, NewTarget(env, a, pos)))
  {
  }

  lemma RoundedUp(env: Env, allocs: Allocs, ptr: nat, size: nat, pos: nat)
    requires env.alignment > 0
    requires pos == if ptr % env.alignment == 0 then ptr else ptr + (env.alignment - ptr % env.alignment)
    ensures pos % env.alignment == 0 && DoneUpTo(env, allocs, ptr, size, pos)
  {
    NextMultiple(ptr, env.alignment);
  }

  lemma SeenHere(env: Env, ptr: nat, size: nat, a: nat, t: nat)
    requires env.alignment > 0 && ptr <= a && a % env.alignment == 0 && a + WORD_SIZE <= ptr + size
    requires env.lowest <= env.mem(a) <= env.highest && env.resolve(env.mem(a)) == Some(t)
    ensures Sees(env, ptr, size, t)
  {
    assert SeesAt(env, ptr, size, a, t);
  }

  /** After the word at p was handled everything up to the next position is done. */
  lemma WordDone(env: Env, a: Allocs, b: Allocs, ptr: nat, size: nat, p: nat)
    requires env.alignment > 0 && p % env.alignment == 0 && DoneUpTo(env, a, ptr, size, p)
    requires forall t :: t in a ==> t in b && (a[t].live ==> b[t].live)
    requires env.lowest <= env.mem(p) <= env.highest && env.resolve(env.mem(p)).Some? ==>
               env.resolve(env.mem(p)).value in Live(b)
    ensures DoneUpTo(env, b, ptr, size, p + env.alignment)
  {
    forall x: nat, u | x < p + env.alignment && SeesAt(env, ptr, size, x, u)
      ensures u in Live(b)
    {
      if x >= p {
        OneMultiple(p, x, env.alignment);
      }
    }
  }

  /** The loop's invariant: what was marked is reachable and counted, and what is left
      to be scanned is on the work list. */
  ghost predicate Marking(env: Env, allocs0: Allocs, roots: seq<AllocObject>, a: Allocs, work: seq<AllocObject>,
                          count: nat, bytes: nat)
    requires env.alignment > 0
  {
    && OnlyMarked(allocs0, a) && Sound(env, allocs0, a, roots) && WorkOk(allocs0, a, roots, work)
    && MarkedOwed(env, allocs0, a, work) && RootsOwed(env, a, roots, work)
    && Live(a) - Live(allocs0) <= allocs0.Keys && count == |Live(a) - Live(allocs0)|
    && bytes == TotalBytes(allocs0, Live(a) - Live(allocs0))
  }

  lemma Begun(env: Env, allocs: Allocs, roots: seq<AllocObject>)
    requires env.alignment > 0
    ensures Marking(env, allocs, roots, allocs, roots, 0, 0)
  {
    assert Live(allocs) - Live(allocs) == {};
  }

  /** The allocations after a root on the heap was marked. */
  ghost function RootMarked(a: Allocs, o: AllocObject): Allocs {
    if o.place == MustBeOnHeap && o.ptr in a && !a[o.ptr].live then a[o.ptr := a[o.ptr].(live := true)] else a
  }

  lemma MarkedKeys(a: Allocs, m: Allocs, env: Env)
    requires Resolves(env, a) && m.Keys == a.Keys
    ensures Resolves(env, m)
  {
  }

  lemma Round(env: Env, allocs0: Allocs, roots: seq<AllocObject>, a: Allocs, work: seq<AllocObject>, count: nat,
              bytes: nat, o: AllocObject, m: Allocs, b: Allocs, work': seq<AllocObject>, more: nat, moreBytes: nat)
    requires Resolves(env, a) && Marking(env, allocs0, roots, a, work + [o], count, bytes) && RootSizes(allocs0, roots)
    requires m == RootMarked(a, o) && Scanned(env, m, work, b, work', o.ptr, o.size, more, moreBytes) &&
             Done(env, b, o.ptr, o.size)
    ensures var one := if m == a then 0 else 1;
      && Marking(env, allocs0, roots, b, work', count + one + more, bytes + (if m == a then 0 else o.size) + moreBytes)
      && count + one + more <= |allocs0.Keys| && (more == 0 ==> work' == work) && Resolves(env, b)
      && (m == a <==> !(o.place == MustBeOnHeap && o.ptr in a && !a[o.ptr].live))
  {
    hide Live, Sound, WorkOk, MarkedOwed, RootsOwed, Done, RootSizes, Pushed, Sees, OnlyMarked, TotalBytes;
    MarkedRoot(allocs0, a, m, o);
    PushedOnly(m, b, work, work');
    RoundKeeps(env, allocs0, a, m, b, roots, work, o, work');
    RoundSound(env, allocs0, a, m, b, roots, work, o);
    RoundCounted(allocs0, m, b);
    AtMostAll(allocs0, b);
    if o.place == MustBeOnHeap && o.ptr in a && !a[o.ptr].live {
      RootCounted(allocs0, a, roots, work, o);
    }
  }

  lemma PushedOnly(a: Allocs, b: Allocs, work: seq<AllocObject>, work': seq<AllocObject>)
    requires Pushed(a, b, work, work')
    ensures OnlyMarked(a, b) && Live(a) <= Live(b)
  {
  }

  lemma AllMarked(env: Env, allocs0: Allocs, roots: seq<AllocObject>, allocs: Allocs, count: nat, bytes: nat)
    requires env.alignment > 0 && Marking(env, allocs0, roots, allocs, [], count, bytes) && Closed(env, allocs0)
    ensures OnlyMarked(allocs0, allocs) && Closed(env, allocs)
    ensures forall t :: t in Live(allocs) <==> t in Live(allocs0) || Reachable(env, allocs0, roots, t)
    ensures Live(allocs) - Live(allocs0) <= allocs0.Keys && count == |Live(allocs) - Live(allocs0)|
    ensures bytes == TotalBytes(allocs0, Live(allocs) - Live(allocs0))
  {
    hide Live, Sound, MarkedOwed, RootsOwed, Closed, Reachable;
    Finished(env, allocs0, allocs, roots);
  }

  /** A root on the heap is counted with the size of its allocation. */
  lemma RootCounted(allocs0: Allocs, a: Allocs, roots: seq<AllocObject>, work: seq<AllocObject>, o: AllocObject)
    requires OnlyMarked(allocs0, a) && RootSizes(allocs0, roots) && WorkOk(allocs0, a, roots, work + [o])
    requires o.place == MustBeOnHeap && o.ptr in a && !a[o.ptr].live
    ensures var m := a[o.ptr := a[o.ptr].(live := true)];
      && Live(m) - Live(allocs0) <= allocs0.Keys && Live(a) - Live(allocs0) <= allocs0.Keys
      && |Live(m) - Live(allocs0)| == |Live(a) - Live(allocs0)| + 1
      && TotalBytes(allocs0, Live(m) - Live(allocs0)) == TotalBytes(allocs0, Live(a) - Live(allocs0)) + o.size
  {
    assert o in work + [o];
    CountedOne(allocs0, a, o.ptr);
  }

  lemma MarkedRoot(allocs0: Allocs, a: Allocs, m: Allocs, o: AllocObject)
    requires OnlyMarked(allocs0, a)
    requires m == if o.place == MustBeOnHeap && o.ptr in a && !a[o.ptr].live then a[o.ptr := a[o.ptr].(live := true)]
             else a
    ensures OnlyMarked(a, m) && OnlyMarked(allocs0, m) && m.Keys == a.Keys == allocs0.Keys
    ensures forall t :: t in Live(m) && t !in Live(a) ==> t == o.ptr && o.place == MustBeOnHeap
    ensures o.place == MustBeOnHeap && o.ptr in a ==> o.ptr in Live(m)
  {
  }

  lemma RoundSound(env: Env, allocs0: Allocs, a: Allocs, m: Allocs, b: Allocs, roots: seq<AllocObject>,
                   work: seq<AllocObject>, o: AllocObject)
    requires env.alignment > 0 && OnlyMarked(allocs0, a) && WorkOk(allocs0, a, roots, work + [o]) &&
             Sound(env, allocs0, a, roots)
    requires OnlyMarked(a, m) && forall t :: t in Live(m) && t !in Live(a) ==> t == o.ptr && o.place == MustBeOnHeap
    requires forall t :: t in Live(b) && t !in Live(m) ==> Sees(env, o.ptr, o.size, t)
    ensures Sound(env, allocs0, b, roots)
  {
    hide Sees, Reachable;
    assert o in work + [o];
    forall t | t in Live(b)
      ensures t in Live(allocs0) || Reachable(env, allocs0, roots, t)
    {
      if t !in Live(m) {
        SeenReachable(env, allocs0, a, roots, o, t);
      } else if t !in Live(a) {
        assert FromRoot(env, allocs0, roots, t);
        RootReachable(env, allocs0, roots, t);
      }
    }
  }

  lemma RoundCounted(allocs0: Allocs, m: Allocs, b: Allocs)
    requires OnlyMarked(allocs0, m) && OnlyMarked(allocs0, b) && Live(m) <= Live(b)
    ensures Live(b) - Live(allocs0) <= allocs0.Keys && Live(m) - Live(allocs0) <= allocs0.Keys &&
            Live(b) - Live(m) <= m.Keys
    ensures |Live(b) - Live(allocs0)| == |Live(m) - Live(allocs0)| + |Live(b) - Live(m)|
    ensures TotalBytes(allocs0, Live(b) - Live(allocs0)) == TotalBytes(allocs0,
            Live(m) - Live(allocs0)) + TotalBytes(m, Live(b) - Live(m))
  {
    var s, t := Live(m) - Live(allocs0), Live(b) - Live(m);
    assert Live(b) - Live(allocs0) == s + t;
    SumUnion(Sizes(allocs0), s, t);
    SameSizes(allocs0, m);
  }

  lemma AtMostAll(allocs0: Allocs, allocs: Allocs)
    requires Live(allocs) - Live(allocs0) <= allocs0.Keys
    ensures |Live(allocs) - Live(allocs0)| <= |allocs0.Keys|
  {
    SubsetSize(Live(allocs) - Live(allocs0), allocs0.Keys);
  }

  // ---------------------------------------------------------------- the checker

  class LeakChecker {
    var allocs: Allocs                     // heap_profile's recorded allocations
    var liveObjects: seq<AllocObject>      // live_objects, a stack
    var objectsTotal: nat                  // live_objects_total
    var bytesTotal: nat                    // live_bytes_total

    constructor (allocs: Allocs, roots: seq<AllocObject>)
      ensures this.allocs == allocs && liveObjects == roots && objectsTotal == bytesTotal == 0
    {
      this.allocs := allocs;
      liveObjects := roots;
      objectsTotal, bytesTotal := 0, 0;
    }

    /** True exactly when an allocation is recorded there that was not marked yet. */
    method MarkAsLive(t: nat) returns (marked: bool)
      modifies this`allocs
      ensures marked <==> t in old(allocs) && !old(allocs)[t].live
      ensures allocs == if marked then old(allocs)[t := old(allocs)[t].(live := true)] else old(allocs)
    {
      marked := t in allocs && !allocs[t].live;
      if marked {
        allocs := allocs[t := allocs[t].(live := true)];
      }
    }

    /** Takes the word at pos for a pointer; an allocation it points into that was not
        marked yet is marked and pushed. */
    method TryWord(env: Env, pos: nat) returns (found: Option<nat>)
      requires Resolves(env, allocs)
      modifies this`allocs, this`liveObjects
      ensures found == NewTarget(env, old(allocs), pos)
      ensures allocs == MarkedTarget(old(allocs), found) &&
              liveObjects == old(liveObjects) + NewItems(old(allocs), found)
    {
      found := None;
      var addr := env.mem(pos);
      if env.lowest <= addr <= env.highest {
        var target := env.resolve(addr);
        if target.Some? {
          var marked := MarkAsLive(target.value);
          if marked {
            liveObjects := liveObjects + [AllocObject(target.value, allocs[target.value].bytes, IgnoredOnHeap)];
            found := target;
          }
        }
      }
    }

    /** Reads every aligned word of the region. */
    method ScanObject(env: Env, ptr: nat, size: nat) returns (count: nat, bytes: nat)
      requires Resolves(env, allocs)
      modifies this`allocs, this`liveObjects
      ensures Scanned(env, old(allocs), old(liveObjects), allocs, liveObjects, ptr, size, count, bytes)
      ensures Done(env, allocs, ptr, size)
    {
      hide Scanned, Done, DoneUpTo, NewTarget;
      count, bytes := 0, 0;
      ghost var allocs0, work0 := allocs, liveObjects;
      NothingScanned(env, allocs, liveObjects, ptr, size);
      var d := env.alignment;
      var pos := ptr;
      var left := size;
      var remainder := ptr % d;
      if remainder != 0 {
        pos := ptr + (d - remainder);
        left := if size >= d - remainder then size - (d - remainder) else 0;
      }
      RoundedUp(env, allocs, ptr, size, pos);
      if left < WORD_SIZE {
        AllDone(env, allocs, ptr, size, pos);
        return;
      }
      var maxObject := pos + left - WORD_SIZE;
      while pos <= maxObject
        invariant pos >= ptr && pos % d == 0 && maxObject + WORD_SIZE == ptr + size && Resolves(env, allocs)
        invariant Scanned(env, allocs0, work0, allocs, liveObjects, ptr, size, count, bytes)
        invariant DoneUpTo(env, allocs, ptr, size, pos)
      {
        ghost var before, work := allocs, liveObjects;
        var found := TryWord(env, pos);
        WordHandled(env, before, ptr, size, pos);
        WordScanned(env, allocs0, work0, before, work, ptr, size, count, bytes, pos, found);
        if found.Some? {
          count := count + 1;
          bytes := bytes + allocs[found.value].bytes;
        }
        NextMultiple(pos, d);
        pos := pos + d;
      }
      AllDone(env, allocs, ptr, size, pos);
    }

    /** One round of the mark loop, on the last object of the work list. */
    method MarkNext(env: Env, ghost allocs0: Allocs, ghost roots: seq<AllocObject>, count: nat, bytes: nat)
      returns (count': nat, bytes': nat)
      requires Resolves(env, allocs) && RootSizes(allocs0, roots) && liveObjects != []
      requires Marking(env, allocs0, roots, allocs, liveObjects, count, bytes)
      modifies this`allocs, this`liveObjects
      ensures Resolves(env, allocs) && Marking(env, allocs0, roots, allocs, liveObjects, count', bytes')
      ensures count < count' <= |allocs0.Keys| || (count' == count && |liveObjects| < |old(liveObjects)|)
    {
      hide Marking, Scanned, RootSizes, Done, Live, OnlyMarked, TotalBytes;
      ghost var a := allocs;
      var o := liveObjects[|liveObjects| - 1];
      ghost var work := liveObjects[..|liveObjects| - 1];
      assert liveObjects == work + [o];
      liveObjects := liveObjects[..|liveObjects| - 1];
      count', bytes' := count, bytes;
      if o.place == MustBeOnHeap {
        var marked := MarkAsLive(o.ptr);
        if marked {
          count' := count' + 1;
          bytes' := bytes' + o.size;
        }
      }
      ghost var m := allocs;
      MarkedKeys(a, m, env);
      var more, moreBytes := ScanObject(env, o.ptr, o.size);
      Round(env, allocs0, roots, a, work, count, bytes, o, m, allocs, liveObjects, more, moreBytes);
      count' := count' + more;
      bytes' := bytes' + moreBytes;
    }

    /** The mark loop: it ends with the work list empty, exactly the reachable allocations
        marked in addition to those marked before, and each of them counted once. */
    method IgnoreLiveObjects(env: Env)
      requires Resolves(env, allocs) && Closed(env, allocs) && RootSizes(allocs, liveObjects)
      modifies this
      ensures liveObjects == [] && OnlyMarked(old(allocs), allocs) && Closed(env, allocs) && Resolves(env, allocs)
      ensures forall t :: t in Live(allocs) <==>
        t in Live(old(allocs)) || Reachable(env, old(allocs), old(liveObjects), t)
      ensures objectsTotal == old(objectsTotal) + |Live(allocs) - Live(old(allocs))|
      ensures Live(allocs) - Live(old(allocs)) <= old(allocs).Keys
      ensures bytesTotal == old(bytesTotal) + TotalBytes(old(allocs), Live(allocs) - Live(old(allocs)))
    {
      hide Marking, Scanned, Closed, RootSizes, Done, Live, OnlyMarked, Reachable, TotalBytes;
      ghost var allocs0, roots := allocs, liveObjects;
      var count: nat, bytes: nat := 0, 0;
      Begun(env, allocs, roots);
      while liveObjects != []
        invariant Marking(env, allocs0, roots, allocs, liveObjects, count, bytes) && Resolves(env, allocs)
        invariant objectsTotal == old(objectsTotal) && bytesTotal == old(bytesTotal)
        decreases |allocs0.Keys| - count, |liveObjects|
      {
        count, bytes := MarkNext(env, allocs0, roots, count, bytes);
      }
      AllMarked(env, allocs0, roots, allocs, count, bytes);
      objectsTotal := objectsTotal + count;
      bytesTotal := bytesTotal + bytes;
    }

    /** Every allocation is visited once: a marked one is unmarked, another one is copied
        unless the base snapshot has it. */
    method NonLiveSnapshot(base: set<nat>) returns (leaks: Allocs)
      modifies this`allocs
      ensures leaks == NonLive(old(allocs), base) && allocs == Unmarked(old(allocs))
    {
      leaks := map[];
      var todo := allocs.Keys;
      while todo != {}
        invariant todo <= allocs.Keys == old(allocs).Keys
        invariant forall t :: t in allocs ==>
          allocs[t] == if t in todo then old(allocs)[t] else old(allocs)[t].(live := false)
        invariant forall t :: t in leaks <==> t in allocs && t !in todo && !old(allocs)[t].live && t !in base
        invariant forall t :: t in leaks ==> leaks[t] == old(allocs)[t]
      {
        var t :| t in todo;
        todo := todo - {t};
        if allocs[t].live {
          allocs := allocs[t := allocs[t].(live := false)];
        } else if t !in base {
          leaks := leaks[t := allocs[t]];
        }
      }
      assert leaks == NonLive(old(allocs), base);
      assert allocs == Unmarked(old(allocs));
    }

    /** The groups of roots, thread data and one library's globals after the other, are
        loaded and marked in turn; together that marks what any of them reaches. */
    method MarkGroups(env: Env, groups: seq<seq<AllocObject>>)
      requires Resolves(env, allocs) && Closed(env, allocs) && forall roots :: roots in groups ==>
        RootSizes(allocs, roots)
      modifies this
      ensures OnlyMarked(old(allocs), allocs) && Closed(env, allocs) && Resolves(env, allocs)
      ensures forall t :: t in Live(allocs) <==> t in Live(old(allocs)) || FromGroups(env, old(allocs), groups, t)
      ensures objectsTotal == old(objectsTotal) + |Live(allocs) - Live(old(allocs))|
      ensures Live(allocs) - Live(old(allocs)) <= old(allocs).Keys
      ensures bytesTotal == old(bytesTotal) + TotalBytes(old(allocs), Live(allocs) - Live(old(allocs)))
    {
      hide Closed, RootSizes, Resolves, Reachable, MarkedSoFar, FromGroups, Live, OnlyMarked, TotalBytes;
      ghost var allocs0 := allocs;
      NoGroups(env, allocs, groups);
      for k := 0 to |groups|
        invariant Resolves(env, allocs) && Closed(env, allocs)
        invariant MarkedSoFar(env, allocs0, allocs, groups[..k], objectsTotal - old(objectsTotal),
                  bytesTotal - old(bytesTotal))
      {
        ghost var a := allocs;
        GroupReady(env, allocs0, a, groups, k);
        liveObjects := groups[k];
        ghost var objects, bytes := objectsTotal, bytesTotal;
        IgnoreLiveObjects(env);
        GroupMarked(env, allocs0, a, allocs, groups, k, objects - old(objectsTotal), bytes - old(bytesTotal));
      }
      assert groups[..|groups|] == groups;
      AllGroups(env, allocs0, allocs, groups, objectsTotal - old(objectsTotal), bytesTotal - old(bytesTotal));
    }

    /** A whole check from a table without marks: exactly the allocations that no group of
        roots reaches and the base does not have are reported, and the table is without
        marks again. */
    method Check(env: Env, groups: seq<seq<AllocObject>>, base: set<nat>) returns (leaks: Allocs)
      requires Resolves(env, allocs) && Live(allocs) == {} && forall roots :: roots in groups ==>
        RootSizes(allocs, roots)
      modifies this
      ensures forall t :: t in leaks <==> t in old(allocs) && !FromGroups(env, old(allocs), groups, t) && t !in base
      ensures forall t :: t in leaks ==> leaks[t] == old(allocs)[t]
      ensures allocs == old(allocs)
    {
      hide FromGroups, RootSizes;
      NothingClosed(env, allocs);
      hide Closed, Resolves;
      MarkGroups(env, groups);
      SnapshotIs(old(allocs), allocs, base);
      leaks := NonLiveSnapshot(base);
    }
  }

  /** Some group of roots reaches allocation t. */
  ghost predicate FromGroups(env: Env, allocs: Allocs, groups: seq<seq<AllocObject>>, t: nat)
    requires env.alignment > 0
  {
    exists roots :: roots in groups && Reachable(env, allocs, roots, t)
  }

  /** Since allocs0, exactly what the groups reach was marked, and counted once. */
  ghost predicate MarkedSoFar(env: Env, allocs0: Allocs, a: Allocs, groups: seq<seq<AllocObject>>, count: int,
                              bytes: int)
    requires env.alignment > 0
  {
    && OnlyMarked(allocs0, a)
    && (forall t :: t in Live(a) <==> t in Live(allocs0) || FromGroups(env, allocs0, groups, t))
    && Live(a) - Live(allocs0) <= allocs0.Keys && count == |Live(a) - Live(allocs0)|
    && bytes == TotalBytes(allocs0, Live(a) - Live(allocs0))
  }

  lemma NoGroups(env: Env, allocs: Allocs, groups: seq<seq<AllocObject>>)
    requires Resolves(env, allocs)
    ensures env.alignment > 0 && MarkedSoFar(env, allocs, allocs, groups[..0], 0, 0)
  {
    assert Live(allocs) - Live(allocs) == {};
  }

  lemma AllGroups(env: Env, allocs0: Allocs, a: Allocs, groups: seq<seq<AllocObject>>, count: int, bytes: int)
    requires env.alignment > 0 && MarkedSoFar(env, allocs0, a, groups, count, bytes)
    ensures OnlyMarked(allocs0, a)
    ensures forall t :: t in Live(a) <==> t in Live(allocs0) || FromGroups(env, allocs0, groups, t)
    ensures Live(a) - Live(allocs0) <= allocs0.Keys && count == |Live(a) - Live(allocs0)|
    ensures bytes == TotalBytes(allocs0, Live(a) - Live(allocs0))
  {
  }

  lemma GroupReady(env: Env, allocs0: Allocs, a: Allocs, groups: seq<seq<AllocObject>>, k: nat)
    requires env.alignment > 0 && k < |groups| && RootSizes(allocs0, groups[k])
    requires exists count, bytes :: MarkedSoFar(env, allocs0, a, groups[..k], count, bytes)
    ensures RootSizes(a, groups[k])
  {
  }

  lemma GroupMarked(env: Env, allocs0: Allocs, a: Allocs, b: Allocs, groups: seq<seq<AllocObject>>, k: nat, count: int,
                    bytes: int)
    requires env.alignment > 0 && k < |groups| && MarkedSoFar(env, allocs0, a, groups[..k], count, bytes)
    requires OnlyMarked(a, b) && forall t :: t in Live(b) <==> t in Live(a) || Reachable(env, a, groups[k], t)
    requires Live(b) - Live(a) <= a.Keys
    ensures MarkedSoFar(env, allocs0, b, groups[..k + 1], count + |Live(b) - Live(a)|,
            bytes + TotalBytes(a, Live(b) - Live(a)))
  {
    hide Live, Reachable, TotalBytes;
    MarkedTrans(allocs0, a, b);
    RoundCounted(allocs0, a, b);
    SameSizes(allocs0, a);
    assert groups[..k + 1] == groups[..k] + [groups[k]];
    forall t
      ensures FromGroups(env, allocs0, groups[..k + 1], t) <==>
        FromGroups(env, allocs0, groups[..k], t) || Reachable(env, a, groups[k], t)
    {
      OneMoreGroup(env, allocs0, a, groups, k, t);
    }
  }

  lemma OneMoreGroup(env: Env, allocs0: Allocs, a: Allocs, groups: seq<seq<AllocObject>>, k: nat, t: nat)
    requires env.alignment > 0 && k < |groups| && Sizes(allocs0) == Sizes(a)
    ensures FromGroups(env, allocs0, groups[..k + 1], t) <==>
      FromGroups(env, allocs0, groups[..k], t) || Reachable(env, a, groups[k], t)
  {
    hide Reachable;
    assert groups[..k + 1] == groups[..k] + [groups[k]];
    assert groups[k] in groups[..k + 1];
    if Reachable(env, a, groups[k], t) {
      SameReachable(env, a, allocs0, groups[k], t);
    }
    if Reachable(env, allocs0, groups[k], t) {
      SameReachable(env, allocs0, a, groups[k], t);
    }
    if FromGroups(env, allocs0, groups[..k], t) {
      var roots :| roots in groups[..k] && Reachable(env, allocs0, roots, t);
      assert roots in groups[..k + 1];
    }
  }

  lemma NothingClosed(env: Env, allocs: Allocs)
    requires env.alignment > 0 && Live(allocs) == {}
    ensures Closed(env, allocs)
  {
  }

  /** The snapshot of a table that was without marks before the mark phase. */
  lemma SnapshotIs(allocs0: Allocs, allocs: Allocs, base: set<nat>)
    requires OnlyMarked(allocs0, allocs) && Live(allocs0) == {}
    ensures Unmarked(allocs) == allocs0
    ensures forall t :: t in NonLive(allocs, base) <==> t in allocs0 && t !in Live(allocs) && t !in base
    ensures forall t :: t in NonLive(allocs, base) ==> NonLive(allocs, base)[t] == allocs0[t]
  {
    forall t | t in allocs0
      ensures !allocs0[t].live
    {
      assert t !in Live(allocs0);
    }
  }

  ghost function NonLive(allocs: Allocs, base: set<nat>): Allocs {
    map t | t in allocs && !allocs[t].live && t !in base :: allocs[t]
  }

  ghost function Unmarked(allocs: Allocs): Allocs {
    map t | t in allocs :: allocs[t].(live := false)
  }

  /** The snapshot is documented to leave ignored allocations out.  It does not: */
  lemma IgnoredReported()
    ensures 16 in NonLive(map[16 := Alloc(8, false, true)], {})
  {
  }

  /** it leaves them out exactly when each of them is marked or in the base. */
  lemma IgnoredLeftOut(allocs: Allocs, base: set<nat>)
    ensures (forall t :: t in NonLive(allocs, base) ==> !NonLive(allocs, base)[t].ignore)
            <==> forall t :: t in allocs && allocs[t].ignore && t !in base ==> allocs[t].live
  {
    if forall t :: t in NonLive(allocs, base) ==> !NonLive(allocs, base)[t].ignore {
      forall t | t in allocs && allocs[t].ignore && t !in base
        ensures allocs[t].live
      {
        assert !allocs[t].live ==> t in NonLive(allocs, base);
      }
    }
  }
}

/** Subtracting memory regions from the tentatively live global data. */
module LiveRegions {

  datatype Range = Range(ptr: nat, size: nat)
  datatype Region = Region(start: nat, end: nat)

  /** Address a is in one of the ranges. */
  ghost predicate Covered(ranges: seq<Range>, a: nat) {
    exists r :: r in ranges && r.ptr <= a < r.ptr + r.size
  }

  ghost predicate InRegions(regions: seq<Region>, a: nat) {
    exists r :: r in regions && r.start <= a < r.end
  }

  lemma CoveredConcat(x: seq<Range>, y: seq<Range>, a: nat)
    ensures Covered(x + y, a) <==> Covered(x, a) || Covered(y, a)
  {
    if Covered(x, a) {
      var r :| r in x && r.ptr <= a < r.ptr + r.size;
      assert r in x + y;
    }
    if Covered(y, a) {
      var r :| r in y && r.ptr <= a < r.ptr + r.size;
      assert r in x + y;
    }
  }

  /** What is left of one range: nothing, both ends, one end, or all of it. */
  function Remaining(i: Range, region: Region): seq<Range>
    requires region.start <= region.end
  {
    var end := i.ptr + i.size;
    if region.start <= i.ptr && end <= region.end then []
    else if i.ptr < region.start && region.end < end then
      [Range(i.ptr, region.start - i.ptr), Range(region.end, end - region.end)]
    else if region.end > i.ptr && region.start <= i.ptr then [Range(region.end, end - region.end)]
    else if region.start > i.ptr && region.start < end then [Range(i.ptr, region.start - i.ptr)]
    else [i]
  }

  lemma RemainingCovers(i: Range, region: Region, a: nat)
    requires region.start <= region.end
    ensures Covered(Remaining(i, region), a) <==> i.ptr <= a < i.ptr + i.size && !(region.start <= a < region.end)
  {
    var end := i.ptr + i.size;
    var left := Remaining(i, region);
    if i.ptr < region.start && region.end < end {
      assert left[0] in left && left[1] in left;
    } else if left != [] {
      assert left[0] in left;
    }
  }

  /** One region is cut out of every range. */
  method Subtract(ranges: seq<Range>, region: Region) returns (left: seq<Range>)
    requires region.start <= region.end
    ensures forall a: nat :: Covered(left, a) <==> Covered(ranges, a) && !(region.start <= a < region.end)
  {
    left := [];
    for k := 0 to |ranges|
      invariant forall a: nat :: Covered(left, a) <==> Covered(ranges[..k], a) && !(region.start <= a < region.end)
    {
      forall a: nat
        ensures Covered(left + Remaining(ranges[k], region), a) <==>
          Covered(ranges[..k + 1], a) && !(region.start <= a < region.end)
      {
        assert ranges[..k + 1] == ranges[..k] + [ranges[k]];
        CoveredConcat(ranges[..k], [ranges[k]], a);
        CoveredConcat(left, Remaining(ranges[k], region), a);
        RemainingCovers(ranges[k], region, a);
        assert ranges[k] in [ranges[k]];
      }
      left := left + Remaining(ranges[k], region);
    }
    assert ranges[..|ranges|] == ranges;
  }

  /** All regions that are to be subtracted are cut out, one after the other: what is
      left covers exactly the addresses outside all of them. */
  method SubtractAll(ranges: seq<Range>, regions: seq<Region>) returns (left: seq<Range>)
    requires forall r :: r in regions ==> r.start <= r.end
    ensures forall a: nat :: Covered(left, a) <==> Covered(ranges, a) && !InRegions(regions, a)
  {
    hide Covered;
    left := ranges;
    for k := 0 to |regions|
      invariant forall a: nat :: Covered(left, a) <==> Covered(ranges, a) && !InRegions(regions[..k], a)
    {
      forall a: nat
        ensures InRegions(regions[..k + 1], a) <==> InRegions(regions[..k], a) || regions[k].start <= a < regions[k].end
      {
        OneMoreRegion(regions, k, a);
      }
      left := Subtract(left, regions[k]);
    }
    assert regions[..|regions|] == regions;
  }

  lemma OneMoreRegion(regions: seq<Region>, k: nat, a: nat)
    requires k < |regions|
    ensures InRegions(regions[..k + 1], a) <==> InRegions(regions[..k], a) || regions[k].start <= a < regions[k].end
  {
    assert regions[..k + 1] == regions[..k] + [regions[k]];
    assert regions[k] in regions[..k + 1];
    if InRegions(regions[..k], a) {
      var r :| r in regions[..k] && r.start <= a < r.end;
      assert r in regions[..k + 1];
    }
  }
}
