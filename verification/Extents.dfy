/** Free space as a set of extents: which clusters it holds, and why the maximally
    coalesced form of a given free space is unique. */
module Extents {

  /** First cluster to length. */
  type Extents = map<nat, nat>

  ghost predicate IsFree(e: Extents, c: nat) {
    exists a :: a in e && a <= c < a + e[a]
  }

  /** Non-empty, pairwise disjoint, and with a used cluster between any two. */
  ghost predicate Coalesced(e: Extents) {
    && (forall a :: a in e ==> e[a] > 0)
    && (forall a, b :: a in e && b in e && a < b ==> a + e[a] < b)
  }

  /** The free clusters are those of `e` without / with the clusters l .. l + n - 1. */
  ghost predicate FreeMinus(e: Extents, e': Extents, l: nat, n: nat) {
    forall c: nat :: IsFree(e', c) <==> IsFree(e, c) && !(l <= c < l + n)
  }

  ghost predicate FreePlus(e: Extents, e': Extents, l: nat, n: nat) {
    forall c: nat :: IsFree(e', c) <==> IsFree(e, c) || l <= c < l + n
  }

  ghost predicate SameFree(e: Extents, e': Extents) {
    forall c: nat :: IsFree(e, c) <==> IsFree(e', c)
  }

  lemma FreeAt(e: Extents, a: nat, c: nat)
    ensures a in e && a <= c < a + e[a] ==> IsFree(e, c)
  {
  }

  /** The clusters just outside an extent are used. */
  lemma UsedAround(e: Extents, a: nat)
    requires Coalesced(e) && a in e
    ensures a > 0 ==> !IsFree(e, a - 1)
    ensures !IsFree(e, a + e[a])
  {
    forall b | b in e
      ensures a > 0 ==> !(b <= a - 1 < b + e[b])
      ensures !(b <= a + e[a] < b + e[b])
    {
      if b < a {
        assert b + e[b] < a;
      } else if a < b {
        assert a + e[a] < b;
      }
    }
  }

  lemma ExtentIn(e: Extents, f: Extents, a: nat)
    requires Coalesced(e) && Coalesced(f) && SameFree(e, f) && a in e
    ensures a in f && f[a] == e[a]
  {
    UsedAround(e, a);
    FreeAt(e, a, a);
    assert IsFree(f, a);
    var b :| b in f && b <= a < b + f[b];
    if a > 0 {
      FreeAt(f, b, a - 1);
    }
    assert b == a;
    UsedAround(f, a);
    FreeAt(f, a, a + e[a]);
    FreeAt(e, a, a + f[a]);
  }

  /** Canonical form: equal free space, maximally coalesced, means equal extents. */
  lemma CanonicalForm(e: Extents, f: Extents)
    requires Coalesced(e) && Coalesced(f) && SameFree(e, f)
    ensures e == f
  {
    forall a
      ensures (a in e <==> a in f) && (a in e ==> e[a] == f[a])
    {
      if a in e {
        ExtentIn(e, f, a);
      }
      if a in f {
        ExtentIn(f, e, a);
      }
    }
  }

  // -------------------------------------------------- taking from the front

  /** `e` after `n` clusters were taken from the front of the extent at `l`. */
  function Taken(e: Extents, l: nat, n: nat): Extents
    requires l in e && n <= e[l]
  {
    if n < e[l] then (e - {l})[l + n := e[l] - n] else e - {l}
  }

  lemma TakenOk(e: Extents, l: nat, n: nat)
    requires Coalesced(e) && l in e && n <= e[l]
    ensures Coalesced(Taken(e, l, n)) && FreeMinus(e, Taken(e, l, n), l, n)
  {
    forall c: nat
      ensures IsFree(Taken(e, l, n), c) <==> IsFree(e, c) && !(l <= c < l + n)
    {
      TakenAt(e, l, n, c);
    }
  }

  lemma TakenAt(e: Extents, l: nat, n: nat, c: nat)
    requires Coalesced(e) && l in e && n <= e[l]
    ensures IsFree(Taken(e, l, n), c) <==> IsFree(e, c) && !(l <= c < l + n)
  {
    var e' := Taken(e, l, n);
    if IsFree(e', c) {
      TakenFrees(e, l, n, c);
    }
    if IsFree(e, c) && !(l <= c < l + n) {
      var a :| a in e && a <= c < a + e[a];
      FreeAt(e', if a == l then l + n else a, c);
    }
  }

  /** What is free after taking was free before, and not taken. */
  lemma TakenFrees(e: Extents, l: nat, n: nat, c: nat)
    requires Coalesced(e) && l in e && n <= e[l] && IsFree(Taken(e, l, n), c)
    ensures IsFree(e, c) && !(l <= c < l + n)
  {
    hide IsFree;
    var e' := Taken(e, l, n);
    var a := Covering(e', c);
    if n < e[l] && a == l + n {
      FreeAt(e, l, c);
    } else {
      FreeAt(e, a, c);
      Separate(e, a, l);
    }
  }

  lemma Covering(e: Extents, c: nat) returns (a: nat)
    requires IsFree(e, c)
    ensures a in e && a <= c < a + e[a]
  {
    a :| a in e && a <= c < a + e[a];
  }

  lemma Separate(e: Extents, a: nat, b: nat)
    requires Coalesced(e) && a in e && b in e
    ensures a < b ==> a + e[a] < b
    ensures b < a ==> b + e[b] < a
  {
  }

  // ------------------------------------------------------ giving a block back

  /** `p` is the last extent that starts before `l`. */
  ghost predicate IsBefore(e: Extents, l: nat, p: nat) {
    p in e && p < l && forall a :: a in e && a < l ==> a <= p
  }

  ghost predicate BlockUsed(e: Extents, l: nat, n: nat) {
    forall c: nat :: l <= c < l + n ==> !IsFree(e, c)
  }

  /** A used block touches no extent from inside. */
  lemma BlockGap(e: Extents, l: nat, n: nat, a: nat)
    requires Coalesced(e) && BlockUsed(e, l, n) && n > 0 && a in e
    ensures a + e[a] <= l || l + n <= a
  {
    FreeAt(e, a, l);
    FreeAt(e, a, a);
  }

  ghost predicate CoveredBy(e: Extents, gone: set<nat>, c: nat)
    requires gone <= e.Keys
  {
    exists a :: a in gone && a <= c < a + e[a]
  }

  /** Replacing the extents of `gone` and the block by the one extent they make up. */
  lemma MergedOk(e: Extents, l: nat, n: nat, gone: set<nat>, lo: nat, len: nat)
    requires Coalesced(e) && n > 0 && gone <= e.Keys
    requires lo <= l && l + n <= lo + len
    requires forall a :: a in gone ==> lo <= a && a + e[a] <= lo + len
    requires forall a :: a in e && a !in gone ==> a + e[a] < lo || lo + len < a
    requires forall c: nat :: lo <= c < lo + len ==> l <= c < l + n || CoveredBy(e, gone, c)
    ensures Coalesced((e - gone)[lo := len]) && FreePlus(e, (e - gone)[lo := len], l, n)
  {
    forall c: nat
      ensures IsFree((e - gone)[lo := len], c) <==> IsFree(e, c) || l <= c < l + n
    {
      MergedAt(e, l, n, gone, lo, len, c);
    }
  }

  lemma MergedAt(e: Extents, l: nat, n: nat, gone: set<nat>, lo: nat, len: nat, c: nat)
    requires gone <= e.Keys && lo <= l && l + n <= lo + len
    requires forall a :: a in gone ==> lo <= a && a + e[a] <= lo + len
    requires forall a :: a in e && a !in gone ==> a + e[a] < lo || lo + len < a
    requires lo <= c < lo + len ==> l <= c < l + n || CoveredBy(e, gone, c)
    ensures IsFree((e - gone)[lo := len], c) <==> IsFree(e, c) || l <= c < l + n
  {
    var e' := (e - gone)[lo := len];
    FreeAt(e', lo, c);
    if IsFree(e', c) && !(l <= c < l + n) {
      var a :| a in e' && a <= c < a + e'[a];
      if a == lo {
        var b :| b in gone && b <= c < b + e[b];
        FreeAt(e, b, c);
      } else {
        FreeAt(e, a, c);
      }
    }
    if IsFree(e, c) {
      var a :| a in e && a <= c < a + e[a];
      FreeAt(e', a, c);
    }
  }

  /** `e` after the used block l .. l + n - 1 was freed and merged with the extents
      that touch it: `p` is the extent before, if it ends at `l`. */
  function Given(e: Extents, l: nat, n: nat, p: nat): Extents
    requires l + n in e && p in e && p + e[p] == l ==> p != l + n
  {
    var before := p in e && p + e[p] == l;
    var after := l + n in e;
    if before && after then (e - {p, l + n})[p := e[p] + n + e[l + n]]
    else if before then e[p := e[p] + n]
    else if after then (e - {l + n})[l := n + e[l + n]]
    else e[l := n]
  }

  predicate EndsAt(e: Extents, p: nat, l: nat) {
    p in e && p + e[p] == l
  }

  /** The extents that the block merges with. */
  function Touched(e: Extents, l: nat, n: nat, p: nat): set<nat> {
    (if EndsAt(e, p, l) then {p} else {}) + (if l + n in e then {l + n} else {})
  }

  function MergedStart(e: Extents, l: nat, p: nat): nat {
    if EndsAt(e, p, l) then p else l
  }

  function MergedEnd(e: Extents, l: nat, n: nat): nat {
    if l + n in e then l + n + e[l + n] else l + n
  }

  lemma UntouchedApart(e: Extents, l: nat, n: nat, p: nat, a: nat)
    requires Coalesced(e) && BlockUsed(e, l, n) && n > 0 && a in e && a !in Touched(e, l, n, p)
    requires IsBefore(e, l, p) || forall a :: a in e ==> a >= l
    ensures a + e[a] < MergedStart(e, l, p) || MergedEnd(e, l, n) < a
  {
    hide BlockUsed;
    BlockGap(e, l, n, a);
    if a < l {
      assert a < p ==> a + e[a] < p;
    } else {
      assert l + n in e && l + n < a ==> l + n + e[l + n] < a;
    }
  }

  lemma TouchedCovers(e: Extents, l: nat, n: nat, p: nat, c: nat)
    requires MergedStart(e, l, p) <= c < MergedEnd(e, l, n) && !(l <= c < l + n)
    ensures Touched(e, l, n, p) <= e.Keys && CoveredBy(e, Touched(e, l, n, p), c)
  {
    var a := if c < l then p else l + n;
    assert a in Touched(e, l, n, p) && a <= c < a + e[a];
  }

  lemma TouchedInside(e: Extents, l: nat, n: nat, p: nat, a: nat)
    requires a in Touched(e, l, n, p)
    ensures a in e && MergedStart(e, l, p) <= a && a + e[a] <= MergedEnd(e, l, n)
  {
  }

  lemma GivenOk(e: Extents, l: nat, n: nat, p: nat)
    requires Coalesced(e) && BlockUsed(e, l, n) && n > 0
    requires IsBefore(e, l, p) || forall a :: a in e ==> a >= l
    ensures Coalesced(Given(e, l, n, p)) && FreePlus(e, Given(e, l, n, p), l, n)
  {
    hide Coalesced, BlockUsed, IsBefore, Given, Touched, MergedStart, MergedEnd, FreePlus, CoveredBy;
    GivenIs(e, l, n, p);
    var gone, lo, end := Touched(e, l, n, p), MergedStart(e, l, p), MergedEnd(e, l, n);
    forall a | a in e && a !in gone
      ensures a + e[a] < lo || end < a
    {
      UntouchedApart(e, l, n, p, a);
    }
    forall a | a in gone
      ensures lo <= a && a + e[a] <= end
    {
      TouchedInside(e, l, n, p, a);
    }
    forall c: nat | lo <= c < end && !(l <= c < l + n)
      ensures CoveredBy(e, gone, c)
    {
      TouchedCovers(e, l, n, p, c);
    }
    MergedOk(e, l, n, gone, lo, end - lo);
  }

  lemma GivenIs(e: Extents, l: nat, n: nat, p: nat)
    requires n > 0
    ensures Touched(e, l, n, p) <= e.Keys && MergedStart(e, l, p) <= l && MergedEnd(e, l, n) >= l + n
    ensures Given(e, l, n, p) ==
      (e - Touched(e, l, n, p))[MergedStart(e, l, p) := MergedEnd(e, l, n) - MergedStart(e, l, p)]
  {
  }

  /** Taking a prefix of an extent and giving the same clusters back, in whatever way,
      restores the extents, as long as the result is coalesced. */
  lemma TakeGiveBack(e: Extents, l: nat, n: nat, e': Extents)
    requires Coalesced(e) && l in e && n <= e[l] && Coalesced(e') && FreePlus(Taken(e, l, n), e', l, n)
    ensures e' == e
  {
    TakenOk(e, l, n);
    forall c: nat
      ensures IsFree(e, c) <==> IsFree(e', c)
    {
      FreeAt(e, l, c);
    }
    CanonicalForm(e, e');
  }

  lemma TakenUsed(e: Extents, l: nat, n: nat)
    requires Coalesced(e) && l in e && n <= e[l]
    ensures BlockUsed(Taken(e, l, n), l, n)
  {
    TakenOk(e, l, n);
  }
}