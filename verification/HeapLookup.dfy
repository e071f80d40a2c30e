/** How the leak checker looks up what a word points into: the address map's search for
    the range around an address is the lookup that the mark phase relies on. */
module HeapLookup {
  import opened AddressMaps
  import opened HeapChecker
  import opened Options

  function SizeOf(v: Alloc): nat {
    v.bytes
  }

  /** The allocation that address w points to or into. */
  ghost function Target(allocs: Allocs, w: nat): Option<nat> {
    if exists a: nat :: a in allocs && Contains(a, allocs[a], SizeOf, w) then
      var a: nat :| a in allocs && Contains(a, allocs[a], SizeOf, w);
      Some(a)
    else None
  }

  lemma TargetIs(allocs: Allocs, w: nat, a: nat)
    requires Apart(allocs, SizeOf) && a in allocs && Contains(a, allocs[a], SizeOf, w)
    ensures Target(allocs, w) == Some(a)
  {
    var b :| b in allocs && Contains(b, allocs[b], SizeOf, w) && Target(allocs, w) == Some(b);
    OneRange(allocs, SizeOf, w, a, b);
  }

  /** HaveOnHeapLocked.  The limit may be lowered, and then large allocations may be missed. */
  method HaveOnHeap(m: AddressMap<Alloc>, max: nat, w: nat) returns (t: Option<nat>)
    requires m.Valid() && Apart(m.contents, SizeOf)
    ensures t.Some? ==> t == Target(m.contents, w)
    ensures t.None? ==> NoneWithin(m.contents, SizeOf, max, w)
    ensures Bounded(m.contents, SizeOf, max) ==> t == Target(m.contents, w)
  {
    hide Apart, Bounded, NoneWithin;
    var r := m.FindInside(SizeOf, max, w);
    if r.Some? {
      TargetIs(m.contents, w, r.value.key);
      return Some(r.value.key);
    }
    return None;
  }

  /** Marking does not change what an address points into. */
  lemma TargetMarked(allocs: Allocs, allocs': Allocs, w: nat)
    requires Apart(allocs, SizeOf) && OnlyMarked(allocs, allocs')
    ensures Apart(allocs', SizeOf) && Target(allocs', w) == Target(allocs, w)
  {
    if a: nat :| a in allocs && Contains(a, allocs[a], SizeOf, w) {
      TargetIs(allocs, w, a);
      TargetIs(allocs', w, a);
    }
  }

  /** A mark phase that uses this lookup finds recorded allocations only, throughout. */
  lemma LookupResolves(env: Env, allocs: Allocs, allocs': Allocs)
    requires env.alignment > 0 && Apart(allocs, SizeOf) && forall w :: env.resolve(w) == Target(allocs, w)
    requires OnlyMarked(allocs, allocs')
    ensures Resolves(env, allocs') && forall w :: env.resolve(w) == Target(allocs', w)
  {
    forall w
      ensures env.resolve(w) == Target(allocs', w)
    {
      TargetMarked(allocs, allocs', w);
    }
  }
}
