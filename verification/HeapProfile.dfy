/** The heap profiler's accounts: per call stack and in total, what was allocated less
    what was freed is what the table of allocations holds. */
module HeapProfiles {
  import opened FiniteSets

  datatype Bucket = Bucket(allocs: nat, allocSize: nat, frees: nat, freeSize: nat)
  datatype Value = Value(bytes: nat, stack: seq<nat>)

  type Allocations = map<nat, Value>

  ghost function Sizes(m: Allocations): map<nat, nat> {
    map t | t in m :: m[t].bytes
  }

  ghost function Bytes(m: Allocations, s: set<nat>): nat
    requires s <= m.Keys
  {
    Sum(Sizes(m), s)
  }

  /** The bucket accounts for the allocations in s. */
  ghost predicate Balanced(b: Bucket, m: Allocations, s: set<nat>)
    requires s <= m.Keys
  {
    b.allocs == b.frees + |s| && b.allocSize == b.freeSize + Bytes(m, s)
  }

  ghost function Group(m: Allocations, stack: seq<nat>): (g: set<nat>)
    ensures g <= m.Keys
  {
    set t | t in m && m[t].stack == stack
  }

  ghost predicate Accounted(m: Allocations, buckets: map<seq<nat>, Bucket>, total: Bucket) {
    && Balanced(total, m, m.Keys)
    && (forall t :: t in m ==> m[t].stack in buckets)
    && (forall st :: st in buckets ==> Balanced(buckets[st], m, Group(m, st)))
  }

  function Allocated(b: Bucket, bytes: nat): Bucket {
    b.(allocs := b.allocs + 1, allocSize := b.allocSize + bytes)
  }

  function Freed(b: Bucket, bytes: nat): Bucket {
    b.(frees := b.frees + 1, freeSize := b.freeSize + bytes)
  }

  lemma BalancedAlloc(b: Bucket, m: Allocations, s: set<nat>, t: nat, v: Value)
    requires s <= m.Keys && Balanced(b, m, s) && t !in m
    ensures Balanced(Allocated(b, v.bytes), m[t := v], s + {t})
  {
    SumWithout(Sizes(m[t := v]), s + {t}, t);
    assert s + {t} - {t} == s;
    SumSame(Sizes(m), Sizes(m[t := v]), s);
  }

  lemma BalancedFree(b: Bucket, m: Allocations, s: set<nat>, t: nat)
    requires s <= m.Keys && Balanced(b, m, s) && t in s
    ensures Balanced(Freed(b, m[t].bytes), m - {t}, s - {t})
  {
    SumWithout(Sizes(m), s, t);
    SumSame(Sizes(m), Sizes(m - {t}), s - {t});
  }

  lemma BalancedOther(b: Bucket, m: Allocations, m': Allocations, s: set<nat>)
    requires s <= m.Keys && s <= m'.Keys && Balanced(b, m, s) && forall u :: u in s ==> m[u] == m'[u]
    ensures Balanced(b, m', s)
  {
    SumSame(Sizes(m), Sizes(m'), s);
  }

  /** The bucket of a call stack, made when first needed. */
  function BucketAt(buckets: map<seq<nat>, Bucket>, stack: seq<nat>): Bucket {
    if stack in buckets then buckets[stack] else Bucket(0, 0, 0, 0)
  }

  lemma AllocAccounted(m: Allocations, buckets: map<seq<nat>, Bucket>, total: Bucket, t: nat, v: Value)
    requires Accounted(m, buckets, total) && t !in m
    ensures Accounted(m[t := v], buckets[v.stack := Allocated(BucketAt(buckets, v.stack), v.bytes)],
            Allocated(total, v.bytes))
  {
    hide Balanced, Group;
    var m', buckets' := m[t := v], buckets[v.stack := Allocated(BucketAt(buckets, v.stack), v.bytes)];
    BalancedAlloc(total, m, m.Keys, t, v);
    assert m'.Keys == m.Keys + {t};
    forall st | st in buckets'
      ensures Balanced(buckets'[st], m', Group(m', st))
    {
      if st !in buckets {
        NoneOfStack(m, buckets, st);
      }
      BucketAlloc(m, BucketAt(buckets, st), st, t, v);
    }
  }

  /** One bucket's balance after an allocation by its own or another stack. */
  lemma BucketAlloc(m: Allocations, b: Bucket, st: seq<nat>, t: nat, v: Value)
    requires t !in m && Balanced(b, m, Group(m, st))
    ensures Balanced(if st == v.stack then Allocated(b, v.bytes) else b, m[t := v], Group(m[t := v], st))
  {
    hide Balanced;
    AllocGroup(m, st, t, v);
    hide Group;
    if st == v.stack {
      BalancedAlloc(b, m, Group(m, st), t, v);
    } else {
      BalancedOther(b, m, m[t := v], Group(m, st));
    }
  }

  lemma BucketFree(m: Allocations, b: Bucket, st: seq<nat>, t: nat)
    requires t in m && Balanced(b, m, Group(m, st))
    ensures Balanced(if st == m[t].stack then Freed(b, m[t].bytes) else b, m - {t}, Group(m - {t}, st))
  {
    hide Balanced;
    FreeGroup(m, st, t);
    hide Group;
    if st == m[t].stack {
      BalancedFree(b, m, Group(m, st), t);
    } else {
      assert Group(m, st) - {t} == Group(m, st);
      BalancedOther(b, m, m - {t}, Group(m, st));
    }
  }

  lemma AllocGroup(m: Allocations, st: seq<nat>, t: nat, v: Value)
    requires t !in m
    ensures Group(m[t := v], st) == if st == v.stack then Group(m, st) + {t} else Group(m, st)
    ensures t !in Group(m, st)
  {
  }

  lemma FreeGroup(m: Allocations, st: seq<nat>, t: nat)
    requires t in m
    ensures Group(m - {t}, st) == Group(m, st) - {t} && (t in Group(m, st) <==> st == m[t].stack)
  {
  }

  /** A stack without a bucket has no allocations. */
  lemma NoneOfStack(m: Allocations, buckets: map<seq<nat>, Bucket>, st: seq<nat>)
    requires (forall t :: t in m ==> m[t].stack in buckets) && st !in buckets
    ensures Balanced(Bucket(0, 0, 0, 0), m, Group(m, st))
  {
    assert Group(m, st) == {};
  }

  lemma FreeAccounted(m: Allocations, buckets: map<seq<nat>, Bucket>, total: Bucket, t: nat)
    requires Accounted(m, buckets, total) && t in m
    ensures Accounted(m - {t}, buckets[m[t].stack := Freed(buckets[m[t].stack], m[t].bytes)], Freed(total, m[t].bytes))
  {
    hide Balanced, Group;
    var v := m[t];
    var m', buckets' := m - {t}, buckets[v.stack := Freed(buckets[v.stack], v.bytes)];
    BalancedFree(total, m, m.Keys, t);
    assert m'.Keys == m.Keys - {t};
    forall st | st in buckets'
      ensures Balanced(buckets'[st], m', Group(m', st))
    {
      BucketFree(m, buckets[st], st, t);
    }
  }

  lemma StackKnown(m: Allocations, buckets: map<seq<nat>, Bucket>, total: Bucket, t: nat)
    requires Accounted(m, buckets, total) && t in m
    ensures m[t].stack in buckets
  {
  }

  class HeapProfileTable {
    var allocations: Allocations
    var buckets: map<seq<nat>, Bucket>
    var total: Bucket

    ghost predicate Valid()
      reads this
    {
      Accounted(allocations, buckets, total)
    }

    constructor ()
      ensures Valid() && allocations == map[]
    {
      allocations, buckets, total := map[], map[], Bucket(0, 0, 0, 0);
    }

    /** The accounts stay right exactly when no allocation was recorded at the address:
        an old record there is replaced without being counted as freed. */
    method RecordAlloc(ptr: nat, bytes: nat, stack: seq<nat>)
      requires Valid()
      modifies this
      ensures allocations == old(allocations)[ptr := Value(bytes, stack)]
      ensures total == Allocated(old(total), bytes)
      ensures total.allocs == old(total).allocs + 1 && total.allocSize == old(total).allocSize + bytes
      ensures total.frees == old(total).frees && total.freeSize == old(total).freeSize
      ensures buckets == old(buckets)[stack := Allocated(BucketAt(old(buckets), stack), bytes)]
      ensures Valid() <==> ptr !in old(allocations)
    {
      if ptr !in allocations {
        AllocAccounted(allocations, buckets, total, ptr, Value(bytes, stack));
      } else {
        assert allocations[ptr := Value(bytes, stack)].Keys == allocations.Keys;
      }
      hide Accounted;
      var b := BucketAt(buckets, stack);
      buckets := buckets[stack := Allocated(b, bytes)];
      total := Allocated(total, bytes);
      allocations := allocations[ptr := Value(bytes, stack)];
    }

    /** A recorded allocation is taken out and counted as freed in its bucket. */
    method RecordFree(ptr: nat)
      requires Valid()
      modifies this
      ensures Valid() && allocations == old(allocations) - {ptr}
      ensures if ptr !in old(allocations) then total == old(total) && buckets == old(buckets) else
        var v := old(allocations)[ptr];
        && total.allocs == old(total).allocs && total.allocSize == old(total).allocSize
        && total.frees == old(total).frees + 1 && total.freeSize == old(total).freeSize + v.bytes
        && v.stack in old(buckets) && buckets == old(buckets)[v.stack := Freed(old(buckets)[v.stack], v.bytes)]
    {
      hide Accounted;
      if ptr in allocations {
        StackKnown(allocations, buckets, total, ptr);
        FreeAccounted(allocations, buckets, total, ptr);
        var v := allocations[ptr];
        allocations := allocations - {ptr};
        buckets := buckets[v.stack := Freed(buckets[v.stack], v.bytes)];
        total := Freed(total, v.bytes);
      } else {
        assert allocations - {ptr} == allocations;
      }
    }
  }
}
