/** The direct-mapped cache that packs a key and a value into one machine word. */
module PackedCaches {
  import opened Arithmetic
  import opened RadixIndex

  /** Bits lo .. lo + n - 1 of x, left in place: x & (N_ONES(n) << lo). */
  function Masked(x: nat, lo: nat, n: nat): nat {
    Lo(Hi(x, Pow2(lo)), Pow2(n)) * Pow2(lo)
  }

  lemma LoSmall(x: nat, n: nat)
    requires x < n
    ensures Lo(x, n) == x && Hi(x, n) == 0
  {
    QuotientRemainder(x, 0, n, x);
  }

  /** Shifting a number of a bits by b bits. */
  lemma Scaled(k: nat, a: nat, b: nat)
    requires k < Pow2(a)
    ensures k * Pow2(b) < Pow2(a + b)
  {
    hide Pow2;
    Pow2Add(a, b);
    MulMonotone(k + 1, Pow2(a), Pow2(b));
    assert (k + 1) * Pow2(b) == k * Pow2(b) + Pow2(b);
  }

  /** A number of upper and lower part split at bit b. */
  lemma Packed(u: nat, v: nat, b: nat)
    requires v < Pow2(b)
    ensures Hi(u * Pow2(b) + v, Pow2(b)) == u && Lo(u * Pow2(b) + v, Pow2(b)) == v
  {
    QuotientRemainder(u * Pow2(b) + v, u, Pow2(b), v);
  }

  /** The widths of keys, values, hashes and table entries, as the compile-time checks
      demand them. */
  datatype Layout = Layout(keyBits: nat, valueBits: nat, hashBits: nat, entryBits: nat) {
    ghost predicate Ok() {
      && hashBits <= keyBits && keyBits - hashBits + valueBits <= entryBits
      && (!WholeKeys() ==> valueBits <= hashBits)
    }

    predicate WholeKeys() {
      keyBits + valueBits <= entryBits
    }

    function Hash(k: nat): nat {
      Lo(k, Pow2(hashBits))
    }

    /** The part of the key that an entry holds, shifted to its place. */
    function KeyToUpper(k: nat): nat
      requires Ok()
    {
      if WholeKeys() then Lo(Lo(k, Pow2(entryBits)) * Pow2(valueBits), Pow2(entryBits))
      else Masked(Lo(Hi(k, Pow2(hashBits - valueBits)), Pow2(entryBits)), valueBits, keyBits - hashBits)
    }

    predicate KeyMatch(entry: nat, k: nat)
      requires Ok()
    {
      if WholeKeys() then Hi(entry, Pow2(valueBits)) == k
      else Masked(entry, valueBits, keyBits - hashBits) == KeyToUpper(k)
    }

    function EntryToValue(entry: nat): nat {
      Lo(entry, Pow2(valueBits))
    }

    /** The part of the key that is stored. */
    ghost function Tag(k: nat): nat {
      if WholeKeys() then k else Hi(k, Pow2(hashBits))
    }

    ghost function Entry(k: nat, v: nat): nat {
      Tag(k) * Pow2(valueBits) + v
    }

    lemma TagBound(k: nat)
      requires Ok() && k < Pow2(keyBits)
      ensures WholeKeys() ==> Tag(k) * Pow2(valueBits) < Pow2(entryBits)
      ensures !WholeKeys() ==> Tag(k) < Pow2(keyBits - hashBits)
    {
      hide Hi, Pow2;
      if WholeKeys() {
        Scaled(k, keyBits, valueBits);
        Pow2AtMost(keyBits + valueBits, entryBits);
      } else {
        Pow2Add(keyBits - hashBits, hashBits);
        HiBound(k, Pow2(keyBits - hashBits), Pow2(hashBits));
      }
    }

    /** The upper part is the stored part above the value's bits. */
    lemma UpperIsTag(k: nat)
      requires Ok() && k < Pow2(keyBits)
      ensures KeyToUpper(k) == Tag(k) * Pow2(valueBits)
    {
      hide Hi, Lo, Pow2;
      TagBound(k);
      if WholeKeys() {
        Pow2AtMost(keyBits, entryBits);
        LoSmall(k, Pow2(entryBits));
        LoSmall(k * Pow2(valueBits), Pow2(entryBits));
      } else {
        PartBound(k);
        LoSmall(Hi(k, Pow2(hashBits - valueBits)), Pow2(entryBits));
        HiHi(k, Pow2(valueBits), Pow2(hashBits - valueBits));
        Pow2Add(hashBits - valueBits, valueBits);
        LoSmall(Tag(k), Pow2(keyBits - hashBits));
      }
    }

    lemma PartBound(k: nat)
      requires Ok() && !WholeKeys() && k < Pow2(keyBits)
      ensures Hi(k, Pow2(hashBits - valueBits)) < Pow2(entryBits)
    {
      hide Hi, Lo, Pow2;
      var upper := keyBits - hashBits + valueBits;
      Pow2Add(upper, hashBits - valueBits);
      HiBound(k, Pow2(upper), Pow2(hashBits - valueBits));
      Pow2AtMost(upper, entryBits);
    }

    /** An entry matches exactly the keys that share its stored part, and yields its
        value. */
    lemma MatchIffTag(k: nat, v: nat, j: nat)
      requires Ok() && k < Pow2(keyBits) && j < Pow2(keyBits) && v < Pow2(valueBits)
      ensures KeyMatch(Entry(k, v), j) <==> Tag(k) == Tag(j)
      ensures EntryToValue(Entry(k, v)) == v
    {
      hide Hi, Lo, Pow2;
      Packed(Tag(k), v, valueBits);
      TagBound(k);
      UpperIsTag(j);
      if !WholeKeys() {
        LoSmall(Tag(k), Pow2(keyBits - hashBits));
        SameUpper(Tag(k), Tag(j), valueBits);
      }
    }

    lemma SameUpper(a: nat, b: nat, n: nat)
      ensures a * Pow2(n) == b * Pow2(n) <==> a == b
    {
      MulMonotone(a + 1, b, Pow2(n));
      MulMonotone(b + 1, a, Pow2(n));
    }

    /** Hash and stored part determine the key. */
    lemma OneKey(j: nat, k: nat)
      requires Hash(j) == Hash(k) && Tag(j) == Tag(k)
      ensures j == k
    {
      if !WholeKeys() {
        OnePlace(j, k, Pow2(hashBits));
      }
    }
  }

  lemma Pow2AtMost(a: nat, b: nat)
    requires a <= b
    ensures Pow2(a) <= Pow2(b)
  {
    if a < b {
      Pow2Less(a, b);
    }
  }

  /** What is left of m when key k is put: the entries of other slots. */
  ghost function OtherSlots(layout: Layout, m: map<nat, nat>, k: nat): map<nat, nat> {
    map j | j in m && layout.Hash(j) != layout.Hash(k) :: m[j]
  }

  ghost function Pairs(layout: Layout, keys: seq<nat>, values: seq<nat>): map<nat, nat> {
    map k | k in keys && layout.Hash(k) < |values| :: values[layout.Hash(k)]
  }

  ghost predicate Slotted(layout: Layout, keys: seq<nat>) {
    |keys| == Pow2(layout.hashBits) && forall i :: 0 <= i < |keys| ==> layout.Hash(keys[i]) == i
  }

  lemma PairAt(layout: Layout, keys: seq<nat>, values: seq<nat>, k: nat)
    requires Slotted(layout, keys) && |keys| == |values|
    ensures layout.Hash(k) < |keys|
    ensures k in Pairs(layout, keys, values) <==> keys[layout.Hash(k)] == k
    ensures k in Pairs(layout, keys, values) ==> Pairs(layout, keys, values)[k] == values[layout.Hash(k)]
  {
    Parts(k, Pow2(layout.hashBits));
    hide Lo;
    if k in keys {
      var i :| 0 <= i < |keys| && keys[i] == k;
    }
  }

  /** Writing one slot replaces the pair of that slot. */
  lemma PutPairs(layout: Layout, keys: seq<nat>, values: seq<nat>, k: nat, v: nat)
    requires Slotted(layout, keys) && |keys| == |values|
    ensures var i := layout.Hash(k);
      && i < |keys| && Slotted(layout, keys[i := k])
      && Pairs(layout, keys[i := k], values[i := v]) == OtherSlots(layout, Pairs(layout, keys, values), k)[k := v]
  {
    PairAt(layout, keys, values, k);
    hide Pow2, Lo, Pairs;
    var i := layout.Hash(k);
    var was, now := Pairs(layout, keys, values), Pairs(layout, keys[i := k], values[i := v]);
    forall j: nat
      ensures j in now <==> j == k || (j in was && layout.Hash(j) != i)
      ensures j in now ==> now[j] == if j == k then v else was[j]
    {
      PairAt(layout, keys, values, j);
      PairAt(layout, keys[i := k], values[i := v], j);
    }
    assert now == OtherSlots(layout, was, k)[k := v];
  }

  /** The keys below n are held, all with value v. */
  ghost predicate Uniform(m: map<nat, nat>, n: nat, v: nat) {
    forall k: nat :: (k in m <==> k < n) && (k in m ==> m[k] == v)
  }

  class PackedCache {
    const layout: Layout
    const table: array<nat>
    ghost var keys: seq<nat>         // the key in each slot
    ghost var values: seq<nat>       // its value
    ghost var last: map<nat, nat>    // the value last put for each key

    /** Slot i holds a key that hashes to i, packed with a value. */
    ghost predicate SlotOk(i: nat)
      requires i < |keys| == |values| == table.Length && layout.Ok()
      reads this, table
    {
      && keys[i] < Pow2(layout.keyBits) && layout.Hash(keys[i]) == i && values[i] < Pow2(layout.valueBits)
      && table[i] == layout.Entry(keys[i], values[i])
      && keys[i] in last && last[keys[i]] == values[i]
    }

    ghost predicate Valid()
      reads this, table
    {
      && layout.Ok() && |keys| == |values| == table.Length == Pow2(layout.hashBits)
      && forall i :: 0 <= i < |keys| ==> SlotOk(i)
    }

    /** The pairs the cache holds. */
    ghost function View(): map<nat, nat>
      reads this
    {
      Pairs(layout, keys, values)
    }

    /** A pair is held exactly when its key is in its slot. */
    lemma InView(k: nat)
      requires Valid()
      ensures layout.Hash(k) < |keys|
      ensures k in View() <==> keys[layout.Hash(k)] == k
      ensures k in View() ==> View()[k] == values[layout.Hash(k)]
    {
      forall i | 0 <= i < |keys|
        ensures layout.Hash(keys[i]) == i
      {
        assert SlotOk(i);
      }
      PairAt(layout, keys, values, k);
    }

    constructor (layout: Layout, initial: nat)
      requires layout.Ok() && initial < Pow2(layout.valueBits)
      ensures Valid() && fresh(table) && this.layout == layout
      ensures Uniform(View(), Pow2(layout.hashBits), initial)
    {
      this.layout := layout;
      table := new nat[Pow2(layout.hashBits)];
      keys := [];
      values := [];
      last := map[];
      new;
      Clear(initial);
    }

    /** The slot of key k, read once, and what it means for k. */
    lemma SlotMeans(k: nat)
      requires Valid() && k < Pow2(layout.keyBits)
      ensures layout.Hash(k) < table.Length
      ensures layout.KeyMatch(table[layout.Hash(k)], k) <==> k in View()
      ensures k in View() ==> View()[k] == layout.EntryToValue(table[layout.Hash(k)])
    {
      hide Hi, Lo, Pow2;
      InView(k);
      var i := layout.Hash(k);
      assert SlotOk(i);
      layout.MatchIffTag(keys[i], values[i], k);
      if layout.Tag(keys[i]) == layout.Tag(k) {
        layout.OneKey(keys[i], k);
      }
    }

    method Has(k: nat) returns (r: bool)
      requires Valid() && k < Pow2(layout.keyBits)
      ensures r <==> k in View()
    {
      SlotMeans(k);
      r := layout.KeyMatch(table[layout.Hash(k)], k);
    }

    /** A hit yields the value that was last put for the key. */
    method GetOrDefault(k: nat, default: nat) returns (v: nat)
      requires Valid() && k < Pow2(layout.keyBits)
      ensures v == if k in View() then View()[k] else default
      ensures k in View() ==> k in last && v == last[k]
    {
      SlotMeans(k);
      InView(k);
      assert SlotOk(layout.Hash(k));
      var entry := table[layout.Hash(k)];
      v := if layout.KeyMatch(entry, k) then layout.EntryToValue(entry) else default;
    }

    /** The pair is held afterwards, and of the other pairs those in other slots. */
    method Put(k: nat, v: nat)
      requires Valid() && k < Pow2(layout.keyBits) && v < Pow2(layout.valueBits)
      modifies this`keys, this`values, this`last, table
      ensures Valid() && last == old(last)[k := v]
      ensures View() == OtherSlots(layout, old(View()), k)[k := v]
      ensures forall j: nat :: j in View() <==> j == k || (j in old(View()) && layout.Hash(j) != layout.Hash(k))
      ensures forall j: nat :: j in View() ==> View()[j] == if j == k then v else old(View())[j]
    {
      hide Hi, Lo, Pow2, Layout.KeyToUpper, Layout.Entry;
      layout.UpperIsTag(k);
      InView(k);
      var i := layout.Hash(k);
      EntrySum(k, v);
      forall j | 0 <= j < |keys|
        ensures layout.Hash(keys[j]) == j
      {
        assert SlotOk(j);
      }
      PutPairs(layout, keys, values, k, v);
      table[i] := layout.KeyToUpper(k) + v;
      keys := keys[i := k];
      values := values[i := v];
      last := last[k := v];
      forall j | 0 <= j < |keys|
        ensures SlotOk(j)
      {
        assert old(SlotOk(j));
      }
    }

    /** Every slot gets the key that equals its number, with the given value. */
    method Clear(value: nat)
      requires layout.Ok() && value < Pow2(layout.valueBits) && table.Length == Pow2(layout.hashBits)
      modifies this`keys, this`values, this`last, table
      ensures Valid() && Uniform(View(), Pow2(layout.hashBits), value)
    {
      hide Hi, Lo, Pow2, Layout.KeyToUpper, Layout.Entry;
      var n := Pow2(layout.hashBits);
      keys := [];
      values := [];
      for i := 0 to n
        invariant |keys| == |values| == i && layout.Ok()
        invariant forall j :: 0 <= j < i ==>
          keys[j] == j && values[j] == value && layout.Hash(j) == j && j < Pow2(layout.keyBits)
        invariant forall j :: 0 <= j < i ==> j in last && last[j] == value
        invariant forall j :: 0 <= j < i ==> table[j] == layout.Entry(j, value)
      {
        Pow2AtMost(layout.hashBits, layout.keyBits);
        LoSmall(i, n);
        EntrySum(i, value);
        LowKey(i);
        table[i] := if layout.WholeKeys() then value + layout.KeyToUpper(i) else value;
        keys := keys + [i];
        values := values + [value];
        last := last[i := value];
      }
      forall k: nat
        ensures k in View() <==> k < n
        ensures k in View() ==> View()[k] == value
      {
        PairAt(layout, keys, values, k);
      }
    }

    /** The keys below the table's length have an empty upper part. */
    lemma LowKey(k: nat)
      requires layout.Ok() && k < Pow2(layout.hashBits)
      ensures !layout.WholeKeys() ==> layout.KeyToUpper(k) == 0
    {
      Pow2AtMost(layout.hashBits, layout.keyBits);
      layout.UpperIsTag(k);
      LoSmall(k, Pow2(layout.hashBits));
    }

    lemma EntrySum(k: nat, v: nat)
      requires layout.Ok() && k < Pow2(layout.keyBits)
      ensures layout.KeyToUpper(k) + v == layout.Entry(k, v)
    {
      layout.UpperIsTag(k);
    }
  }
}
