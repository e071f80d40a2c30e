/** Splitting a page number into the indices of a radix tree. */
module RadixIndex {
  import opened Arithmetic

  function Pow2(n: nat): (p: nat)
    ensures p > 0
  {
    if n == 0 then 1 else 2 * Pow2(n - 1)
  }

  lemma {:induction false} Pow2Add(a: nat, b: nat)
    ensures Pow2(a + b) == Pow2(a) * Pow2(b)
  {
    if a > 0 {
      Pow2Add(a - 1, b);
      MulAssociative(2, Pow2(a - 1), Pow2(b));
    }
  }

  lemma {:induction false} Pow2Less(a: nat, b: nat)
    requires a < b
    ensures Pow2(a) < Pow2(b)
  {
    if b > a + 1 {
      Pow2Less(a, b - 1);
    }
  }

  /** The index of k's block of n numbers, and k's place in it. */
  function Hi(k: nat, n: nat): nat
    requires n > 0
  {
    k / n
  }

  function Lo(k: nat, n: nat): nat
    requires n > 0
  {
    k % n
  }

  lemma Parts(k: nat, n: nat)
    requires n > 0
    ensures k == Hi(k, n) * n + Lo(k, n) && Lo(k, n) < n
    ensures Hi(k, n) * n <= k < (Hi(k, n) + 1) * n
  {
    DivMod(k, n);
  }

  lemma InBlock(k: nat, q: nat, n: nat)
    requires n > 0 && q * n <= k < (q + 1) * n
    ensures Hi(k, n) == q && Lo(k, n) == k - q * n
  {
    QuotientRemainder(k, q, n, k - q * n);
  }

  /** Block and place determine the number. */
  lemma OnePlace(j: nat, k: nat, n: nat)
    requires n > 0 && Hi(j, n) == Hi(k, n) && Lo(j, n) == Lo(k, n)
    ensures j == k
  {
    Parts(j, n);
    Parts(k, n);
  }

  /** There are m blocks of n numbers below m * n. */
  lemma HiBound(k: nat, m: nat, n: nat)
    requires n > 0
    ensures k < m * n <==> Hi(k, n) < m
  {
    Parts(k, n);
    MulMonotone(Hi(k, n) + 1, m, n);
    MulMonotone(m, Hi(k, n), n);
  }

  /** Two indices taken at once are the index for the product. */
  lemma HiHi(k: nat, m: nat, n: nat)
    requires m > 0 && n > 0
    ensures n * m > 0 && Hi(Hi(k, n), m) == Hi(k, n * m)
  {
    var q := Hi(k, n);
    var p := Hi(q, m);
    Parts(k, n);
    Parts(q, m);
    MulMonotone(q + 1, (p + 1) * m, n);
    MulMonotone(p * m, q, n);
    assert (p * m) * n == p * (n * m) && ((p + 1) * m) * n == (p + 1) * (n * m);
    MulMonotone(1, n, m);
    InBlock(k, p, n * m);
  }

  // ----------------------------------------------------------- ensuring a range

  /** start + n - 1 in unsigned arithmetic of the given width. */
  function Last(start: nat, n: nat, word: nat): nat {
    (start + n + Pow2(word) - 1) % Pow2(word)
  }

  /** The last key is the one the caller means exactly when the sum does not wrap and
      the range is not empty; for a range that wraps nothing at all is ensured. */
  lemma LastKey(start: nat, n: nat, word: nat)
    requires start < Pow2(word) && n < Pow2(word)
    ensures Last(start, n, word) == start + n - 1 <==> 0 < start + n <= Pow2(word)
    ensures n > 0 && start + n > Pow2(word) ==> Last(start, n, word) < start
    ensures start == n == 0 ==> Last(start, n, word) == Pow2(word) - 1
  {
    var m := Pow2(word);
    if start + n == 0 {
      QuotientRemainder(m - 1, 0, m, m - 1);
    } else if start + n <= m {
      QuotientRemainder(start + n + m - 1, 1, m, start + n - 1);
    } else {
      QuotientRemainder(start + n + m - 1, 2, m, start + n - 1 - m);
    }
  }
}

/** Page maps: a flat array, and radix trees of two levels that behave like it. */
module PageMap {
  import opened Arithmetic
  import opened RadixIndex

  /** A stored pointer; zero is the null pointer. */
  type Value = nat
  const NULL: Value := 0

  const ROOT_BITS := 5
  const ROOT_LENGTH := 32

  class PageMap2 {
    const bits: nat
    const word: nat
    const leafLength: nat
    const root: array<array?<Value>>
    const answers: nat -> bool          // whether the allocator grants the i-th request
    var asked: nat                      // requests made so far
    ghost var leaves: set<array<Value>>

    ghost predicate Valid()
      reads this`leaves, root, leaves
    {
      && leafLength > 0 && ROOT_LENGTH * leafLength == Pow2(bits) && bits < word
      && root.Length == ROOT_LENGTH
      && (forall i :: 0 <= i < ROOT_LENGTH && root[i] != null ==> root[i] in leaves && root[i].Length == leafLength)
      && (forall i, j :: 0 <= i < j < ROOT_LENGTH && root[i] != null ==> root[i] != root[j])
    }

    constructor (bits: nat, word: nat, answers: nat -> bool)
      requires ROOT_BITS <= bits < word
      ensures Valid() && this.bits == bits && this.word == word && this.answers == answers && fresh(root)
      ensures forall k :: Get(k) == NULL && !Ensured(k)
    {
      this.bits, this.word := bits, word;
      this.answers, asked := answers, 0;
      leafLength := Pow2(bits - ROOT_BITS);
      root := new array?<Value>[ROOT_LENGTH](_ => null);
      leaves := {};
      new;
      Pow2Add(ROOT_BITS, bits - ROOT_BITS);
      assert Pow2(5) == 32;
      hide Hi, Lo, Pow2;
      forall k: nat
        ensures Get(k) == NULL && !Ensured(k)
      {
        HiBound(k, ROOT_LENGTH, leafLength);
      }
    }

    function Get(k: nat): Value
      requires Valid()
      reads this`leaves, root, leaves
    {
      HiBound(k, ROOT_LENGTH, leafLength);
      if k >= Pow2(bits) || root[Hi(k, leafLength)] == null then NULL
      else
        Parts(k, leafLength);
        root[Hi(k, leafLength)][Lo(k, leafLength)]
    }

    /** There is a leaf for key k. */
    ghost predicate Ensured(k: nat)
      requires Valid()
      reads this`leaves, root, leaves
    {
      HiBound(k, ROOT_LENGTH, leafLength);
      k < Pow2(bits) && root[Hi(k, leafLength)] != null
    }

    method Set(k: nat, v: Value)
      requires Valid() && Ensured(k)
      modifies leaves
      ensures Valid()
      ensures forall j :: Get(j) == if j == k then v else old(Get(j))
      ensures forall j :: Ensured(j) == old(Ensured(j))
    {
      HiBound(k, ROOT_LENGTH, leafLength);
      Parts(k, leafLength);
      var i1, i2 := Hi(k, leafLength), Lo(k, leafLength);
      root[i1][i2] := v;
      hide Hi, Lo;
      forall j: nat
        ensures Get(j) == if j == k then v else old(Get(j))
      {
        HiBound(j, ROOT_LENGTH, leafLength);
        Parts(j, leafLength);
        if j < Pow2(bits) && Hi(j, leafLength) == i1 && Lo(j, leafLength) == i2 {
          OnePlace(j, k, leafLength);
        }
      }
    }

    /** A request since the given one was refused. */
    ghost predicate Refused(since: nat)
      reads this
    {
      exists i :: since <= i < asked && !answers(i)
    }

    /** The memory for a leaf, cleared, or null when the allocator refuses. */
    method Allocate() returns (leaf: array?<Value>)
      modifies this`asked
      ensures asked == old(asked) + 1 && (leaf == null <==> !answers(old(asked)))
      ensures leaf != null ==>
        fresh(leaf) && leaf.Length == leafLength && forall i :: 0 <= i < leafLength ==> leaf[i] == NULL
    {
      leaf := null;
      if answers(asked) {
        leaf := new Value[leafLength](_ => NULL);
      }
      asked := asked + 1;
    }

    /** A leaf is there for root entry i1 unless it is missing and memory is refused; no
        key's value changes. */
    method MakeLeaf(i1: nat) returns (ok: bool)
      requires Valid() && i1 < ROOT_LENGTH
      modifies this`leaves, this`asked, root
      ensures Valid() && (ok ==> root[i1] != null) && fresh(leaves - old(leaves))
      ensures if old(root[i1]) != null then ok && asked == old(asked)
              else asked == old(asked) + 1 && ok == answers(old(asked))
      ensures forall j :: Get(j) == old(Get(j))
      ensures forall j :: old(Ensured(j)) ==> Ensured(j)
      ensures asked == old(asked) ==> forall j :: Ensured(j) == old(Ensured(j))
    {
      hide Hi, Lo;
      ok := true;
      if root[i1] == null {
        var leaf := Allocate();
        if leaf == null {
          return false;
        }
        leaves := leaves + {leaf};
        root[i1] := leaf;
      }
      forall j: nat
        ensures Get(j) == old(Get(j))
      {
        HiBound(j, ROOT_LENGTH, leafLength);
        Parts(j, leafLength);
      }
    }

    /** All keys that share the leaf of the given key are ensured. */
    method EnsureBlock(key: nat) returns (ok: bool, next: nat)
      requires Valid() && key < Pow2(bits)
      modifies this`leaves, this`asked, root
      ensures Valid() && fresh(leaves - old(leaves))
      ensures key < next <= Pow2(bits) && (ok ==> forall j :: key <= j < next ==> Ensured(j))
      ensures if old(Ensured(key)) then ok && asked == old(asked)
              else asked == old(asked) + 1 && ok == answers(old(asked))
      ensures forall j :: Get(j) == old(Get(j))
      ensures forall j :: old(Ensured(j)) ==> Ensured(j)
      ensures asked == old(asked) ==> forall j :: Ensured(j) == old(Ensured(j))
    {
      hide Hi, Lo;
      var i1 := Hi(key, leafLength);
      HiBound(key, ROOT_LENGTH, leafLength);
      Parts(key, leafLength);
      MulMonotone(i1 + 1, ROOT_LENGTH, leafLength);
      ok := MakeLeaf(i1);
      next := (i1 + 1) * leafLength;
      if ok {
        forall j | key <= j < next
          ensures Ensured(j)
        {
          InBlock(j, i1, leafLength);
          HiBound(j, ROOT_LENGTH, leafLength);
        }
      }
    }

    /** What Ensure does to the keys from start to Last(start, n): success is reported
        exactly when no request was refused and that key is in range or lies before start,
        and memory is asked for only when a leaf is missing. */
    method EnsureKeys(start: nat, n: nat) returns (ok: bool)
      requires Valid() && start < Pow2(word) && n < Pow2(word)
      modifies this`leaves, this`asked, root
      ensures Valid() && fresh(leaves - old(leaves)) && asked >= old(asked)
      ensures forall j :: Get(j) == old(Get(j))
      ensures forall j :: old(Ensured(j)) ==> Ensured(j)
      ensures ok ==> forall j :: start <= j <= Last(start, n, word) ==> Ensured(j)
      ensures ok <==> !Refused(old(asked)) && (Last(start, n, word) < start || Last(start, n, word) < Pow2(bits))
      ensures (forall j :: start <= j <= Last(start, n, word) ==> old(Ensured(j))) ==> asked == old(asked)
      ensures asked == old(asked) ==> forall j :: Ensured(j) == old(Ensured(j))
    {
      hide Hi, Lo, Last, Valid, Get, Ensured;
      var key := start;
      var last := Last(start, n, word);
      while key <= last
        invariant Valid() && fresh(leaves - old(leaves))
        invariant asked >= old(asked) && !Refused(old(asked))
        invariant key >= start && (key == start || key <= Pow2(bits))
        invariant forall j :: Get(j) == old(Get(j))
        invariant forall j :: old(Ensured(j)) ==> Ensured(j)
        invariant forall j :: start <= j < key ==> Ensured(j)
        invariant (forall j :: start <= j <= last ==> old(Ensured(j))) ==> asked == old(asked)
        invariant asked == old(asked) ==> forall j :: Ensured(j) == old(Ensured(j))
        decreases Pow2(word) - key
      {
        InRange(key);
        if Hi(key, leafLength) >= ROOT_LENGTH {
          return false;
        }
        ghost var before := asked;
        ok, key := EnsureBlock(key);
        if !ok {
          assert !answers(before);
          return;
        }
      }
      ok := true;
    }

    /** Ensure, as documented: if it says yes the n keys from start on have leaves.  That
        holds exactly when start + n does not exceed the word's range.  A range that wraps
        is reported as ensured and nothing is done; one that does not is refused exactly
        when memory is, or when it does not fit into the map. */
    method Ensure(start: nat, n: nat) returns (ok: bool)
      requires Valid() && start < Pow2(word) && n < Pow2(word)
      modifies this`leaves, this`asked, root
      ensures Valid() && fresh(leaves - old(leaves)) && asked >= old(asked)
      ensures forall j :: Get(j) == old(Get(j))
      ensures forall j :: old(Ensured(j)) ==> Ensured(j)
      ensures (ok ==> forall j :: start <= j < start + n ==> Ensured(j)) <==> start + n <= Pow2(word)
      ensures start + n > Pow2(word) ==> ok && asked == old(asked) && forall j :: Ensured(j) == old(Ensured(j))
      ensures 0 < start + n <= Pow2(word) ==> (ok <==> !Refused(old(asked)) && (n == 0 || start + n <= Pow2(bits)))
      ensures (forall j :: start <= j < start + n ==> old(Ensured(j))) && 0 < start + n ==> ok && asked == old(asked)
      ensures start == n == 0 ==> !ok
    {
      hide Hi, Lo, Last, Valid, Get, Ensured;
      LastKey(start, n, word);
      InRange(start);
      ok := EnsureKeys(start, n);
      OutOfRange(start + n - 1);
    }

    lemma OutOfRange(key: int)
      requires Valid()
      ensures key >= Pow2(bits) ==> !Ensured(key)
    {
    }

    lemma InRange(key: nat)
      requires Valid()
      ensures leafLength > 0 && bits < word && Pow2(bits) < Pow2(word)
      ensures key < Pow2(bits) <==> Hi(key, leafLength) < ROOT_LENGTH
    {
      HiBound(key, ROOT_LENGTH, leafLength);
      Pow2Less(bits, word);
    }

    /** The keys of one leaf's block read that leaf. */
    lemma LeafValues(k: nat)
      requires Valid() && k < Pow2(bits)
      ensures var i1 := Hi(k, leafLength);
        var lo := i1 * leafLength;
        && i1 < ROOT_LENGTH && k == lo + Lo(k, leafLength) && Lo(k, leafLength) < leafLength
        && (i1 + 1) * leafLength == lo + leafLength
        && forall j :: lo <= j < lo + leafLength ==> Get(j) == if root[i1] == null then NULL else root[i1][j - lo]
    {
      hide Hi, Lo;
      var i1 := Hi(k, leafLength);
      HiBound(k, ROOT_LENGTH, leafLength);
      Parts(k, leafLength);
      MulMonotone(i1 + 1, ROOT_LENGTH, leafLength);
      forall j | i1 * leafLength <= j < i1 * leafLength + leafLength
        ensures Get(j) == if root[i1] == null then NULL else root[i1][j - i1 * leafLength]
      {
        InBlock(j, i1, leafLength);
      }
    }

    /** The first value at or above k, or null if there is none. */
    method Next(k: nat) returns (v: Value, ghost at: nat)
      requires Valid()
      ensures v != NULL ==> k <= at && Get(at) == v && forall j :: k <= j < at ==> Get(j) == NULL
      ensures v == NULL ==> forall j :: k <= j ==> Get(j) == NULL
    {
      hide Hi, Lo;
      at := k;
      var key := k;
      while key < Pow2(bits)
        invariant k <= key && forall j :: k <= j < key ==> Get(j) == NULL
        decreases Pow2(bits) - key
      {
        var i1 := Hi(key, leafLength);
        LeafValues(key);
        var leaf := root[i1];
        ghost var lo := i1 * leafLength;
        if leaf != null {
          var i2 := Lo(key, leafLength);
          while i2 < leafLength
            invariant Lo(key, leafLength) <= i2 <= leafLength
            invariant forall j :: key <= j < lo + i2 ==> Get(j) == NULL
          {
            assert Get(lo + i2) == leaf[i2];
            if leaf[i2] != NULL {
              at := lo + i2;
              return leaf[i2], at;
            }
            i2 := i2 + 1;
          }
        }
        key := (i1 + 1) * leafLength;
      }
      v := NULL;
    }
  }

  /** A range that wraps: the keys from the last word on are reported as ensured, and the
      first of them is not. */
  method WrappedRange(m: PageMap2) returns (ok: bool)
    requires m.Valid()
    modifies m`leaves, m`asked, m.root
    ensures m.Valid() && ok && !m.Ensured(Pow2(m.word) - 1)
  {
    Pow2Less(m.bits, m.word);
    ok := m.Ensure(Pow2(m.word) - 1, 2);
  }

  class PageMap1 {
    const bits: nat
    const word: nat
    const data: array<Value>

    ghost predicate Valid()
      reads this
    {
      data.Length == Pow2(bits) && bits < word
    }

    constructor (bits: nat, word: nat)
      requires bits < word
      ensures Valid() && this.bits == bits && this.word == word && fresh(data)
      ensures forall k: nat :: Get(k) == NULL
    {
      this.bits, this.word := bits, word;
      data := new Value[Pow2(bits)](_ => NULL);
    }

    function Get(k: nat): Value
      requires Valid()
      reads this, data
    {
      if k >= Pow2(bits) then NULL else data[k]
    }

    method Set(k: nat, v: Value)
      requires Valid() && k < Pow2(bits)
      modifies data
      ensures forall j: nat :: Get(j) == if j == k then v else old(Get(j))
    {
      data[k] := v;
    }

    /** LENGTH - x is unsigned, so any range that begins behind the array passes. */
    method Ensure(x: nat, n: nat) returns (ok: bool)
      requires Valid() && x < Pow2(word) && n < Pow2(word)
      ensures x <= Pow2(bits) ==> (ok <==> x + n <= Pow2(bits))
      ensures x > Pow2(bits) ==> (ok <==> x + n <= Pow2(bits) + Pow2(word))
    {
      Pow2Less(bits, word);
      var m := Pow2(word);
      if x <= Pow2(bits) {
        QuotientRemainder(Pow2(bits) + m - x, 1, m, Pow2(bits) - x);
      } else {
        QuotientRemainder(Pow2(bits) + m - x, 0, m, Pow2(bits) + m - x);
      }
      ok := n <= (Pow2(bits) + Pow2(word) - x) % Pow2(word);
    }

    method Next(k: nat) returns (v: Value, ghost at: nat)
      requires Valid()
      ensures v != NULL ==> k <= at && Get(at) == v && forall j :: k <= j < at ==> Get(j) == NULL
      ensures v == NULL ==> forall j :: k <= j ==> Get(j) == NULL
    {
      at := k;
      var key := k;
      while key < Pow2(bits)
        invariant k <= key && forall j :: k <= j < key ==> Get(j) == NULL
      {
        if data[key] != NULL {
          at := key;
          return data[key], at;
        }
        key := key + 1;
      }
      v := NULL;
    }
  }
}
