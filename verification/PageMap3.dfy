/** The three-level page map of 64-bit machines. */
module PageMapThree {
  import opened Arithmetic
  import opened RadixIndex
  import opened PageMap

  type Leaf = array<Value>
  type Node = array<array?<Value>>

  /** Bits consumed at each of the two upper levels. */
  function InteriorBits(bits: nat): (b: nat)
    ensures bits >= 2 ==> 2 * b <= bits <= 3 * b
  {
    (bits + 2) / 3
  }

  lemma Shape(bits: nat)
    requires bits >= 2
    ensures var i, l := Pow2(InteriorBits(bits)), Pow2(bits - 2 * InteriorBits(bits));
      (i * i) * l == Pow2(bits)
  {
    var b := InteriorBits(bits);
    Pow2Add(b, bits - b);
    Pow2Add(b, bits - 2 * b);
    var i, l := Pow2(b), Pow2(bits - 2 * b);
    MulAssociative(i, i, l);
  }

  class PageMap3 {
    const bits: nat
    const word: nat
    const interiorLength: nat
    const leafLength: nat
    const root: array<array?<array?<Value>>>
    const answers: nat -> bool          // whether the allocator grants the i-th request
    var asked: nat                      // requests made so far
    ghost var nodes: set<Node>
    ghost var leaves: set<Leaf>

    ghost predicate Sizes() {
      && leafLength > 0 && interiorLength > 0 && bits < word
      && (interiorLength * interiorLength) * leafLength == Pow2(bits)
    }

    ghost predicate NodesOk()
      reads this`nodes, root, nodes
    {
      && root.Length == interiorLength
      && (forall i :: 0 <= i < root.Length && root[i] != null ==> root[i] in nodes && root[i].Length == interiorLength)
      && (forall i, j :: 0 <= i < j < root.Length && root[i] != null ==> root[i] != root[j])
    }

    ghost predicate HasLeaf(i: nat, j: nat)
      requires NodesOk()
      reads this`nodes, root, nodes
    {
      i < interiorLength && j < interiorLength && root[i] != null && root[i][j] != null
    }

    ghost predicate LeavesOk()
      requires NodesOk()
      reads this`nodes, this`leaves, root, nodes, leaves
    {
      && (forall i: nat, j: nat :: HasLeaf(i, j) ==> root[i][j] in leaves && root[i][j].Length == leafLength)
      && (forall i: nat, j: nat, i': nat, j': nat :: HasLeaf(i, j) && HasLeaf(i', j') && (i, j) != (i', j') ==>
        root[i][j] != root[i'][j'])
    }

    ghost predicate Valid()
      reads this`nodes, this`leaves, root, nodes, leaves
    {
      Sizes() && NodesOk() && LeavesOk()
    }

    constructor (bits: nat, word: nat, answers: nat -> bool)
      requires 2 <= bits < word
      ensures Valid() && this.bits == bits && this.word == word && this.answers == answers && fresh(root)
      ensures forall k :: Get(k) == NULL && !Ensured(k)
    {
      this.bits, this.word := bits, word;
      this.answers, asked := answers, 0;
      interiorLength := Pow2(InteriorBits(bits));
      leafLength := Pow2(bits - 2 * InteriorBits(bits));
      root := new array?<array?<Value>>[Pow2(InteriorBits(bits))](_ => null);
      nodes, leaves := {}, {};
      new;
      hide Hi, Lo, Pow2;
      Shape(bits);
      assert Sizes();
      hide Sizes;
      forall k: nat
        ensures Get(k) == NULL && !Ensured(k)
      {
        Indices(k);
      }
    }

    /** The three indices of a key in range. */
    lemma Indices(k: nat)
      requires Sizes()
      ensures interiorLength * leafLength > 0
      ensures var i1, i2 := Hi(k, leafLength * interiorLength), Lo(Hi(k, leafLength), interiorLength);
        && (k < Pow2(bits) <==> i1 < interiorLength) && i2 < interiorLength && Lo(k, leafLength) < leafLength
        && i1 == Hi(Hi(k, leafLength), interiorLength)
    {
      HiHi(k, interiorLength, leafLength);
      HiBound(k, interiorLength * interiorLength, leafLength);
      HiBound(Hi(k, leafLength), interiorLength, interiorLength);
      Parts(k, leafLength);
      Parts(Hi(k, leafLength), interiorLength);
    }

    function Get(k: nat): Value
      requires Valid()
      reads this`nodes, this`leaves, root, nodes, leaves
    {
      Indices(k);
      var i1, i2, i3 := Hi(k, leafLength * interiorLength), Lo(Hi(k, leafLength), interiorLength), Lo(k, leafLength);
      if k >= Pow2(bits) || root[i1] == null || root[i1][i2] == null then NULL
      else
        assert HasLeaf(i1, i2);
        root[i1][i2][i3]
    }

    /** There is a leaf for key k. */
    ghost predicate Ensured(k: nat)
      requires Valid()
      reads this`nodes, this`leaves, root, nodes, leaves
    {
      Indices(k);
      k < Pow2(bits) && HasLeaf(Hi(k, leafLength * interiorLength), Lo(Hi(k, leafLength), interiorLength))
    }

    lemma OneKey(j: nat, k: nat)
      requires Sizes()
      requires Hi(j, leafLength * interiorLength) == Hi(k, leafLength * interiorLength)
      requires Lo(Hi(j, leafLength), interiorLength) == Lo(Hi(k, leafLength), interiorLength)
      requires Lo(j, leafLength) == Lo(k, leafLength)
      ensures j == k
    {
      hide Hi, Lo;
      Indices(j);
      Indices(k);
      OnePlace(Hi(j, leafLength), Hi(k, leafLength), interiorLength);
      OnePlace(j, k, leafLength);
    }

    method Set(k: nat, v: Value)
      requires Valid() && Ensured(k)
      modifies leaves
      ensures Valid()
      ensures forall j :: Get(j) == if j == k then v else old(Get(j))
      ensures forall j :: Ensured(j) == old(Ensured(j))
    {
      hide Hi, Lo, Sizes;
      Indices(k);
      var i1, i2, i3 := Hi(k, leafLength * interiorLength), Lo(Hi(k, leafLength), interiorLength), Lo(k, leafLength);
      assert HasLeaf(i1, i2);
      root[i1][i2][i3] := v;
      forall i: nat, j: nat
        ensures HasLeaf(i, j) == old(HasLeaf(i, j))
      {
      }
      forall j: nat
        ensures Get(j) == if j == k then v else old(Get(j))
      {
        Indices(j);
        var j1, j2, j3 := Hi(j, leafLength * interiorLength), Lo(Hi(j, leafLength), interiorLength), Lo(j, leafLength);
        if j < Pow2(bits) && HasLeaf(j1, j2) {
          if j1 == i1 && j2 == i2 && j3 == i3 {
            OneKey(j, k);
          }
        }
      }
    }

    /** A request since the given one was refused. */
    ghost predicate Refused(since: nat)
      reads this
    {
      exists i :: since <= i < asked && !answers(i)
    }

    /** The memory for a node, cleared, or null when the allocator refuses. */
    method NewNode() returns (node: array?<array?<Value>>)
      modifies this`asked
      ensures asked == old(asked) + 1 && (node == null <==> !answers(old(asked)))
      ensures node != null ==>
        fresh(node) && node.Length == interiorLength && forall i :: 0 <= i < interiorLength ==> node[i] == null
    {
      node := null;
      if answers(asked) {
        node := new array?<Value>[interiorLength](_ => null);
      }
      asked := asked + 1;
    }

    /** The same for a leaf. */
    method NewLeaf() returns (leaf: array?<Value>)
      modifies this`asked
      ensures asked == old(asked) + 1 && (leaf == null <==> !answers(old(asked)))
      ensures leaf != null ==>
        fresh(leaf) && leaf.Length == leafLength && forall i :: 0 <= i < leafLength ==> leaf[i] == NULL
    {
      leaf := null;
      if answers(asked) {
        leaf := new Value[leafLength](_ => NULL);
      }
      asked := asked + 1;
    }

    method MakeNode(i1: nat) returns (ok: bool)
      requires Valid() && i1 < interiorLength
      modifies this`nodes, this`asked, root
      ensures Valid() && (ok ==> root[i1] != null) && fresh(nodes - old(nodes))
      ensures if old(root[i1]) != null then ok && asked == old(asked)
              else asked == old(asked) + 1 && ok == answers(old(asked))
      ensures forall i: nat, j: nat :: HasLeaf(i, j) == old(HasLeaf(i, j))
      ensures forall j :: Get(j) == old(Get(j))
    {
      hide Hi, Lo, Sizes;
      ok := true;
      if root[i1] == null {
        var node := NewNode();
        if node == null {
          return false;
        }
        nodes := nodes + {node};
        root[i1] := node;
        forall i: nat, j: nat
          ensures HasLeaf(i, j) == old(HasLeaf(i, j))
        {
        }
      }
      forall j: nat
        ensures Get(j) == old(Get(j))
      {
        Indices(j);
      }
    }

    method MakeLeaf(i1: nat, i2: nat) returns (ok: bool)
      requires Valid() && i1 < interiorLength && i2 < interiorLength && root[i1] != null
      modifies this`leaves, this`asked, nodes
      ensures Valid() && (ok ==> HasLeaf(i1, i2)) && fresh(leaves - old(leaves))
      ensures if old(HasLeaf(i1, i2)) then ok && asked == old(asked)
              else asked == old(asked) + 1 && ok == answers(old(asked))
      ensures forall i: nat, j: nat :: HasLeaf(i, j) == (old(HasLeaf(i, j)) || (ok && i == i1 && j == i2))
      ensures forall j :: Get(j) == old(Get(j))
    {
      hide Hi, Lo, Sizes;
      ok := true;
      if root[i1][i2] == null {
        var leaf := NewLeaf();
        if leaf == null {
          return false;
        }
        leaves := leaves + {leaf};
        root[i1][i2] := leaf;
        forall i: nat, j: nat
          ensures HasLeaf(i, j) == (old(HasLeaf(i, j)) || (i == i1 && j == i2))
        {
        }
      }
      forall j: nat
        ensures Get(j) == old(Get(j))
      {
        Indices(j);
      }
    }

    /** All keys that share the leaf of the given key are ensured. */
    method EnsureBlock(key: nat) returns (ok: bool, next: nat)
      requires Valid() && key < Pow2(bits)
      modifies this`leaves, this`nodes, this`asked, root, nodes
      ensures Valid() && fresh(leaves - old(leaves)) && fresh(nodes - old(nodes))
      ensures key < next <= Pow2(bits) && (ok ==> forall j :: key <= j < next ==> Ensured(j))
      ensures asked >= old(asked) && (old(Ensured(key)) ==> asked == old(asked))
      ensures ok <==> !Refused(old(asked))
      ensures forall j :: Get(j) == old(Get(j))
      ensures forall j :: old(Ensured(j)) ==> Ensured(j)
      ensures asked == old(asked) ==> forall j :: Ensured(j) == old(Ensured(j))
    {
      hide Hi, Lo, LeavesOk, NodesOk;
      Indices(key);
      Parts(key, leafLength);
      var i1, i2 := Hi(key, leafLength * interiorLength), Lo(Hi(key, leafLength), interiorLength);
      var q := Hi(key, leafLength);
      BlockInRange(q);
      next := (q + 1) * leafLength;
      ok := MakeNode(i1);
      if ok {
        ok := MakeLeaf(i1, i2);
      }
      assert !ok ==> !answers(asked - 1);
      if ok {
        forall j | key <= j < next
          ensures Ensured(j)
        {
          InBlock(j, q, leafLength);
          Indices(j);
        }
      }
    }

    /** What Ensure does to the keys from start to Last(start, n), as for two levels. */
    method EnsureKeys(start: nat, n: nat) returns (ok: bool)
      requires Valid() && start < Pow2(word) && n < Pow2(word)
      modifies this`leaves, this`nodes, this`asked, root, nodes
      ensures Valid() && fresh(leaves - old(leaves)) && fresh(nodes - old(nodes)) && asked >= old(asked)
      ensures forall j :: Get(j) == old(Get(j))
      ensures forall j :: old(Ensured(j)) ==> Ensured(j)
      ensures ok ==> forall j :: start <= j <= Last(start, n, word) ==> Ensured(j)
      ensures ok <==> !Refused(old(asked)) && (Last(start, n, word) < start || Last(start, n, word) < Pow2(bits))
      ensures (forall j :: start <= j <= Last(start, n, word) ==> old(Ensured(j))) ==> asked == old(asked)
      ensures asked == old(asked) ==> forall j :: Ensured(j) == old(Ensured(j))
    {
      hide Hi, Lo, Last, Valid, Get, Ensured;
      var key := start;
      var last := Last(start, n, word);
      while key <= last
        invariant Valid() && fresh(leaves - old(leaves)) && fresh(nodes - old(nodes))
        invariant asked >= old(asked) && !Refused(old(asked))
        invariant key >= start && (key == start || key <= Pow2(bits))
        invariant forall j :: Get(j) == old(Get(j))
        invariant forall j :: old(Ensured(j)) ==> Ensured(j)
        invariant forall j :: start <= j < key ==> Ensured(j)
        invariant (forall j :: start <= j <= last ==> old(Ensured(j))) ==> asked == old(asked)
        invariant asked == old(asked) ==> forall j :: Ensured(j) == old(Ensured(j))
        decreases Pow2(word) - key
      {
        InRange(key);
        var i1, i2 := Hi(key, leafLength * interiorLength), Lo(Hi(key, leafLength), interiorLength);
        if i1 >= interiorLength || i2 >= interiorLength {
          return false;
        }
        ok, key := EnsureBlock(key);
        if !ok {
          return;
        }
      }
      ok := true;
    }

    lemma InRange(key: nat)
      requires Valid()
      ensures interiorLength * leafLength > 0 && leafLength * interiorLength > 0 && leafLength > 0 && interiorLength > 0
      ensures bits < word && Pow2(bits) < Pow2(word)
      ensures key < Pow2(bits) <==> Hi(key, leafLength * interiorLength) < interiorLength
      ensures Lo(Hi(key, leafLength), interiorLength) < interiorLength
    {
      Indices(key);
      Pow2Less(bits, word);
    }

    /** Ensure, as documented, holds its promise exactly when the range does not wrap; as
        for two levels. */
    method Ensure(start: nat, n: nat) returns (ok: bool)
      requires Valid() && start < Pow2(word) && n < Pow2(word)
      modifies this`leaves, this`nodes, this`asked, root, nodes
      ensures Valid() && fresh(leaves - old(leaves)) && fresh(nodes - old(nodes)) && asked >= old(asked)
      ensures forall j :: Get(j) == old(Get(j))
      ensures forall j :: old(Ensured(j)) ==> Ensured(j)
      ensures (ok ==> forall j :: start <= j < start + n ==> Ensured(j)) <==> start + n <= Pow2(word)
      ensures start + n > Pow2(word) ==> ok && asked == old(asked) && forall j :: Ensured(j) == old(Ensured(j))
      ensures 0 < start + n <= Pow2(word) ==> (ok <==> !Refused(old(asked)) && (n == 0 || start + n <= Pow2(bits)))
      ensures (forall j :: start <= j < start + n ==> old(Ensured(j))) && 0 < start + n ==> ok && asked == old(asked)
      ensures start == n == 0 ==> !ok
    {
      hide Hi, Lo, Last, Valid, Get, Ensured;
      LastKey(start, n, word);
      InRange(start);
      ok := EnsureKeys(start, n);
      OutOfRange(start + n - 1);
    }

    lemma OutOfRange(key: int)
      requires Valid()
      ensures key >= Pow2(bits) ==> !Ensured(key)
    {
    }

    lemma BlockInRange(q: nat)
      requires Sizes() && q * leafLength < Pow2(bits)
      ensures (q + 1) * leafLength <= Pow2(bits)
    {
      MulMonotone(interiorLength * interiorLength, q, leafLength);
      MulMonotone(q + 1, interiorLength * interiorLength, leafLength);
    }

    /** The first value at or above k, or null if there is none. */
    method Next(k: nat) returns (v: Value, ghost at: nat)
      requires Valid()
      ensures v != NULL ==> k <= at && Get(at) == v && forall j :: k <= j < at ==> Get(j) == NULL
      ensures v == NULL ==> forall j :: k <= j ==> Get(j) == NULL
    {
      hide Hi, Lo;
      at := k;
      var key := k;
      while key < Pow2(bits)
        invariant k <= key && forall j :: k <= j < key ==> Get(j) == NULL
        decreases Pow2(bits) - key
      {
        Indices(key);
        var i1, i2 := Hi(key, leafLength * interiorLength), Lo(Hi(key, leafLength), interiorLength);
        if root[i1] == null {
          Parts(key, leafLength * interiorLength);
          NoNode(i1);
          key := (i1 + 1) * (leafLength * interiorLength);
        } else {
          var leaf := root[i1][i2];
          ghost var q := Hi(key, leafLength);
          Parts(key, leafLength);
          LeafValues(key);
          if leaf != null {
            var i3 := Lo(key, leafLength);
            assert HasLeaf(i1, i2);
            while i3 < leafLength
              invariant Lo(key, leafLength) <= i3 <= leafLength
              invariant forall j :: key <= j < q * leafLength + i3 ==> Get(j) == NULL
            {
              assert Get(q * leafLength + i3) == leaf[i3];
              if leaf[i3] != NULL {
                at := q * leafLength + i3;
                return leaf[i3], at;
              }
              i3 := i3 + 1;
            }
          }
          key := (Hi(key, leafLength) + 1) * leafLength;
        }
      }
      v := NULL;
    }

    /** Nothing is stored below a missing node. */
    lemma NoNode(i1: nat)
      requires Valid() && i1 < interiorLength && root[i1] == null
      ensures forall j :: i1 * (leafLength * interiorLength) <= j < (i1 + 1) * (leafLength * interiorLength) ==>
        Get(j) == NULL
    {
      hide Hi, Lo, LeavesOk;
      forall j | i1 * (leafLength * interiorLength) <= j < (i1 + 1) * (leafLength * interiorLength)
        ensures Get(j) == NULL
      {
        Indices(j);
        InBlock(j, i1, leafLength * interiorLength);
      }
    }

    /** The keys of one leaf's block read that leaf. */
    lemma LeafValues(k: nat)
      requires Valid() && k < Pow2(bits)
      ensures var q := Hi(k, leafLength);
        var i1, i2 := Hi(k, leafLength * interiorLength), Lo(q, interiorLength);
        && i1 < interiorLength && i2 < interiorLength
        && (HasLeaf(i1, i2) ==> root[i1][i2].Length == leafLength)
        && forall j :: q * leafLength <= j < (q + 1) * leafLength ==>
             Get(j) == if HasLeaf(i1, i2) then root[i1][i2][j - q * leafLength] else NULL
    {
      hide Hi, Lo;
      var q := Hi(k, leafLength);
      Indices(k);
      Parts(k, leafLength);
      BlockInRange(q);
      forall j | q * leafLength <= j < (q + 1) * leafLength
        ensures Get(j) == if HasLeaf(Hi(k, leafLength * interiorLength), Lo(q, interiorLength))
                          then root[Hi(k, leafLength * interiorLength)][Lo(q, interiorLength)][j - q * leafLength]
                            else NULL
      {
        InBlock(j, q, leafLength);
        Indices(j);
      }
    }
  }
}
