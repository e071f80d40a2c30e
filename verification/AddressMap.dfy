/** The map from addresses to values that the heap checker and profiler use: a hash
    table of clusters, each an array of short lists, one for each block of addresses. */
module AddressMaps {
  import opened Options

  const BLOCK_SIZE := 128
  const CLUSTER_BLOCKS := 8192
  const CLUSTER_SIZE := 1048576
  const HASH_SIZE := 4096
  const ALLOC_COUNT := 64

  datatype Entry<V> = Entry(key: nat, value: V)
  datatype Cluster<V> = Cluster(id: nat, blocks: seq<seq<Entry<V>>>)

  type Table<V> = seq<seq<Cluster<V>>>

  /** The top twelve of the low 32 bits of the product. */
  function HashInt(x: nat): (h: nat)
    ensures h < HASH_SIZE
  {
    (((x % 0x1_0000_0000) * 2654435769) % 0x1_0000_0000) / 1048576
  }

  /** The block that an address lies in, counted from address zero. */
  function BlockOf(address: nat): nat {
    address / BLOCK_SIZE
  }

  function ClusterOf(block: nat): nat {
    block / CLUSTER_BLOCKS
  }

  function SlotOf(block: nat): (b: nat)
    ensures b < CLUSTER_BLOCKS
  {
    block % CLUSTER_BLOCKS
  }

  lemma ClusterId(address: nat)
    ensures ClusterOf(BlockOf(address)) == address / CLUSTER_SIZE
    ensures SlotOf(BlockOf(address)) == (address / BLOCK_SIZE) % CLUSTER_BLOCKS
  {
  }

  /** Where the cluster with the given id is in its chain, or the chain's end. */
  function IndexOf<V>(chain: seq<Cluster<V>>, id: nat): (i: nat)
    ensures i <= |chain| && (i < |chain| ==> chain[i].id == id)
    ensures forall j :: 0 <= j < i ==> chain[j].id != id
  {
    if chain == [] then 0
    else if chain[0].id == id then 0
    else
      var k := IndexOf(chain[1..], id);
      assert forall j :: 1 <= j < k + 1 ==> chain[j] == chain[1..][j - 1];
      k + 1
  }

  ghost predicate Shaped<V>(table: Table<V>) {
    && |table| == HASH_SIZE
    && forall h, i :: 0 <= h < |table| && 0 <= i < |table[h]| ==> |table[h][i].blocks| == CLUSTER_BLOCKS
  }

  /** Each cluster is in the chain of its id, and no chain has two clusters of one id. */
  ghost predicate Placed<V>(table: Table<V>) {
    && (forall h, i :: 0 <= h < |table| && 0 <= i < |table[h]| ==> HashInt(table[h][i].id) == h)
    && (forall h, i, j :: 0 <= h < |table| && 0 <= i < j < |table[h]| ==> table[h][i].id != table[h][j].id)
  }

  /** The list of a block; a block whose cluster was never made has none. */
  function List<V>(table: Table<V>, block: nat): seq<Entry<V>>
    requires Shaped(table)
  {
    var chain := table[HashInt(ClusterOf(block))];
    var i := IndexOf(chain, ClusterOf(block));
    if i < |chain| then chain[i].blocks[SlotOf(block)] else []
  }

  /** The first position whose cluster has the id is determined by the ids. */
  lemma IndexUnique<V>(chain: seq<Cluster<V>>, id: nat, i: nat)
    requires i <= |chain| && (i < |chain| ==> chain[i].id == id) && forall j :: 0 <= j < i ==> chain[j].id != id
    ensures IndexOf(chain, id) == i
  {
    var k := IndexOf(chain, id);
    assert k < |chain| ==> chain[k].id == id;
  }

  ghost predicate HasCluster<V>(table: Table<V>, id: nat)
    requires Shaped(table)
  {
    IndexOf(table[HashInt(id)], id) < |table[HashInt(id)]|
  }

  // ------------------------------------------------------------ writing a list

  function Written<V>(table: Table<V>, block: nat, list: seq<Entry<V>>): Table<V>
    requires Shaped(table) && HasCluster(table, ClusterOf(block))
  {
    var h := HashInt(ClusterOf(block));
    var i := IndexOf(table[h], ClusterOf(block));
    table[h := table[h][i := table[h][i].(blocks := table[h][i].blocks[SlotOf(block) := list])]]
  }

  lemma WrittenList<V>(table: Table<V>, block: nat, list: seq<Entry<V>>, q: nat)
    requires Shaped(table) && HasCluster(table, ClusterOf(block))
    ensures Shaped(Written(table, block, list))
    ensures List(Written(table, block, list), q) == if q == block then list else List(table, q)
  {
    hide HashInt, ClusterOf, SlotOf;
    var table': Table<V> := Written(table, block, list);
    var h, g := HashInt(ClusterOf(block)), HashInt(ClusterOf(q));
    IndexUnique(table'[g], ClusterOf(q), IndexOf(table[g], ClusterOf(q)));
    SamePlace(block, q);
  }

  lemma SamePlace(p: nat, q: nat)
    ensures ClusterOf(p) == ClusterOf(q) && SlotOf(p) == SlotOf(q) ==> p == q
  {
  }

  lemma WrittenPlaced<V>(table: Table<V>, block: nat, list: seq<Entry<V>>)
    requires Shaped(table) && Placed(table) && HasCluster(table, ClusterOf(block))
    ensures Placed(Written(table, block, list))
  {
    hide HashInt, ClusterOf, SlotOf;
    var h := HashInt(ClusterOf(block));
    var i := IndexOf(table[h], ClusterOf(block));
    var table': Table<V> := Written(table, block, list);
    assert forall g: nat, j: nat :: g < |table| && j < |table[g]| ==> table'[g][j].id == table[g][j].id;
  }

  lemma CreatedPlaced<V>(table: Table<V>, id: nat)
    requires Shaped(table) && Placed(table) && !HasCluster(table, id)
    ensures Placed(Created(table, id))
  {
    hide HashInt;
    var h := HashInt(id);
    var table': Table<V> := Created(table, id);
    assert forall j :: 0 <= j < |table[h]| ==> table'[h][j + 1] == table[h][j];
    forall i, j | 0 <= i < j < |table'[h]|
      ensures table'[h][i].id != table'[h][j].id
    {
      assert table'[h][j] == table[h][j - 1];
      if i > 0 {
        assert table'[h][i] == table[h][i - 1];
      }
    }
  }

  // --------------------------------------------------------- making a cluster

  function Created<V>(table: Table<V>, id: nat): Table<V>
    requires Shaped(table)
  {
    var h := HashInt(id);
    table[h := [Cluster(id, seq(CLUSTER_BLOCKS, _ => []))] + table[h]]
  }

  lemma CreatedList<V>(table: Table<V>, id: nat, q: nat)
    requires Shaped(table) && !HasCluster(table, id)
    ensures Shaped(Created(table, id)) && HasCluster(Created(table, id), id)
    ensures List(Created(table, id), q) == List(table, q)
  {
    hide HashInt, ClusterOf, SlotOf;
    var table': Table<V> := Created(table, id);
    var g, c := HashInt(ClusterOf(q)), ClusterOf(q);
    var i := IndexOf(table[g], c);
    IndexUnique(table'[HashInt(id)], id, 0);
    if c == id {
      IndexUnique(table'[g], c, 0);
    } else if g == HashInt(id) {
      assert forall j :: 1 <= j < |table'[g]| ==> table'[g][j] == table[g][j - 1];
      IndexUnique(table'[g], c, i + 1);
    }
  }

  // ---------------------------------------------------------------- the lists

  function FindEntry<V>(list: seq<Entry<V>>, k: nat): Option<V> {
    if list == [] then None else if list[0].key == k then Some(list[0].value) else FindEntry(list[1..], k)
  }

  /** The keys of a block's list lie in the block and are distinct. */
  ghost predicate ListOk<V>(list: seq<Entry<V>>, block: nat) {
    && (forall i :: 0 <= i < |list| ==> BlockOf(list[i].key) == block)
    && (forall i, j :: 0 <= i < j < |list| ==> list[i].key != list[j].key)
  }

  lemma {:induction false} FindIs<V>(list: seq<Entry<V>>, block: nat, i: nat)
    requires ListOk(list, block) && i < |list|
    ensures FindEntry(list, list[i].key) == Some(list[i].value)
  {
    if i > 0 {
      TailOk(list, block);
      FindIs(list[1..], block, i - 1);
    }
  }

  lemma TailOk<V>(list: seq<Entry<V>>, block: nat)
    requires ListOk(list, block) && list != []
    ensures ListOk(list[1..], block)
  {
  }

  lemma {:induction false} FindNone<V>(list: seq<Entry<V>>, k: nat)
    requires forall i :: 0 <= i < |list| ==> list[i].key != k
    ensures FindEntry(list, k) == None
  {
    if list != [] {
      FindNone(list[1..], k);
    }
  }

  /** Looking a key up after entry i was overwritten or removed, or one put in front. */
  lemma {:induction false} FindUpdated<V>(list: seq<Entry<V>>, block: nat, i: nat, v: V, k: nat)
    requires ListOk(list, block) && i < |list|
    ensures ListOk(list[i := Entry(list[i].key, v)], block)
    ensures FindEntry(list[i := Entry(list[i].key, v)], k) == if k == list[i].key then Some(v) else FindEntry(list, k)
  {
    if i > 0 {
      TailOk(list, block);
      FindUpdated(list[1..], block, i - 1, v, k);
      assert list[i := Entry(list[i].key, v)][1..] == list[1..][i - 1 := Entry(list[i].key, v)];
    } else {
      assert list[0 := Entry(list[0].key, v)][1..] == list[1..];
    }
  }

  lemma RemovedOk<V>(list: seq<Entry<V>>, block: nat, i: nat)
    requires ListOk(list, block) && i < |list|
    ensures ListOk(list[..i] + list[i + 1..], block)
    ensures forall e :: e in list[..i] + list[i + 1..] ==> e.key != list[i].key
  {
  }

  lemma {:induction false} FindRemoved<V>(list: seq<Entry<V>>, block: nat, i: nat, k: nat)
    requires ListOk(list, block) && i < |list|
    ensures FindEntry(list[..i] + list[i + 1..], k) == if k == list[i].key then None else FindEntry(list, k)
  {
    var rest := list[..i] + list[i + 1..];
    RemovedOk(list, block, i);
    if k == list[i].key {
      FindNone(rest, k);
    } else if i > 0 {
      TailOk(list, block);
      hide ListOk;
      FindRemoved(list[1..], block, i - 1, k);
      assert rest == [list[0]] + (list[1..][..i - 1] + list[1..][i..]);
      assert rest[1..] == list[1..][..i - 1] + list[1..][i..];
    } else {
      assert rest == list[1..];
    }
  }

  lemma FindAdded<V>(list: seq<Entry<V>>, block: nat, e: Entry<V>, k: nat)
    requires ListOk(list, block) && BlockOf(e.key) == block && forall i :: 0 <= i < |list| ==> list[i].key != e.key
    ensures ListOk([e] + list, block)
    ensures FindEntry([e] + list, k) == if k == e.key then Some(e.value) else FindEntry(list, k)
  {
    assert ([e] + list)[1..] == list;
  }

  // ------------------------------------------------------------ what it stands for

  ghost predicate ListsOk<V>(table: Table<V>)
    requires Shaped(table)
  {
    forall q: nat :: ListOk(List(table, q), q)
  }

  ghost function Lookup<V>(contents: map<nat, V>, k: nat): Option<V> {
    if k in contents then Some(contents[k]) else None
  }

  ghost predicate Holds<V>(table: Table<V>, contents: map<nat, V>)
    requires Shaped(table)
  {
    forall k: nat :: FindEntry(List(table, BlockOf(k)), k) == Lookup(contents, k)
  }

  lemma LookupLess<V>(contents: map<nat, V>, k: nat)
    ensures Lookup(contents - {k}, k) == None && forall j: nat :: j != k ==>
      Lookup(contents - {k}, j) == Lookup(contents, j)
    ensures |contents - {k}| == |contents| - if k in contents then 1 else 0
    ensures k !in contents ==> contents - {k} == contents
  {
    assert (contents - {k}).Keys == contents.Keys - {k};
  }

  lemma HoldsAt<V>(table: Table<V>, contents: map<nat, V>, q: nat, i: nat)
    requires Shaped(table) && ListsOk(table) && Holds(table, contents) && i < |List(table, q)|
    ensures var e := List(table, q)[i]; BlockOf(e.key) == q && e.key in contents && contents[e.key] == e.value
  {
    hide List, BlockOf;
    var list := List(table, q);
    assert ListOk(list, q);
    FindIs(list, q, i);
    assert FindEntry(List(table, BlockOf(list[i].key)), list[i].key) == Lookup(contents, list[i].key);
  }

  /** An entry of the map is in its block's list. */
  lemma HeldAt<V>(table: Table<V>, contents: map<nat, V>, k: nat) returns (i: nat)
    requires Shaped(table) && ListsOk(table) && Holds(table, contents) && k in contents
    ensures var list := List(table, BlockOf(k)); i < |list| && list[i] == Entry(k, contents[k])
  {
    hide List, BlockOf;
    var list := List(table, BlockOf(k));
    assert FindEntry(list, k) == Lookup(contents, k);
    i := FoundAt(list, k);
  }

  lemma {:induction false} FoundAt<V>(list: seq<Entry<V>>, k: nat) returns (i: nat)
    requires FindEntry(list, k).Some?
    ensures i < |list| && list[i] == Entry(k, FindEntry(list, k).value)
  {
    if list[0].key == k {
      i := 0;
    } else {
      i := FoundAt(list[1..], k);
      i := i + 1;
    }
  }

  /** One list was replaced by one that changes only what it says about key k. */
  lemma Rewritten<V>(table: Table<V>, table': Table<V>, contents: map<nat, V>, contents': map<nat, V>, k: nat,
                     list': seq<Entry<V>>)
    requires Shaped(table) && ListsOk(table) && Holds(table, contents)
    requires Shaped(table') && forall q: nat :: List(table', q) == if q == BlockOf(k) then list' else List(table, q)
    requires ListOk(list', BlockOf(k))
    requires forall j: nat :: FindEntry(list', j) == if j == k then Lookup(contents', k)
             else FindEntry(List(table, BlockOf(k)), j)
    requires forall j: nat :: j != k ==> Lookup(contents', j) == Lookup(contents, j)
    ensures ListsOk(table') && Holds(table', contents')
  {
    hide List, BlockOf, ListOk, Shaped, FindEntry, Lookup;
    forall j: nat
      ensures FindEntry(List(table', BlockOf(j)), j) == Lookup(contents', j)
    {
      assert FindEntry(List(table, BlockOf(j)), j) == Lookup(contents, j);
    }
  }

  // ------------------------------------------------------------- all the pairs

  /** q lists exactly the pairs of the given keys, each once. */
  ghost predicate Enumerates<V>(q: seq<Entry<V>>, contents: map<nat, V>, keys: set<nat>) {
    && (forall i, j :: 0 <= i < j < |q| ==> q[i].key != q[j].key)
    && (forall i :: 0 <= i < |q| ==> q[i].key in keys && q[i].key in contents && contents[q[i].key] == q[i].value)
    && (forall k :: k in keys && k in contents ==> Entry(k, contents[k]) in q)
  }

  lemma EnumeratesBoth<V>(a: seq<Entry<V>>, b: seq<Entry<V>>, contents: map<nat, V>, s: set<nat>, t: set<nat>)
    requires Enumerates(a, contents, s) && Enumerates(b, contents, t) && forall k :: k in s ==> k !in t
    ensures Enumerates(a + b, contents, s + t)
  {
    forall i, j | 0 <= i < j < |a + b|
      ensures (a + b)[i].key != (a + b)[j].key
    {
      if i < |a| <= j {
        assert a[i] in a && b[j - |a|] in b;
      }
    }
  }

  /** The pairs in the first b blocks of a cluster, in the first i clusters of a chain,
      in the first h chains. */
  function OfCluster<V>(c: Cluster<V>, b: nat): seq<Entry<V>>
    requires b <= |c.blocks|
  {
    if b == 0 then [] else OfCluster(c, b - 1) + c.blocks[b - 1]
  }

  function OfChain<V>(chain: seq<Cluster<V>>, i: nat): seq<Entry<V>>
    requires i <= |chain| && forall j :: 0 <= j < |chain| ==> |chain[j].blocks| == CLUSTER_BLOCKS
  {
    if i == 0 then [] else OfChain(chain, i - 1) + OfCluster(chain[i - 1], CLUSTER_BLOCKS)
  }

  function OfTable<V>(table: Table<V>, h: nat): seq<Entry<V>>
    requires Shaped(table) && h <= HASH_SIZE
  {
    if h == 0 then [] else OfTable(table, h - 1) + OfChain(table[h - 1], |table[h - 1]|)
  }

  ghost function KeysInCluster<V>(contents: map<nat, V>, id: nat, b: nat): set<nat> {
    set k | k in contents && ClusterOf(BlockOf(k)) == id && SlotOf(BlockOf(k)) < b
  }

  ghost function KeysInChain<V>(contents: map<nat, V>, chain: seq<Cluster<V>>, h: nat, i: nat): set<nat> {
    set k | k in contents && HashInt(ClusterOf(BlockOf(k))) == h && IndexOf(chain, ClusterOf(BlockOf(k))) < i
  }

  ghost function KeysInTable<V>(contents: map<nat, V>, h: nat): set<nat> {
    set k | k in contents && HashInt(ClusterOf(BlockOf(k))) < h
  }

  /** A cluster's list is the list of the block. */
  lemma ClusterList<V>(table: Table<V>, h: nat, i: nat, b: nat)
    requires Shaped(table) && Placed(table) && h < HASH_SIZE && i < |table[h]| && b < CLUSTER_BLOCKS
    ensures var q := table[h][i].id * CLUSTER_BLOCKS + b;
      ClusterOf(q) == table[h][i].id && SlotOf(q) == b && table[h][i].blocks[b] == List(table, q)
  {
    hide HashInt;
    IndexUnique(table[h], table[h][i].id, i);
  }

  lemma BlockEnumerates<V>(table: Table<V>, contents: map<nat, V>, q: nat)
    requires Shaped(table) && ListsOk(table) && Holds(table, contents)
    ensures Enumerates(List(table, q), contents, set k | k in contents && BlockOf(k) == q)
  {
    hide List, BlockOf, Holds;
    var list := List(table, q);
    assert ListOk(list, q);
    hide ListsOk;
    forall i | 0 <= i < |list|
      ensures list[i].key in contents && BlockOf(list[i].key) == q && contents[list[i].key] == list[i].value
    {
      HoldsAt(table, contents, q, i);
    }
    forall k | k in contents && BlockOf(k) == q
      ensures Entry(k, contents[k]) in list
    {
      var i := HeldAt(table, contents, k);
    }
  }

  lemma {:induction false} ClusterEnumerates<V>(table: Table<V>, contents: map<nat, V>, h: nat, i: nat, b: nat)
    requires Shaped(table) && Placed(table) && ListsOk(table) && Holds(table, contents)
    requires h < HASH_SIZE && i < |table[h]| && b <= CLUSTER_BLOCKS
    ensures Enumerates(OfCluster(table[h][i], b), contents, KeysInCluster(contents, table[h][i].id, b))
  {
    hide List, Holds, ListsOk, Enumerates, HashInt;
    var id := table[h][i].id;
    if b == 0 {
      NoneEnumerates(contents, KeysInCluster(contents, id, 0));
    } else {
      ClusterEnumerates(table, contents, h, i, b - 1);
      ClusterList(table, h, i, b - 1);
      var q := id * CLUSTER_BLOCKS + (b - 1);
      BlockEnumerates(table, contents, q);
      var s, t := KeysInCluster(contents, id, b - 1), set k | k in contents && BlockOf(k) == q;
      hide BlockOf;
      EnumeratesBoth(OfCluster(table[h][i], b - 1), List(table, q), contents, s, t);
      assert s + t == KeysInCluster(contents, id, b);
    }
  }

  lemma NoneEnumerates<V>(contents: map<nat, V>, keys: set<nat>)
    requires keys == {}
    ensures Enumerates([], contents, keys)
  {
  }

  lemma {:induction false} ChainEnumerates<V>(table: Table<V>, contents: map<nat, V>, h: nat, i: nat)
    requires Shaped(table) && Placed(table) && ListsOk(table) && Holds(table, contents) && h < HASH_SIZE &&
             i <= |table[h]|
    ensures Enumerates(OfChain(table[h], i), contents, KeysInChain(contents, table[h], h, i))
  {
    hide List, Holds, ListsOk, Enumerates, HashInt, BlockOf, ClusterOf, SlotOf;
    var chain := table[h];
    if i == 0 {
      NoneEnumerates(contents, KeysInChain(contents, chain, h, 0));
    } else {
      ChainEnumerates(table, contents, h, i - 1);
      ClusterEnumerates(table, contents, h, i - 1, CLUSTER_BLOCKS);
      var id := chain[i - 1].id;
      IndexUnique(chain, id, i - 1);
      var s, t := KeysInChain(contents, chain, h, i - 1), KeysInCluster(contents, id, CLUSTER_BLOCKS);
      EnumeratesBoth(OfChain(chain, i - 1), OfCluster(chain[i - 1], CLUSTER_BLOCKS), contents, s, t);
      assert s + t == KeysInChain(contents, chain, h, i);
    }
  }

  /** Every stored pair is in an existing cluster. */
  lemma ChainHasAll<V>(table: Table<V>, contents: map<nat, V>, h: nat)
    requires Shaped(table) && ListsOk(table) && Holds(table, contents) && h < HASH_SIZE
    ensures KeysInChain(contents, table[h], h, |table[h]|) == set k | k in contents &&
            HashInt(ClusterOf(BlockOf(k))) == h
  {
    hide Holds, ListsOk, HashInt, BlockOf, ClusterOf, SlotOf;
    forall k | k in contents && HashInt(ClusterOf(BlockOf(k))) == h
      ensures IndexOf(table[h], ClusterOf(BlockOf(k))) < |table[h]|
    {
      var i := HeldAt(table, contents, k);
    }
  }

  lemma {:induction false} TableEnumerates<V>(table: Table<V>, contents: map<nat, V>, h: nat)
    requires Shaped(table) && Placed(table) && ListsOk(table) && Holds(table, contents) && h <= HASH_SIZE
    ensures Enumerates(OfTable(table, h), contents, KeysInTable(contents, h))
  {
    hide List, Holds, ListsOk, Enumerates, HashInt, BlockOf, ClusterOf, SlotOf, Shaped, Placed, KeysInChain, OfChain;
    if h == 0 {
      NoneEnumerates(contents, KeysInTable(contents, 0));
    } else {
      TableEnumerates(table, contents, h - 1);
      SizeOf(table);
      ChainEnumerates(table, contents, h - 1, |table[h - 1]|);
      ChainHasAll(table, contents, h - 1);
      var s, t := KeysInTable(contents, h - 1), KeysInChain(contents, table[h - 1], h - 1, |table[h - 1]|);
      EnumeratesBoth(OfTable(table, h - 1), OfChain(table[h - 1], |table[h - 1]|), contents, s, t);
      assert s + t == KeysInTable(contents, h);
    }
  }

  lemma SizeOf<V>(table: Table<V>)
    requires Shaped(table)
    ensures |table| == HASH_SIZE && forall h, j :: 0 <= h < |table| && 0 <= j < |table[h]| ==>
      |table[h][j].blocks| == CLUSTER_BLOCKS
  {
  }

  // ------------------------------------------------------- ranges around a key

  /** Key k points to the start or into the range that begins at a. */
  predicate Contains<V>(a: nat, v: V, size: V -> nat, k: nat) {
    a <= k && (a == k || k < a + size(v))
  }

  ghost predicate Apart<V>(contents: map<nat, V>, size: V -> nat) {
    forall a, b :: a in contents && b in contents && a < b ==> a + size(contents[a]) <= b
  }

  ghost predicate Bounded<V>(contents: map<nat, V>, size: V -> nat, max: nat) {
    forall a :: a in contents ==> size(contents[a]) <= max
  }

  /** No range of the map contains k. */
  ghost predicate Outside<V>(contents: map<nat, V>, size: V -> nat, k: nat) {
    forall a :: a in contents ==> !Contains(a, contents[a], size, k)
  }

  /** Every key up to k lies in a block before q. */
  ghost predicate ClearFrom<V>(contents: map<nat, V>, k: nat, q: nat) {
    forall a :: a in contents && a <= k ==> BlockOf(a) < q
  }

  /** A range before k that does not contain k hides all ranges before it. */
  lemma Shadowed<V>(contents: map<nat, V>, size: V -> nat, k: nat, q: nat, e: nat)
    requires Apart(contents, size) && ClearFrom(contents, k, q + 1)
    requires e in contents && e <= k && BlockOf(e) == q
    requires forall a :: a in contents && BlockOf(a) == q ==> !Contains(a, contents[a], size, k)
    ensures Outside(contents, size, k)
  {
    forall a | a in contents
      ensures !Contains(a, contents[a], size, k)
    {
      if a < e {
        assert a + size(contents[a]) <= e;
      } else if a <= k {
        assert BlockOf(a) < q + 1;
      }
    }
  }

  /** No range that begins at most max before k contains k. */
  ghost predicate NoneWithin<V>(contents: map<nat, V>, size: V -> nat, max: nat, k: nat) {
    forall a :: a in contents && Contains(a, contents[a], size, k) ==> k - a > max
  }

  /** When no range is longer than max, that means that no range contains k at all. */
  lemma NoneWithinBound<V>(contents: map<nat, V>, size: V -> nat, max: nat, k: nat)
    requires Bounded(contents, size, max)
    ensures NoneWithin(contents, size, max, k) <==> Outside(contents, size, k)
  {
    forall a | a in contents && Contains(a, contents[a], size, k)
      ensures k - a <= max
    {
    }
  }

  /** Non-overlapping ranges: at most one contains a key. */
  lemma OneRange<V>(contents: map<nat, V>, size: V -> nat, k: nat, a: nat, b: nat)
    requires Apart(contents, size) && a in contents && b in contents
    requires Contains(a, contents[a], size, k) && Contains(b, contents[b], size, k)
    ensures a == b
  {
  }

  // ----------------------------------------------------------------- the class

  class AddressMap<V(0)> {
    var table: Table<V>              // hashtable_
    var spare: nat                   // entries on free_
    ghost var contents: map<nat, V>
    ghost var made: nat              // entries allocated so far

    ghost predicate Valid()
      reads this
    {
      && Shaped(table) && Placed(table) && ListsOk(table) && Holds(table, contents)
      && made == spare + |contents| && made % ALLOC_COUNT == 0
    }

    constructor ()
      ensures Valid() && contents == map[]
    {
      table := seq(HASH_SIZE, _ => []);
      spare, made, contents := 0, 0, map[];
    }

    /** FindCluster without creation: the position of the address's cluster in its chain. */
    method FindCluster(address: nat) returns (i: Option<nat>)
      requires Shaped(table)
      ensures var id := ClusterOf(BlockOf(address));
        && (i.None? <==> !HasCluster(table, id))
        && (i.Some? ==> i.value == IndexOf(table[HashInt(id)], id))
    {
      hide List, HashInt;
      var id := address / CLUSTER_SIZE;
      ClusterId(address);
      var h := HashInt(id);
      var j := 0;
      while j < |table[h]|
        invariant 0 <= j <= |table[h]|
        invariant forall m :: 0 <= m < j ==> table[h][m].id != id
      {
        if table[h][j].id == id {
          IndexUnique(table[h], id, j);
          return Some(j);
        }
        j := j + 1;
      }
      IndexUnique(table[h], id, |table[h]|);
      i := None;
    }

    /** FindCluster with creation: no list changes. */
    method MakeCluster(address: nat)
      requires Shaped(table) && Placed(table)
      modifies this`table
      ensures Shaped(table) && Placed(table) && HasCluster(table, ClusterOf(BlockOf(address)))
      ensures forall q: nat :: List(table, q) == List(old(table), q)
    {
      hide List, HashInt;
      var id := ClusterOf(BlockOf(address));
      var i := FindCluster(address);
      if i.None? {
        forall q: nat
          ensures List(Created(table, id), q) == List(table, q)
        {
          CreatedList(table, id, q);
        }
        CreatedList(table, id, 0);
        CreatedPlaced(table, id);
        hide Placed;
        table := Created(table, id);
      }
    }

    /** The value stored for a key, if any. */
    method Find(k: nat) returns (r: Option<V>)
      requires Valid()
      ensures r == Lookup(contents, k)
    {
      hide List, BlockOf, ListsOk;
      var c := FindCluster(k);
      r := None;
      assert FindEntry(List(table, BlockOf(k)), k) == Lookup(contents, k);
      if c.Some? {
        var list := List(table, BlockOf(k));
        for i := 0 to |list|
          invariant FindEntry(list, k) == FindEntry(list[i..], k)
        {
          assert list[i..][1..] == list[i + 1..];
          if list[i].key == k {
            return Some(list[i].value);
          }
        }
      } else {
        NoCluster(table, BlockOf(k));
      }
    }

    /** The position of a key in a list, or the list's length. */
    static method Position(list: seq<Entry<V>>, k: nat) returns (i: nat)
      ensures i <= |list| && (i < |list| ==> list[i].key == k)
      ensures forall j :: 0 <= j < i ==> list[j].key != k
    {
      i := 0;
      while i < |list| && list[i].key != k
        invariant i <= |list| && forall j :: 0 <= j < i ==> list[j].key != k
      {
        i := i + 1;
      }
    }

    /** The list of the key's block is replaced. */
    method SetList(k: nat, list': seq<Entry<V>>, ghost contents': map<nat, V>)
      requires Shaped(table) && Placed(table) && ListsOk(table) && Holds(table, contents)
      requires HasCluster(table, ClusterOf(BlockOf(k))) && ListOk(list', BlockOf(k))
      requires forall j: nat :: FindEntry(list', j) == if j == k then Lookup(contents', k)
               else FindEntry(List(table, BlockOf(k)), j)
      requires forall j: nat :: j != k ==> Lookup(contents', j) == Lookup(contents, j)
      modifies this`table, this`contents
      ensures Shaped(table) && Placed(table) && ListsOk(table) && Holds(table, contents) && contents == contents'
    {
      hide List, BlockOf, ListOk, FindEntry, Lookup, ListsOk, Holds, Placed;
      var block := BlockOf(k);
      forall q: nat
        ensures List(Written(table, block, list'), q) == if q == block then list' else List(table, q)
      {
        WrittenList(table, block, list', q);
      }
      WrittenList(table, block, list', 0);
      WrittenPlaced(table, block, list');
      Rewritten(table, Written(table, block, list'), contents, contents', k, list');
      table := Written(table, block, list');
      contents := contents';
    }

    /** The pair is stored; an old value of the key is forgotten. */
    method Insert(k: nat, v: V)
      requires Valid()
      modifies this
      ensures Valid() && contents == old(contents)[k := v]
    {
      hide List, BlockOf, FindEntry, ListsOk, Holds, Written, Placed;
      MakeCluster(k);
      SameLists(old(table), table, contents);
      var list := List(table, BlockOf(k));
      ListIs(table, k);
      var i := Position(list, k);
      if i < |list| {
        HoldsAt(table, contents, BlockOf(k), i);
        forall j: nat
          ensures FindEntry(list[i := Entry(k, v)], j) == if j == k then Some(v) else FindEntry(list, j)
        {
          FindUpdated(list, BlockOf(k), i, v, j);
        }
        FindUpdated(list, BlockOf(k), i, v, k);
        SetList(k, list[i := Entry(k, v)], contents[k := v]);
        return;
      }
      NotHeld(table, contents, k, list);
      if spare == 0 {
        spare := ALLOC_COUNT;
        made := made + ALLOC_COUNT;
      }
      spare := spare - 1;
      forall j: nat
        ensures FindEntry([Entry(k, v)] + list, j) == if j == k then Some(v) else FindEntry(list, j)
      {
        FindAdded(list, BlockOf(k), Entry(k, v), j);
      }
      FindAdded(list, BlockOf(k), Entry(k, v), k);
      SetList(k, [Entry(k, v)] + list, contents[k := v]);
    }

    /** The pair is removed and its value returned, if there is one. */
    method FindAndRemove(k: nat) returns (r: Option<V>)
      requires Valid()
      modifies this
      ensures Valid() && r == Lookup(old(contents), k) && contents == old(contents) - {k}
    {
      hide List, BlockOf, FindEntry, ListsOk, Holds, Written, Placed;
      var c := FindCluster(k);
      var list := List(table, BlockOf(k));
      ListIs(table, k);
      var i := 0;
      if c.Some? {
        i := Position(list, k);
        if i < |list| {
          HoldsAt(table, contents, BlockOf(k), i);
          var shorter := list[..i] + list[i + 1..];
          forall j: nat
            ensures FindEntry(shorter, j) == if j == k then Lookup(contents - {k}, k) else FindEntry(list, j)
          {
            LookupLess(contents, k);
            FindRemoved(list, BlockOf(k), i, j);
          }
          RemovedOk(list, BlockOf(k), i);
          ghost var less := contents - {k};
          LookupLess(contents, k);
          hide ListOk, Lookup;
          SetList(k, shorter, less);
          spare := spare + 1;
          return Some(list[i].value);
        }
      } else {
        NoCluster(table, BlockOf(k));
      }
      NotHeld(table, contents, k, list);
      LookupLess(contents, k);
      r := None;
    }

    /** Visits every stored pair exactly once. */
    method Iterate() returns (visited: seq<Entry<V>>)
      requires Valid()
      ensures Enumerates(visited, contents, contents.Keys)
    {
      hide List, Holds, ListsOk, Enumerates, HashInt, BlockOf, ClusterOf, SlotOf, Placed;
      visited := [];
      for h := 0 to HASH_SIZE
        invariant visited == OfTable(table, h)
      {
        for i := 0 to |table[h]|
          invariant visited == OfTable(table, h) + OfChain(table[h], i)
        {
          ghost var before := visited;
          for b := 0 to CLUSTER_BLOCKS
            invariant visited == before + OfCluster(table[h][i], b)
          {
            visited := visited + table[h][i].blocks[b];
          }
        }
      }
      TableEnumerates(table, contents, HASH_SIZE);
      assert KeysInTable(contents, HASH_SIZE) == contents.Keys;
    }

    /** Scans one block's list for the range around k. */
    static method ScanBlock(list: seq<Entry<V>>, size: V -> nat, k: nat)
      returns (found: Option<Entry<V>>, smaller: bool)
      ensures found.Some? ==> found.value in list && Contains(found.value.key, found.value.value, size, k)
      ensures found.None? ==> forall e :: e in list ==> !Contains(e.key, e.value, size, k)
      ensures found.None? ==> (smaller <==> exists e :: e in list && e.key <= k)
    {
      smaller := false;
      for i := 0 to |list|
        invariant forall e :: e in list[..i] ==> !Contains(e.key, e.value, size, k)
        invariant smaller <==> exists e :: e in list[..i] && e.key <= k
      {
        assert list[..i + 1] == list[..i] + [list[i]];
        assert list[i] in list[..i + 1];
        if list[i].key <= k {
          if list[i].key == k || k < list[i].key + size(list[i].value) {
            return Some(list[i]), false;
          }
          smaller := true;
        }
      }
      assert list[..|list|] == list;
      found := None;
    }

    /** Walks down the blocks of num's cluster.  Either the search is over, or no key up
        to k is in this cluster or a later one. */
    method WalkCluster(size: V -> nat, max: nat, k: nat, start: nat) returns (over: bool, r: Option<Entry<V>>, num: nat)
      requires Valid() && Apart(contents, size)
      requires start <= k && ClearFrom(contents, k, BlockOf(start) + 1)
      ensures num <= start && ClusterOf(BlockOf(num)) == ClusterOf(BlockOf(start))
      ensures over ==> Answers(contents, size, max, k, r)
      ensures !over ==> ClearFrom(contents, k, ClusterOf(BlockOf(num)) * CLUSTER_BLOCKS)
    {
      hide List, Shaped, Placed, ListsOk, Holds, ClearFrom, Answers, Apart, Bounded;
      num := start;
      r := None;
      while true
        invariant num <= start && ClusterOf(BlockOf(num)) == ClusterOf(BlockOf(start))
        invariant ClearFrom(contents, k, BlockOf(num) + 1)
        decreases num
      {
        var q := BlockOf(num);
        var found, smaller := ScanBlock(List(table, q), size, k);
        ScanSettles(table, contents, size, max, k, q, found, smaller);
        if found.Some? {
          return true, found, num;
        }
        if smaller {
          return true, None, num;
        }
        if SlotOf(q) == 0 {
          return false, None, num;
        }
        num := num / BLOCK_SIZE * BLOCK_SIZE + (BLOCK_SIZE - 1);
        num := num - BLOCK_SIZE;
        if k - num > max {
          GivenUp(contents, size, max, k, q);
          return true, None, num;
        }
      }
    }

    /** The range around k, found by walking back block by block and cluster by cluster.
        With a bound that no range exceeds, nothing is returned exactly when no range
        contains k. */
    method FindInside(size: V -> nat, max: nat, k: nat) returns (r: Option<Entry<V>>)
      requires Valid() && Apart(contents, size)
      ensures r.Some? ==> r.value.key in contents && contents[r.value.key] == r.value.value
                          && Contains(r.value.key, r.value.value, size, k)
      ensures r.None? ==> NoneWithin(contents, size, max, k)
      ensures Bounded(contents, size, max) ==>
                (r.None? <==> forall a: nat :: a in contents ==> !Contains(a, contents[a], size, k))
    {
      hide List, Shaped, Placed, ListsOk, Holds, ClearFrom, Apart, Bounded, HasCluster, BlockOf, ClusterOf, NoneWithin;
      if Bounded(contents, size, max) {
        NoneWithinBound(contents, size, max, k);
      }
      var num: nat := k;
      NothingAbove(contents, k);
      while true
        invariant num <= k && ClearFrom(contents, k, BlockOf(num) + 1)
        decreases num
      {
        var c := FindCluster(num);
        if c.Some? {
          var over, answer, at := WalkCluster(size, max, k, num);
          if over {
            return answer;
          }
          num := at;
        } else {
          SkippedClear(table, contents, k, BlockOf(num));
        }
        var first := ClusterOf(BlockOf(num)) * CLUSTER_BLOCKS;
        ClusterBelow(num);
        if num < CLUSTER_SIZE {
          GivenUp(contents, size, max, k, 0);
          return None;
        }
        num := num / CLUSTER_SIZE * CLUSTER_SIZE + (CLUSTER_SIZE - 1);
        num := num - CLUSTER_SIZE;
        if k - num > max {
          GivenUp(contents, size, max, k, first);
          return None;
        }
      }
    }
  }

  /** The last address before the cluster of num. */
  lemma ClusterBelow(num: nat)
    ensures num < CLUSTER_SIZE ==> ClusterOf(BlockOf(num)) == 0
    ensures num >= CLUSTER_SIZE ==>
      var below := num / CLUSTER_SIZE * CLUSTER_SIZE + (CLUSTER_SIZE - 1) - CLUSTER_SIZE;
      && 0 <= below < num && BlockOf(below) + 1 == ClusterOf(BlockOf(num)) * CLUSTER_BLOCKS
      && below == ClusterOf(BlockOf(num)) * CLUSTER_BLOCKS * BLOCK_SIZE - 1
  {
  }

  lemma NothingAbove<V>(contents: map<nat, V>, k: nat)
    ensures ClearFrom(contents, k, BlockOf(k) + 1)
  {
  }

  /** The walk ends: block q - 1, if any, lies too far before k. */
  lemma GivenUp<V>(contents: map<nat, V>, size: V -> nat, max: nat, k: nat, q: nat)
    requires ClearFrom(contents, k, q)
    requires q > 0 ==> q * BLOCK_SIZE - 1 < k && k - (q * BLOCK_SIZE - 1) > max
    ensures Answers(contents, size, max, k, None)
  {
    forall a | a in contents && Contains(a, contents[a], size, k)
      ensures k - a > max
    {
      assert BlockOf(a) < q;
    }
  }

  /** A block without a key up to k moves the search one block down. */
  lemma ScannedClear<V>(table: Table<V>, contents: map<nat, V>, k: nat, q: nat)
    requires Shaped(table) && ListsOk(table) && Holds(table, contents) && ClearFrom(contents, k, q + 1)
    requires forall e :: e in List(table, q) ==> e.key > k
    ensures ClearFrom(contents, k, q)
  {
    hide List, BlockOf, ListsOk, Holds;
    forall a | a in contents && a <= k
      ensures BlockOf(a) < q
    {
      var i := HeldAt(table, contents, a);
      var list := List(table, BlockOf(a));
      assert list[i] in list;
    }
  }

  /** A missing cluster moves the search below all its blocks. */
  lemma SkippedClear<V>(table: Table<V>, contents: map<nat, V>, k: nat, q: nat)
    requires Shaped(table) && ListsOk(table) && Holds(table, contents) && ClearFrom(contents, k, q + 1)
    requires !HasCluster(table, ClusterOf(q))
    ensures ClearFrom(contents, k, ClusterOf(q) * CLUSTER_BLOCKS)
  {
    hide List, BlockOf, ListsOk, Holds, HasCluster;
    forall a | a in contents && a <= k
      ensures BlockOf(a) < ClusterOf(q) * CLUSTER_BLOCKS
    {
      var i := HeldAt(table, contents, a);
      if ClusterOf(BlockOf(a)) == ClusterOf(q) {
        NoCluster(table, BlockOf(a));
      }
      assert BlockOf(a) <= q;
    }
  }

  /** What FindInside answers: a stored range around k, or that there is none. */
  ghost predicate Answers<V>(contents: map<nat, V>, size: V -> nat, max: nat, k: nat, r: Option<Entry<V>>) {
    match r
    case Some(e) => e.key in contents && contents[e.key] == e.value && Contains(e.key, e.value, size, k)
    case None => NoneWithin(contents, size, max, k)
  }

  /** What scanning the list of block q settles. */
  lemma ScanSettles<V>(table: Table<V>, contents: map<nat, V>, size: V -> nat, max: nat, k: nat, q: nat,
                       found: Option<Entry<V>>, smaller: bool)
    requires Shaped(table) && ListsOk(table) && Holds(table, contents) && ClearFrom(contents, k, q + 1) &&
             Apart(contents, size)
    requires found.Some? ==> found.value in List(table, q) && Contains(found.value.key, found.value.value, size, k)
    requires found.None? ==> forall e :: e in List(table, q) ==> !Contains(e.key, e.value, size, k)
    requires found.None? ==> (smaller <==> exists e :: e in List(table, q) && e.key <= k)
    ensures found.Some? ==> Answers(contents, size, max, k, found)
    ensures found.None? && smaller ==> Answers(contents, size, max, k, None)
    ensures found.None? && !smaller ==> ClearFrom(contents, k, q)
  {
    hide List, BlockOf, ListsOk, Holds, Apart;
    var list := List(table, q);
    if found.Some? {
      var i :| 0 <= i < |list| && list[i] == found.value;
      HoldsAt(table, contents, q, i);
    } else if smaller {
      var e :| e in list && e.key <= k;
      var i :| 0 <= i < |list| && list[i] == e;
      HoldsAt(table, contents, q, i);
      forall a | a in contents && BlockOf(a) == q
        ensures !Contains(a, contents[a], size, k)
      {
        var j := HeldAt(table, contents, a);
        assert list[j] in list;
      }
      Shadowed(contents, size, k, q, e.key);
    } else {
      ScannedClear(table, contents, k, q);
    }
  }

  lemma NoCluster<V>(table: Table<V>, q: nat)
    requires Shaped(table) && !HasCluster(table, ClusterOf(q))
    ensures List(table, q) == []
  {
  }

  /** In a cluster that exists the block's list is where the code looks for it. */
  lemma ListIs<V>(table: Table<V>, k: nat)
    requires Shaped(table) && ListsOk(table)
    ensures ListOk(List(table, BlockOf(k)), BlockOf(k))
  {
  }

  lemma SameLists<V>(table: Table<V>, table': Table<V>, contents: map<nat, V>)
    requires Shaped(table) && Shaped(table') && ListsOk(table) && Holds(table, contents)
    requires forall q: nat :: List(table', q) == List(table, q)
    ensures ListsOk(table') && Holds(table', contents)
  {
    hide List, BlockOf, FindEntry;
  }

  lemma NotHeld<V>(table: Table<V>, contents: map<nat, V>, k: nat, list: seq<Entry<V>>)
    requires Shaped(table) && Holds(table, contents) && list == List(table, BlockOf(k))
    requires forall i :: 0 <= i < |list| ==> list[i].key != k
    ensures k !in contents
  {
    hide List, BlockOf;
    FindNone(list, k);
    assert FindEntry(List(table, BlockOf(k)), k) == Lookup(contents, k);
  }
}
