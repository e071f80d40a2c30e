/** Ordered multimaps from numbers to identifiers, as the standard library keeps them. */
module Multimaps {
  import opened Sequences

  type Entry = (nat, nat)
  type Multimap = seq<Entry>

  predicate Sorted(entries: Multimap) {
    forall i, j :: 0 <= i < j < |entries| ==> entries[i].0 <= entries[j].0
  }

  /** An insertion goes behind the entries of the same key. */
  function Inserted(entries: Multimap, e: Entry): Multimap {
    if entries == [] || entries[|entries| - 1].0 <= e.0 then entries + [e]
    else Inserted(entries[..|entries| - 1], e) + [entries[|entries| - 1]]
  }

  lemma SortedAppend(entries: Multimap, e: Entry)
    requires Sorted(entries) && forall f :: f in entries ==> f.0 <= e.0
    ensures Sorted(entries + [e])
  {
  }

  lemma SortedInit(entries: Multimap)
    requires Sorted(entries) && entries != []
    ensures Sorted(entries[..|entries| - 1]) && forall f :: f in entries ==> f.0 <= entries[|entries| - 1].0
  {
  }

  lemma SortedPrepend(e: Entry, entries: Multimap)
    requires Sorted(entries) && forall f :: f in entries ==> e.0 <= f.0
    ensures Sorted([e] + entries)
  {
    var q := [e] + entries;
    forall i, j | 0 <= i < j < |q|
      ensures q[i].0 <= q[j].0
    {
      assert q[j] == entries[j - 1];
      if i > 0 {
        assert q[i] == entries[i - 1];
      }
    }
  }

  lemma SortedTail(entries: Multimap)
    requires Sorted(entries) && entries != []
    ensures Sorted(entries[1..]) && forall f :: f in entries[1..] ==> entries[0].0 <= f.0
  {
  }

  lemma NoDupOne<T>(e: T)
    ensures NoDup([e])
  {
  }

  lemma {:induction false} InsertedOk(entries: Multimap, e: Entry)
    requires NoDup(entries) && Sorted(entries) && e !in entries
    ensures NoDup(Inserted(entries, e)) && Sorted(Inserted(entries, e))
    ensures forall f :: f in Inserted(entries, e) <==> f in entries || f == e
  {
    hide NoDup, Sorted;
    if entries == [] {
      assert entries + [e] == [e];
      NoDupOne(e);
      SortedAppend(entries, e);
    } else {
      var n := |entries| - 1;
      SortedInit(entries);
      assert entries == entries[..n] + [entries[n]];
      NoDupParts(entries[..n], [entries[n]]);
      if entries[n].0 <= e.0 {
        NoDupOne(e);
        NoDupConcat(entries, [e]);
        SortedAppend(entries, e);
      } else {
        InsertedOk(entries[..n], e);
        NoDupConcat(Inserted(entries[..n], e), [entries[n]]);
        SortedAppend(Inserted(entries[..n], e), entries[n]);
      }
    }
  }

  lemma {:induction false} SortedWithout(entries: Multimap, e: Entry)
    requires Sorted(entries)
    ensures Sorted(Without(entries, e)) && forall f :: f in Without(entries, e) ==> f in entries
  {
    hide Sorted;
    if entries != [] {
      SortedTail(entries);
      if entries[0] != e {
        SortedWithout(entries[1..], e);
        SortedPrepend(entries[0], Without(entries[1..], e));
      }
    }
  }

  /** The loop over an equal range that erases one entry. */
  method Erase(entries: Multimap, e: Entry) returns (r: Multimap)
    ensures r == Without(entries, e)
  {
    var i := 0;
    while i < |entries| && entries[i] != e
      invariant i <= |entries| && forall j :: 0 <= j < i ==> entries[j] != e
    {
      i := i + 1;
    }
    WithoutFirst(entries, e, i);
    r := entries;
    if i < |entries| {
      r := entries[..i] + entries[i + 1..];
    }
  }

  lemma {:induction false} WithoutFirst(entries: Multimap, e: Entry, i: nat)
    requires i <= |entries| && (forall j :: 0 <= j < i ==> entries[j] != e) && (i < |entries| ==> entries[i] == e)
    ensures Without(entries, e) == if i < |entries| then entries[..i] + entries[i + 1..] else entries
  {
    if 0 < i {
      WithoutFirst(entries[1..], e, i - 1);
      if i < |entries| {
        assert entries[..i] == [entries[0]] + entries[1..][..i - 1];
        assert entries[i + 1..] == entries[1..][i..];
      }
    }
  }
}
