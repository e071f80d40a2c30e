/** Duplicate-free sequences: what the circular span lists and object chains hold. */
module Sequences {

  ghost predicate NoDup<T>(q: seq<T>) {
    forall i, j :: 0 <= i < j < |q| ==> q[i] != q[j]
  }

  /** `q` without the first occurrence of `e`. */
  function Without<T(==)>(q: seq<T>, e: T): seq<T> {
    if q == [] then [] else if q[0] == e then q[1..] else [q[0]] + Without(q[1..], e)
  }

  lemma {:induction false} WithoutSpec<T>(q: seq<T>, e: T)
    requires NoDup(q)
    ensures NoDup(Without(q, e))
    ensures forall f :: f in Without(q, e) <==> f in q && f != e
    ensures |Without(q, e)| == |q| - (if e in q then 1 else 0)
  {
    if q == [] {
    } else if q[0] == e {
      assert q == [q[0]] + q[1..];
    } else {
      WithoutSpec(q[1..], e);
      assert q == [q[0]] + q[1..];
      assert q[0] !in q[1..];
    }
  }

  lemma NoDupNone<T>()
    ensures NoDup<T>([])
  {
  }

  lemma NoDupPrepend<T>(q: seq<T>, e: T)
    requires NoDup(q) && e !in q
    ensures NoDup([e] + q)
    ensures forall f :: f in [e] + q <==> f in q || f == e
  {
  }

  lemma NoDupTail<T>(q: seq<T>)
    requires NoDup(q) && q != []
    ensures NoDup(q[1..]) && q[0] !in q[1..]
    ensures forall f :: f in q[1..] <==> f in q && f != q[0]
  {
    assert q == [q[0]] + q[1..];
  }

  lemma NoDupConcat<T>(a: seq<T>, b: seq<T>)
    requires NoDup(a) && NoDup(b) && forall e :: e in a ==> e !in b
    ensures NoDup(a + b)
    ensures forall e :: e in a + b <==> e in a || e in b
  {
    forall i, j | 0 <= i < j < |a + b|
      ensures (a + b)[i] != (a + b)[j]
    {
      if i < |a| <= j {
        assert a[i] in a && b[j - |a|] in b;
      }
    }
  }

  lemma NoDupParts<T>(a: seq<T>, b: seq<T>)
    requires NoDup(a + b)
    ensures NoDup(a) && NoDup(b) && forall e :: e in a ==> e !in b
    ensures forall e :: e in a + b <==> e in a || e in b
  {
    forall i, j | 0 <= i < j < |b|
      ensures b[i] != b[j]
    {
      assert (a + b)[|a| + i] != (a + b)[|a| + j];
    }
    forall i, j | 0 <= i < j < |a|
      ensures a[i] != a[j]
    {
      assert (a + b)[i] != (a + b)[j];
    }
    forall e | e in a
      ensures e !in b
    {
      var i :| 0 <= i < |a| && a[i] == e;
      forall j | 0 <= j < |b|
        ensures b[j] != e
      {
        assert (a + b)[i] != (a + b)[|a| + j];
      }
    }
  }

  /** A duplicate-free sequence is as long as the set it lists is large. */
  lemma {:induction false} CountAll<T>(q: seq<T>, keys: set<T>)
    requires NoDup(q) && forall e :: e in q <==> e in keys
    ensures |q| == |keys|
  {
    if q == [] {
      assert keys == {};
    } else {
      assert q == [q[0]] + q[1..];
      assert q[0] !in q[1..];
      CountAll(q[1..], keys - {q[0]});
    }
  }
}
