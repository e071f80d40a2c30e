/** Sizes of finite sets and sums over them. */
module FiniteSets {

  lemma {:induction false} SubsetSize<T>(s: set<T>, t: set<T>)
    requires s <= t
    ensures |s| <= |t|
    decreases s
  {
    if s != {} {
      var u :| u in s;
      SubsetSize(s - {u}, t - {u});
    }
  }

  /** The sizes of the elements of s together. */
  ghost function Sum(size: map<nat, nat>, s: set<nat>): nat
    requires s <= size.Keys
  {
    if s == {} then 0 else var t :| t in s; size[t] + Sum(size, s - {t})
  }

  lemma {:induction false} SumWithout(size: map<nat, nat>, s: set<nat>, t: nat)
    requires s <= size.Keys && t in s
    ensures Sum(size, s) == size[t] + Sum(size, s - {t})
    decreases s
  {
    var u :| u in s && Sum(size, s) == size[u] + Sum(size, s - {u});
    if u != t {
      SumWithout(size, s - {u}, t);
      SumWithout(size, s - {t}, u);
      assert s - {u} - {t} == s - {t} - {u};
    }
  }

  lemma {:induction false} SumSame(a: map<nat, nat>, b: map<nat, nat>, s: set<nat>)
    requires s <= a.Keys && s <= b.Keys && forall t :: t in s ==> a[t] == b[t]
    ensures Sum(a, s) == Sum(b, s)
    decreases s
  {
    if s != {} {
      var t :| t in s;
      SumWithout(a, s, t);
      SumWithout(b, s, t);
      SumSame(a, b, s - {t});
    }
  }

  lemma {:induction false} SumUnion(size: map<nat, nat>, s: set<nat>, t: set<nat>)
    requires s <= size.Keys && t <= size.Keys && s !! t
    ensures Sum(size, s + t) == Sum(size, s) + Sum(size, t)
    decreases t
  {
    if t == {} {
      assert s + t == s;
    } else {
      var u :| u in t;
      SumWithout(size, t, u);
      SumWithout(size, s + t, u);
      SumUnion(size, s, t - {u});
      assert s + t - {u} == s + (t - {u});
    }
  }
}
