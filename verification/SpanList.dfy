/** The circular doubly linked lists of spans, in place. */
module SpanLists {
  import opened Sequences

  class Span {
    var next: Span?
    var prev: Span?

    constructor ()
      ensures next == null && prev == null
    {
      next, prev := null, null;
    }
  }

  /** The ring of a list: its head and the spans after it. */
  ghost function Ring(head: Span, s: seq<Span>): (r: seq<Span>)
    ensures |r| == |s| + 1
  {
    [head] + s
  }

  ghost function After(i: nat, n: nat): nat
    requires i < n
  {
    if i + 1 == n then 0 else i + 1
  }

  /** The spans of q are linked in a circle, in that order. */
  ghost predicate Linked(q: seq<Span>)
    reads q
  {
    && NoDup(q)
    && forall i :: 0 <= i < |q| ==> q[i].next == q[After(i, |q|)] && q[After(i, |q|)].prev == q[i]
  }

  method Init(list: Span)
    modifies list
    ensures Linked(Ring(list, []))
  {
    list.next := list;
    list.prev := list;
  }

  /** The span becomes the first of the list; no other span than the two neighbours is
      written. */
  method Prepend(list: Span, span: Span, ghost s: seq<Span>)
    requires Linked(Ring(list, s)) && span !in Ring(list, s) && span.next == null && span.prev == null
    modifies span, list, list.next
    ensures Linked(Ring(list, [span] + s))
  {
    ghost var q := Ring(list, s);
    ghost var first := After(0, |q|);
    NoDupParts([list], s);
    NoDupPrepend(s, span);
    NoDupConcat([list], [span] + s);
    assert list == q[0] && list.next == q[first];
    span.next := list.next;
    span.prev := list;
    list.next.prev := span;
    list.next := span;
    ghost var r := Ring(list, [span] + s);
    forall i | 0 <= i < |r|
      ensures r[i].next == r[After(i, |r|)] && r[After(i, |r|)].prev == r[i]
    {
      if i >= 2 {
        assert r[i] == q[i - 1] && r[After(i, |r|)] == q[After(i - 1, |q|)];
      }
    }
  }

  /** The span leaves the list it is on; its neighbours close the gap. */
  method Remove(span: Span, ghost list: Span, ghost s: seq<Span>, ghost i: nat)
    requires Linked(Ring(list, s)) && i < |s| && s[i] == span
    modifies span, span.next, span.prev
    ensures Linked(Ring(list, s[..i] + s[i + 1..])) && span.next == null && span.prev == null
  {
    ghost var q := Ring(list, s);
    ghost var r := Ring(list, s[..i] + s[i + 1..]);
    ghost var p, n := i + 1, After(i + 1, |q|);
    assert q[p] == span && q[p - 1].next == q[After(p - 1, |q|)] && span.prev == q[p - 1] && span.next == q[n];
    RingWithout(list, s, i);
    span.prev.next := span.next;
    span.next.prev := span.prev;
    span.prev := null;
    span.next := null;
    forall k | 0 <= k < |r|
      ensures r[k].next == r[After(k, |r|)] && r[After(k, |r|)].prev == r[k]
    {
      var j := if k < p then k else k + 1;
      assert r[k] == q[j];
      assert r[After(k, |r|)] == q[if j + 1 == p then n else After(j, |q|)];
    }
  }

  /** The ring without the i-th span of the list. */
  lemma RingWithout(list: Span, s: seq<Span>, i: nat)
    requires i < |s| && NoDup(Ring(list, s))
    ensures var r := Ring(list, s[..i] + s[i + 1..]);
      NoDup(r) && |r| == |s| && forall k :: 0 <= k < |r| ==> r[k] == Ring(list, s)[if k <= i then k else k + 1]
  {
    var q := Ring(list, s);
    var r := Ring(list, s[..i] + s[i + 1..]);
    assert forall k :: 0 <= k < |r| ==> r[k] == q[if k <= i then k else k + 1];
  }

  /** The number of spans, by walking once around. */
  method Length(list: Span, ghost s: seq<Span>) returns (n: nat)
    requires Linked(Ring(list, s))
    ensures n == |s|
  {
    n := 0;
    ghost var q := Ring(list, s);
    assert q[0].next == q[After(0, |q|)];
    var span := list.next;
    while span != list
      invariant n <= |s| && span == q[After(n, |q|)]
      decreases |s| - n
    {
      assert q[n + 1].next == q[After(n + 1, |q|)];
      n := n + 1;
      span := span.next;
    }
    assert q[After(n, |q|)] == q[0];
  }
}
