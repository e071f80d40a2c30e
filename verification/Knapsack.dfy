/** The table by which StopGap fills a gap: among the candidates it chooses the ones
    that fill most of the gap and, among those, the fewest. */
module Knapsack {

  /** Total weight of the chosen candidates among the first i. */
  ghost function Weight(c: seq<nat>, s: set<nat>, i: nat): nat
    requires i <= |c|
  {
    if i == 0 then 0 else Weight(c, s, i - 1) + if i - 1 in s then c[i - 1] else 0
  }

  datatype Solution = Solution(value: nat, items: set<nat>)

  /** sol_t's order: less value, or the same value from more items. */
  predicate Less(a: Solution, b: Solution) {
    if a.value == b.value then |a.items| > |b.items| else a.value < b.value
  }

  ghost predicate Fits(c: seq<nat>, i: nat, w: nat, s: set<nat>)
    requires i <= |c|
  {
    (forall j :: j in s ==> j < i) && Weight(c, s, i) <= w
  }

  /** No choice s of weight at most w beats sol. */
  ghost predicate Unbeaten(c: seq<nat>, i: nat, w: nat, sol: Solution, s: set<nat>)
    requires i <= |c|
  {
    Fits(c, i, w, s) ==> Weight(c, s, i) < sol.value || (Weight(c, s, i) == sol.value && |s| >= |sol.items|)
  }

  /** sol is realised by its items, and is the best choice among the first i
      candidates of total weight at most w. */
  ghost predicate Optimal(c: seq<nat>, i: nat, w: nat, sol: Solution)
    requires i <= |c|
  {
    && Fits(c, i, w, sol.items) && Weight(c, sol.items, i) == sol.value
    && forall s :: Unbeaten(c, i, w, sol, s)
  }

  lemma {:induction false} WeightSame(c: seq<nat>, s: set<nat>, t: set<nat>, i: nat)
    requires i <= |c| && forall j :: j < i ==> (j in s <==> j in t)
    ensures Weight(c, s, i) == Weight(c, t, i)
  {
    if i > 0 {
      WeightSame(c, s, t, i - 1);
    }
  }

  lemma {:induction false} EmptyWeight(c: seq<nat>, i: nat)
    requires i <= |c|
    ensures Weight(c, {}, i) == 0
  {
    if i > 0 {
      EmptyWeight(c, i - 1);
    }
  }

  lemma NothingOptimal(c: seq<nat>, i: nat, w: nat)
    requires i <= |c| && (i == 0 || w == 0)
    ensures Optimal(c, i, w, Solution(0, {}))
  {
    EmptyWeight(c, i);
  }

  /** Candidate i joins a choice among the earlier ones. */
  function Added(sol: Solution, i: nat, weight: nat): Solution {
    Solution(sol.value + weight, sol.items + {i})
  }

  lemma Joined(c: seq<nat>, i: nat, w: nat, s: set<nat>)
    requires i < |c| && c[i] <= w && Fits(c, i, w - c[i], s)
    ensures Fits(c, i + 1, w, s + {i}) && Weight(c, s + {i}, i + 1) == Weight(c, s, i) + c[i] && |s + {i}| == |s| + 1
  {
    WeightSame(c, s, s + {i}, i);
  }

  lemma Dropped(c: seq<nat>, i: nat, w: nat, s: set<nat>)
    requires i < |c| && Fits(c, i + 1, w, s) && i in s
    ensures c[i] <= w && Fits(c, i, w - c[i], s - {i})
    ensures Weight(c, s, i + 1) == Weight(c, s - {i}, i) + c[i] && |s - {i}| == |s| - 1
  {
    WeightSame(c, s, s - {i}, i);
  }

  /** A choice that leaves candidate i out is beaten by the entry above. */
  lemma UnbeatenWithout(c: seq<nat>, i: nat, w: nat, above: Solution, s: set<nat>)
    requires i < |c| && Optimal(c, i, w, above) && i !in s
    ensures Unbeaten(c, i + 1, w, above, s)
  {
    assert Unbeaten(c, i, w, above, s);
  }

  lemma UnbeatenWith(c: seq<nat>, i: nat, w: nat, left: Solution, s: set<nat>)
    requires i < |c| && c[i] <= w && Optimal(c, i, w - c[i], left) && i in s
    ensures Unbeaten(c, i + 1, w, Added(left, i, c[i]), s)
  {
    Joined(c, i, w, left.items);
    if Fits(c, i + 1, w, s) {
      Dropped(c, i, w, s);
      assert Unbeaten(c, i, w - c[i], left, s - {i});
    }
  }

  lemma UnbeatenLess(c: seq<nat>, i: nat, w: nat, a: Solution, b: Solution, s: set<nat>)
    requires i <= |c| && Unbeaten(c, i, w, a, s) && !Less(b, a)
    ensures Unbeaten(c, i, w, b, s)
  {
  }

  /** The recurrence: the better of leaving candidate i out and taking it. */
  lemma Recurrence(c: seq<nat>, i: nat, w: nat, above: Solution, left: Solution, sol: Solution)
    requires i < |c| && Optimal(c, i, w, above)
    requires c[i] <= w ==> Optimal(c, i, w - c[i], left)
    requires sol == if c[i] <= w && Less(above, Added(left, i, c[i])) then Added(left, i, c[i]) else above
    ensures Optimal(c, i + 1, w, sol)
  {
    hide Unbeaten;
    var k := i + 1;
    if c[i] <= w {
      Joined(c, i, w, left.items);
    }
    forall s
      ensures Unbeaten(c, k, w, sol, s)
    {
      if i !in s {
        UnbeatenWithout(c, i, w, above, s);
        UnbeatenLess(c, k, w, above, sol, s);
      } else if c[i] <= w {
        UnbeatenWith(c, i, w, left, s);
        UnbeatenLess(c, k, w, Added(left, i, c[i]), sol, s);
      } else {
        TooHeavy(c, i, w, sol, s);
      }
    }
  }

  lemma TooHeavy(c: seq<nat>, i: nat, w: nat, sol: Solution, s: set<nat>)
    requires i < |c| && c[i] > w && i in s
    ensures Unbeaten(c, i + 1, w, sol, s)
  {
  }

  /** The whole table; entry [i, w] is the best choice among the first i candidates. */
  method Fill(c: seq<nat>, n: nat) returns (table: array2<Solution>)
    ensures fresh(table) && table.Length0 == |c| + 1 && table.Length1 == n + 1
    ensures forall i, w :: 0 <= i <= |c| && 0 <= w <= n ==> Optimal(c, i, w, table[i, w])
  {
    hide Optimal, Less, Added;
    table := new Solution[|c| + 1, n + 1]((i, w) => Solution(0, {}));
    forall i, w | 0 <= i <= |c| && 0 <= w <= n && (i == 0 || w == 0)
      ensures Optimal(c, i, w, table[i, w])
    {
      NothingOptimal(c, i, w);
    }
    for i := 0 to |c|
      invariant forall a, w :: 0 <= a <= |c| && 0 <= w <= n && (a <= i || w == 0) ==> Optimal(c, a, w, table[a, w])
    {
      for w := 1 to n + 1
        invariant forall a, v :: 0 <= a <= |c| && 0 <= v <= n && (a <= i || v == 0 || (a == i + 1 && v < w)) ==>
          Optimal(c, a, v, table[a, v])
      {
        var above := table[i, w];
        var sol := above;
        ghost var left := above;
        if c[i] <= w {
          left := table[i, w - c[i]];
          var candsol := Added(table[i, w - c[i]], i, c[i]);
          if Less(above, candsol) {
            sol := candsol;
          }
        }
        Recurrence(c, i, w, above, left, sol);
        table[i + 1, w] := sol;
      }
    }
  }
}
