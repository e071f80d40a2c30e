/** How StopGap chooses the files to move into a gap: a perfect fit, or else large
    files greedily and a best-fitting combination of small candidates. */
module FileChoice {
  import opened Options
  import opened Sequences
  import opened Knapsack

  const MAXLEN := 256
  const PER_SIZE := 4

  /** A file as the index by size holds it; lcn is where its first block starts. */
  datatype File = File(clusters: nat, id: nat, lcn: nat)

  function Total(files: seq<File>): nat {
    if files == [] then 0 else Total(files[..|files| - 1]) + files[|files| - 1].clusters
  }

  lemma {:induction false} TotalConcat(a: seq<File>, b: seq<File>)
    ensures Total(a + b) == Total(a) + Total(b)
  {
    if b == [] {
      assert a + b == a;
    } else {
      var n := |b| - 1;
      assert (a + b)[..|a + b| - 1] == a + b[..n];
      TotalConcat(a, b[..n]);
    }
  }

  predicate Ordered(buckets: seq<File>) {
    forall i, j :: 0 <= i < j < |buckets| ==> buckets[i].clusters <= buckets[j].clusters
  }

  // --------------------------------------------------------------- perfect fit

  predicate Fit(f: File, lcn: nat, length: nat) {
    f.clusters == length && f.lcn > lcn
  }

  ghost predicate NoFit(buckets: seq<File>, lcn: nat, length: nat) {
    forall f :: f in buckets ==> !Fit(f, lcn, length)
  }

  ghost predicate LastFit(buckets: seq<File>, lcn: nat, length: nat, p: File) {
    p in buckets && Fit(p, lcn, length) && forall f :: f in buckets && Fit(f, lcn, length) ==> f.lcn <= p.lcn
  }

  /** The file of exactly the gap's size that starts last, if one starts behind it. */
  method Perfect(buckets: seq<File>, lcn: nat, length: nat) returns (p: Option<File>)
    ensures p.None? ==> NoFit(buckets, lcn, length)
    ensures p.Some? ==> LastFit(buckets, lcn, length, p.value)
  {
    p := None;
    for i := 0 to |buckets|
      invariant p.None? ==> NoFit(buckets[..i], lcn, length)
      invariant p.Some? ==> LastFit(buckets[..i], lcn, length, p.value)
    {
      assert buckets[..i + 1] == buckets[..i] + [buckets[i]];
      if buckets[i].clusters == length && buckets[i].lcn > lcn {
        if p.None? || p.value.lcn < buckets[i].lcn {
          p := Some(buckets[i]);
        }
      }
    }
    assert buckets[..|buckets|] == buckets;
  }

  // ---------------------------------------------------------------- candidates

  /** Candidates are kept largest first; an insertion goes behind its equals. */
  function Inserted(known: seq<File>, f: File): seq<File> {
    if known == [] || known[|known| - 1].clusters >= f.clusters then known + [f]
    else Inserted(known[..|known| - 1], f) + [known[|known| - 1]]
  }

  function CountSize(known: seq<File>, n: nat): nat {
    if known == [] then 0 else CountSize(known[1..], n) + if known[0].clusters == n then 1 else 0
  }

  /** The first candidate of f's size that starts before f, or the end. */
  function Weaker(known: seq<File>, f: File): (i: nat)
    ensures i <= |known|
    ensures forall j :: 0 <= j < i ==> !(known[j].clusters == f.clusters && known[j].lcn < f.lcn)
    ensures i < |known| ==> known[i].clusters == f.clusters && known[i].lcn < f.lcn
  {
    if known == [] then 0
    else if known[0].clusters == f.clusters && known[0].lcn < f.lcn then 0
    else
      var k := Weaker(known[1..], f);
      assert forall j :: 1 <= j < k + 1 ==> known[j] == known[1..][j - 1];
      k + 1
  }

  function Widened(known: seq<File>, f: File): seq<File> {
    if CountSize(known, f.clusters) < PER_SIZE then Inserted(known, f) else known
  }

  /** One more file is considered: it is added while there are few of its size, and
      then takes the place of a candidate that starts before it. */
  function Considered(known: seq<File>, f: File): seq<File> {
    var w := Widened(known, f);
    var i := Weaker(w, f);
    if i < |w| then Inserted(w[..i] + w[i + 1..], f) else w
  }

  method Insert(known: seq<File>, f: File) returns (r: seq<File>)
    ensures r == Inserted(known, f)
  {
    var j := |known|;
    assert known[..j] == known && known == known + known[j..];
    while j > 0 && known[j - 1].clusters < f.clusters
      invariant 0 <= j <= |known|
      invariant Inserted(known, f) == Inserted(known[..j], f) + known[j..]
    {
      assert known[..j][..j - 1] == known[..j - 1];
      assert known[j - 1..] == [known[j - 1]] + known[j..];
      j := j - 1;
    }
    r := known[..j] + [f] + known[j..];

  }

  method Count(known: seq<File>, n: nat) returns (k: nat)
    ensures k == CountSize(known, n)
  {
    k := 0;
    for i := 0 to |known|
      invariant k + CountSize(known[i..], n) == CountSize(known, n)
    {
      assert known[i..][1..] == known[i + 1..];
      if known[i].clusters == n {
        k := k + 1;
      }
    }
  }

  method Consider(known: seq<File>, f: File) returns (r: seq<File>)
    ensures r == Considered(known, f)
  {
    r := known;
    var k := Count(known, f.clusters);
    if (f.clusters < 4 && k < 1) || k < 4 {
      r := Insert(known, f);
    }
    var w := r;
    for i := 0 to |w|
      invariant r == w
      invariant forall j :: 0 <= j < i ==> !(w[j].clusters == f.clusters && w[j].lcn < f.lcn)
    {
      if r[i].clusters != f.clusters || r[i].lcn >= f.lcn {
        continue;
      }
      assert Weaker(w, f) == i;
      r := Insert(r[..i] + r[i + 1..], f);
      return;
    }
  }

  // -------------------------------------------------------- the pass over files

  datatype Gathering = Gathering(chosen: seq<File>, known: seq<File>, length: nat)

  /** One step of the pass: while much of the gap is left a file that fits is taken at
      once, later it only becomes a candidate. */
  function Visited(g: Gathering, f: File, lcn: nat): Gathering {
    if g.length == 0 || f.clusters > g.length || f.lcn <= lcn then g
    else if g.length > MAXLEN then Gathering(g.chosen + [f], g.known, g.length - f.clusters)
    else g.(known := Considered(g.known, f))
  }

  /** The pass from entry n - 1 down to the first. */
  function Gathered(buckets: seq<File>, n: nat, lcn: nat, g: Gathering): Gathering
    requires n <= |buckets|
  {
    if n == 0 then g else Gathered(buckets, n - 1, lcn, Visited(g, buckets[n - 1], lcn))
  }

  lemma {:induction false} Fulfilled(buckets: seq<File>, n: nat, lcn: nat, g: Gathering)
    requires n <= |buckets| && g.length == 0
    ensures Gathered(buckets, n, lcn, g) == g
  {
    if n > 0 {
      Fulfilled(buckets, n - 1, lcn, g);
    }
  }

  /** Entries larger than the gap change nothing, so the pass may start below them. */
  lemma {:induction false} TooLarge(buckets: seq<File>, n: nat, m: nat, lcn: nat, g: Gathering)
    requires n <= m <= |buckets| && forall i :: n <= i < m ==> buckets[i].clusters > g.length
    ensures Gathered(buckets, m, lcn, g) == Gathered(buckets, n, lcn, g)
  {
    if m > n {
      TooLarge(buckets, n, m - 1, lcn, g);
    }
  }

  method Gather(buckets: seq<File>, lcn: nat, length: nat) returns (chosen: seq<File>, known: seq<File>, rest: nat)
    requires Ordered(buckets)
    ensures Gathering(chosen, known, rest) == Gathered(buckets, |buckets|, lcn, Gathering([], [], length))
    ensures Greedy(chosen, buckets, lcn, length) && Exhausted(Gathering(chosen, known, rest), buckets, lcn)
  {
    hide Considered, Greedy, Exhausted;
    PassMisses(buckets, lcn, length);
    chosen, known, rest := [], [], length;
    var i := |buckets|;
    while i > 0 && buckets[i - 1].clusters > length
      invariant 0 <= i <= |buckets| && forall j :: i <= j < |buckets| ==> buckets[j].clusters > length
    {
      i := i - 1;
    }
    ghost var whole := Gathered(buckets, |buckets|, lcn, Gathering([], [], length));
    TooLarge(buckets, i, |buckets|, lcn, Gathering([], [], length));
    while i > 0
      invariant 0 <= i <= |buckets| && Gathered(buckets, i, lcn, Gathering(chosen, known, rest)) == whole
    {
      i := i - 1;
      var f := buckets[i];
      if rest == 0 {
        Fulfilled(buckets, i + 1, lcn, Gathering(chosen, known, rest));
        return;
      }
      if f.clusters > rest {
        continue;
      }
      if f.lcn <= lcn {
        continue;
      }
      if rest > MAXLEN {
        if rest >= f.clusters {
          chosen := chosen + [f];
          rest := rest - f.clusters;
        }
        continue;
      }
      known := Consider(known, f);
    }
  }

  /** What holds throughout the pass over a gap of the given position and length. */
  ghost predicate Sound(g: Gathering, buckets: seq<File>, lcn: nat, length: nat) {
    && Total(g.chosen) + g.length == length
    && (forall f :: f in g.chosen ==> f in buckets && f.lcn > lcn)
    && (forall f :: f in g.known ==> f in buckets && f.lcn > lcn && f.clusters <= g.length)
    && (g.known != [] ==> g.length <= MAXLEN)
    && (forall n :: CountSize(g.known, n) <= PER_SIZE)
  }

  lemma {:induction false} CountSizeConcat(a: seq<File>, b: seq<File>, n: nat)
    ensures CountSize(a + b, n) == CountSize(a, n) + CountSize(b, n)
  {
    if a == [] {
      assert a + b == b;
    } else {
      assert (a + b)[1..] == a[1..] + b;
      CountSizeConcat(a[1..], b, n);
    }
  }

  lemma {:induction false} InsertedCount(known: seq<File>, f: File, n: nat)
    ensures CountSize(Inserted(known, f), n) == CountSize(known, n) + if f.clusters == n then 1 else 0
  {
    if known == [] || known[|known| - 1].clusters >= f.clusters {
      CountSizeConcat(known, [f], n);
    } else {
      var k := |known| - 1;
      InsertedCount(known[..k], f, n);
      CountSizeConcat(Inserted(known[..k], f), [known[k]], n);
      CountSizeConcat(known[..k], [known[k]], n);
      assert known == known[..k] + [known[k]];
    }
  }

  /** A candidate makes room for one of its own size, so sizes keep their counts. */
  lemma ConsideredCount(known: seq<File>, f: File, n: nat)
    requires CountSize(known, n) <= PER_SIZE
    ensures CountSize(Considered(known, f), n) <= PER_SIZE
  {
    var w := Widened(known, f);
    InsertedCount(known, f, n);
    var i := Weaker(w, f);
    if i < |w| {
      assert w == w[..i] + ([w[i]] + w[i + 1..]);
      CountSizeConcat(w[..i], [w[i]] + w[i + 1..], n);
      CountSizeConcat([w[i]], w[i + 1..], n);
      CountSizeConcat(w[..i], w[i + 1..], n);
      InsertedCount(w[..i] + w[i + 1..], f, n);
    }
  }

  lemma {:induction false} InsertedMembers(known: seq<File>, f: File)
    ensures forall x :: x in Inserted(known, f) <==> x in known || x == f
  {
    if known != [] && known[|known| - 1].clusters < f.clusters {
      InsertedMembers(known[..|known| - 1], f);
      assert known == known[..|known| - 1] + [known[|known| - 1]];
    }
  }

  lemma ConsideredMembers(known: seq<File>, f: File, x: File)
    requires x in Considered(known, f)
    ensures x in known || x == f
  {
    hide Inserted, Weaker;
    var w := Widened(known, f);
    InsertedMembers(known, f);
    var i := Weaker(w, f);
    if i < |w| {
      InsertedMembers(w[..i] + w[i + 1..], f);
    }
  }

  lemma VisitedSound(g: Gathering, f: File, buckets: seq<File>, lcn: nat, length: nat)
    requires Sound(g, buckets, lcn, length) && f in buckets
    ensures Sound(Visited(g, f, lcn), buckets, lcn, length)
  {
    hide Considered, CountSize;
    TotalConcat(g.chosen, [f]);
    assert Total([f]) == f.clusters;
    forall n
      ensures CountSize(Considered(g.known, f), n) <= PER_SIZE
    {
      ConsideredCount(g.known, f, n);
    }
    forall x | x in Considered(g.known, f)
      ensures x in g.known || x == f
    {
      ConsideredMembers(g.known, f, x);
    }
  }

  lemma {:induction false} GatheredSound(buckets: seq<File>, n: nat, lcn: nat, g: Gathering, length: nat)
    requires n <= |buckets| && Sound(g, buckets, lcn, length)
    ensures Sound(Gathered(buckets, n, lcn, g), buckets, lcn, length)
  {
    hide Sound, Visited;
    if n > 0 {
      VisitedSound(g, buckets[n - 1], buckets, lcn, length);
      GatheredSound(buckets, n - 1, lcn, Visited(g, buckets[n - 1], lcn), length);
    }
  }

  // What the pass does not miss.

  /** A candidate of f's size starts no earlier than f. */
  ghost predicate Matched(files: seq<File>, f: File) {
    exists k :: k in files && k.clusters == f.clusters && k.lcn >= f.lcn
  }

  /** Of the files seen that would fit into what is left, all were taken, or, once little
      is left, a candidate stands for each. */
  ghost predicate Exhausted(g: Gathering, seen: seq<File>, lcn: nat) {
    forall f :: f in seen && f.lcn > lcn && f.clusters <= g.length && g.length > 0 ==>
      f in g.chosen || (g.length <= MAXLEN && Matched(g.known, f))
  }

  /** Every file taken is a largest one that fits, and is taken while much is left. */
  ghost predicate Greedy(chosen: seq<File>, files: seq<File>, lcn: nat, length: nat) {
    forall i :: 0 <= i < |chosen| ==> Largest(chosen, i, files, lcn, length)
  }

  ghost predicate Largest(chosen: seq<File>, i: nat, files: seq<File>, lcn: nat, length: nat)
    requires i < |chosen|
  {
    var rest := length - Total(chosen[..i]);
    && rest > MAXLEN && chosen[i].clusters <= rest
    && forall f :: f in files && f.lcn > lcn && chosen[i].clusters < f.clusters <= rest ==> f in chosen[..i]
  }

  lemma {:induction false} CountedMember(known: seq<File>, n: nat) returns (k: File)
    requires CountSize(known, n) > 0
    ensures k in known && k.clusters == n
  {
    if known[0].clusters == n {
      k := known[0];
    } else {
      k := CountedMember(known[1..], n);
    }
  }

  lemma ConsideredMatches(known: seq<File>, f: File, x: File)
    requires x == f || Matched(known, x)
    ensures Matched(Considered(known, f), x)
  {
    hide Inserted, CountSize;
    var w := Widened(known, f);
    var i := Weaker(w, f);
    InsertedMembers(known, f);
    if x == f && f !in w {
      var k := CountedMember(known, f.clusters);
      assert k in w;
    }
    if i < |w| {
      InsertedMembers(w[..i] + w[i + 1..], f);
      if x != f {
        var k :| k in known && k.clusters == x.clusters && k.lcn >= x.lcn;
        assert k in w;
        assert k == w[i] || k in w[..i] + w[i + 1..];
      }
    } else if x != f {
      var k :| k in known && k.clusters == x.clusters && k.lcn >= x.lcn;
      assert k in w;
    }
  }

  lemma VisitedExhausts(g: Gathering, f: File, seen: seq<File>, lcn: nat)
    requires Exhausted(g, seen, lcn)
    ensures Exhausted(Visited(g, f, lcn), [f] + seen, lcn)
  {
    hide Considered, Matched;
    var g' := Visited(g, f, lcn);
    forall x | x in [f] + seen && x.lcn > lcn && x.clusters <= g'.length && g'.length > 0
      ensures x in g'.chosen || (g'.length <= MAXLEN && Matched(g'.known, x))
    {
      if x != f {
        assert x in seen;
      }
      if x !in g.chosen && g.length <= MAXLEN && f.clusters <= g.length && f.lcn > lcn {
        ConsideredMatches(g.known, f, x);
      }
    }
  }

  lemma {:induction false} GatheredExhausts(buckets: seq<File>, n: nat, lcn: nat, g: Gathering)
    requires n <= |buckets| && Exhausted(g, buckets[n..], lcn)
    ensures Exhausted(Gathered(buckets, n, lcn, g), buckets, lcn)
  {
    hide Exhausted, Visited;
    if n == 0 {
      assert buckets[0..] == buckets;
    } else {
      VisitedExhausts(g, buckets[n - 1], buckets[n..], lcn);
      assert [buckets[n - 1]] + buckets[n..] == buckets[n - 1..];
      GatheredExhausts(buckets, n - 1, lcn, Visited(g, buckets[n - 1], lcn));
    }
  }

  lemma VisitedGreedy(g: Gathering, buckets: seq<File>, n: nat, lcn: nat, length: nat)
    requires Ordered(buckets) && n < |buckets| && Exhausted(g, buckets[n + 1..], lcn)
    requires Greedy(g.chosen, buckets, lcn, length) && Total(g.chosen) + g.length == length
    ensures Greedy(Visited(g, buckets[n], lcn).chosen, buckets, lcn, length)
  {
    hide Considered, Total, Matched;
    var f := buckets[n];
    var chosen := g.chosen + [f];
    if g.length > MAXLEN && f.clusters <= g.length && f.lcn > lcn {
      forall i | 0 <= i < |chosen|
        ensures Largest(chosen, i, buckets, lcn, length)
      {
        if i < |g.chosen| {
          assert Largest(g.chosen, i, buckets, lcn, length);
          assert chosen[..i] == g.chosen[..i];
        } else {
          assert chosen[..i] == g.chosen;
          forall x | x in buckets && x.lcn > lcn && f.clusters < x.clusters <= g.length
            ensures x in g.chosen
          {
            var j :| 0 <= j < |buckets| && buckets[j] == x;
            assert j > n && buckets[n + 1..][j - n - 1] == x;
          }
        }
      }
    }
  }

  lemma {:induction false} GatheredGreedy(buckets: seq<File>, n: nat, lcn: nat, g: Gathering, length: nat)
    requires Ordered(buckets) && n <= |buckets| && Exhausted(g, buckets[n..], lcn)
    requires Greedy(g.chosen, buckets, lcn, length) && Sound(g, buckets, lcn, length)
    ensures Greedy(Gathered(buckets, n, lcn, g).chosen, buckets, lcn, length)
  {
    if n > 0 {
      var g' := Visited(g, buckets[n - 1], lcn);
      VisitedGreedy(g, buckets, n - 1, lcn, length);
      VisitedSound(g, buckets[n - 1], buckets, lcn, length);
      VisitedExhausts(g, buckets[n - 1], buckets[n..], lcn);
      hide Exhausted, Visited, Greedy, Sound;
      assert [buckets[n - 1]] + buckets[n..] == buckets[n - 1..];
      GatheredGreedy(buckets, n - 1, lcn, g', length);
    }
  }

  // ---------------------------------------------------- combining candidates

  function Clusters(cands: seq<File>): (c: seq<nat>)
    ensures |c| == |cands| && forall i :: 0 <= i < |c| ==> c[i] == cands[i].clusters
  {
    seq(|cands|, i requires 0 <= i < |cands| => cands[i].clusters)
  }

  /** The chosen ones among the first i candidates, in their order. */
  function Picked(cands: seq<File>, items: set<nat>, i: nat): seq<File>
    requires i <= |cands|
  {
    if i == 0 then []
    else if i - 1 in items then Picked(cands, items, i - 1) + [cands[i - 1]]
    else Picked(cands, items, i - 1)
  }

  lemma {:induction false} PickedTotal(cands: seq<File>, items: set<nat>, i: nat)
    requires i <= |cands|
    ensures Total(Picked(cands, items, i)) == Weight(Clusters(cands), items, i)
    ensures forall f :: f in Picked(cands, items, i) ==> f in cands
  {
    if i > 0 {
      PickedTotal(cands, items, i - 1);
      TotalConcat(Picked(cands, items, i - 1), [cands[i - 1]]);
      TotalOne(cands[i - 1]);
    }
  }

  /** items is a choice that fills as much of the gap as any other, and of several
      candidates as few as possible. */
  ghost predicate Choice(cands: seq<File>, length: nat, items: set<nat>) {
    var c := Clusters(cands);
    && Fits(c, |c|, length, items)
    && (forall s :: Fits(c, |c|, length, s) ==> Weight(c, s, |c|) <= Weight(c, items, |c|))
    && (|c| > 1 ==> Optimal(c, |c|, length, Solution(Weight(c, items, |c|), items)))
  }

  function Combined(chosen: seq<File>, cands: seq<File>, length: nat, partialOK: bool, items: set<nat>): seq<File> {
    var picked := Picked(cands, items, |cands|);
    if partialOK || Total(picked) == length then chosen + picked else []
  }

  lemma OptimalChoice(cands: seq<File>, length: nat, sol: Solution)
    requires Optimal(Clusters(cands), |cands|, length, sol)
    ensures Choice(cands, length, sol.items)
  {
    var c := Clusters(cands);
    forall s | Fits(c, |c|, length, s)
      ensures Weight(c, s, |c|) <= Weight(c, sol.items, |c|)
    {
      assert Unbeaten(c, |c|, length, sol, s);
    }
  }

  lemma FewChoice(cands: seq<File>, length: nat)
    requires |cands| <= 1 && forall f :: f in cands ==> f.clusters <= length
    ensures var items: set<nat> := if cands == [] then {} else {0};
      && Choice(cands, length, items)
      && Picked(cands, items, |cands|) == cands && Total(cands) == if cands == [] then 0 else cands[0].clusters
  {
    var c := Clusters(cands);
    if cands != [] {
      assert cands == [cands[0]] && cands[..0] == [];
      assert Picked(cands, {0}, 0) == [];
      assert Weight(c, {0}, 1) == Weight(c, {0}, 0) + c[0];
      forall s
        ensures Weight(c, s, 1) <= c[0]
      {
        assert Weight(c, s, 1) == Weight(c, s, 0) + if 0 in s then c[0] else 0;
      }
    }
  }

  /** Reads the chosen candidates off the bit set in ascending order. */
  method Pick(cands: seq<File>, items: set<nat>) returns (picked: seq<File>)
    ensures picked == Picked(cands, items, |cands|)
  {
    picked := [];
    for i := 0 to |cands|
      invariant picked == Picked(cands, items, i)
    {
      if i in items {
        picked := picked + [cands[i]];
      }
    }
  }

  method Combine(chosen: seq<File>, cands: seq<File>, length: nat, partialOK: bool) returns (rvs: seq<File>)
    requires length > 0 && forall f :: f in cands ==> f.clusters <= length
    ensures exists items :: Choice(cands, length, items) && rvs == Combined(chosen, cands, length, partialOK, items)
  {
    hide Choice, Optimal, Picked, Clusters, Total;
    ghost var items: set<nat> := {};
    if |cands| <= 1 {
      FewChoice(cands, length);
    }
    if |cands| == 0 {
      return if partialOK then chosen else [];
    }
    if |cands| == 1 {
      items := {0};
      if cands[0].clusters == length {
        return chosen + [cands[0]];
      } else if partialOK {
        if cands[0].clusters <= length {
          return chosen + [cands[0]];
        }
      } else {
        return [];
      }
    }
    var table := Fill(Clusters(cands), length);
    var solution := table[|cands|, length];
    items := solution.items;
    OptimalChoice(cands, length, solution);
    PickedTotal(cands, items, |cands|);
    OptimalValue(Clusters(cands), |cands|, length, solution);
    if !partialOK && solution.value != length {
      return [];
    }
    var picked := Pick(cands, solution.items);
    rvs := chosen + picked;
  }

  lemma OptimalValue(c: seq<nat>, i: nat, w: nat, sol: Solution)
    requires i <= |c| && Optimal(c, i, w, sol)
    ensures sol.value == Weight(c, sol.items, i)
  {
  }

  // ------------------------------------------------------------------ the whole

  ghost function Pass(buckets: seq<File>, lcn: nat, length: nat): Gathering {
    Gathered(buckets, |buckets|, lcn, Gathering([], [], length))
  }

  ghost predicate Outcome(buckets: seq<File>, lcn: nat, length: nat, partialOK: bool, rvs: seq<File>) {
    var g := Pass(buckets, lcn, length);
    || (|rvs| == 1 && LastFit(buckets, lcn, length, rvs[0]))
    || (NoFit(buckets, lcn, length) && g.length == 0 && rvs == g.chosen)
    || (NoFit(buckets, lcn, length) && g.length > 0 && exists items ::
          Choice(g.known, g.length, items) && rvs == Combined(g.chosen, g.known, g.length, partialOK, items))
  }

  /** Files all behind the gap that together fit into it, and fill it exactly if
      nothing less was asked for. */
  ghost predicate Filling(buckets: seq<File>, lcn: nat, length: nat, partialOK: bool, rvs: seq<File>) {
    && (forall f :: f in rvs ==> f in buckets && f.lcn > lcn)
    && Total(rvs) <= length
    && (!partialOK && rvs != [] ==> Total(rvs) == length)
  }

  lemma PassSound(buckets: seq<File>, lcn: nat, length: nat)
    ensures Sound(Pass(buckets, lcn, length), buckets, lcn, length)
  {
    GatheredSound(buckets, |buckets|, lcn, Gathering([], [], length), length);
  }

  /** The pass takes largest files first while much is left, and overlooks none. */
  lemma PassMisses(buckets: seq<File>, lcn: nat, length: nat)
    ensures Exhausted(Pass(buckets, lcn, length), buckets, lcn)
    ensures Ordered(buckets) ==> Greedy(Pass(buckets, lcn, length).chosen, buckets, lcn, length)
  {
    var g := Gathering([], [], length);
    assert buckets[|buckets|..] == [];
    GatheredExhausts(buckets, |buckets|, lcn, g);
    if Ordered(buckets) {
      GatheredGreedy(buckets, |buckets|, lcn, g, length);
    }
  }

  lemma CombinedFilling(g: Gathering, buckets: seq<File>, lcn: nat, length: nat, partialOK: bool, items: set<nat>)
    requires Sound(g, buckets, lcn, length) && Choice(g.known, g.length, items)
    ensures Filling(buckets, lcn, length, partialOK, Combined(g.chosen, g.known, g.length, partialOK, items))
  {
    hide Total, CountSize, Picked, Optimal, Weight;
    var picked := Picked(g.known, items, |g.known|);
    PickedTotal(g.known, items, |g.known|);
    TotalConcat(g.chosen, picked);
    assert Total([]) == 0 by {
      TotalOne(File(0, 0, 0));
    }
  }

  lemma TotalOne(f: File)
    ensures Total([]) == 0 && Total([f]) == f.clusters
  {
    assert [f][..0] == [];
  }

  lemma OutcomeFilling(buckets: seq<File>, lcn: nat, length: nat, partialOK: bool, rvs: seq<File>)
    requires Outcome(buckets, lcn, length, partialOK, rvs)
    ensures Filling(buckets, lcn, length, partialOK, rvs)
  {
    hide Sound, Combined, Choice, Pass;
    var g := Pass(buckets, lcn, length);
    PassSound(buckets, lcn, length);
    if |rvs| == 1 && LastFit(buckets, lcn, length, rvs[0]) {
      TotalOne(rvs[0]);
      assert rvs == [rvs[0]];
    } else if g.length == 0 {
      PerfectPass(g, buckets, lcn, length, partialOK);
    } else {
      var items :| Choice(g.known, g.length, items) && rvs == Combined(g.chosen, g.known, g.length, partialOK, items);
      CombinedFilling(g, buckets, lcn, length, partialOK, items);
    }
  }

  lemma PerfectPass(g: Gathering, buckets: seq<File>, lcn: nat, length: nat, partialOK: bool)
    requires Sound(g, buckets, lcn, length) && g.length == 0
    ensures Filling(buckets, lcn, length, partialOK, g.chosen)
  {
  }

  lemma {:induction false} PickedHas(cands: seq<File>, items: set<nat>, i: nat, j: nat)
    requires j < i <= |cands| && j in items
    ensures cands[j] in Picked(cands, items, i)
  {
    if j < i - 1 {
      PickedHas(cands, items, i - 1, j);
    }
  }

  lemma {:induction false} WeightMore(c: seq<nat>, s: set<nat>, j: nat, i: nat)
    requires i <= |c| && j !in s
    ensures Weight(c, s + {j}, i) == Weight(c, s, i) + if j < i then c[j] else 0
  {
    if i > 0 {
      WeightMore(c, s, j, i - 1);
    }
  }

  /** A candidate that is not chosen would not have fitted. */
  lemma ChoiceFull(cands: seq<File>, length: nat, items: set<nat>, k: File)
    requires Choice(cands, length, items) && k in cands && k !in Picked(cands, items, |cands|) && k.clusters > 0
    ensures Total(Picked(cands, items, |cands|)) + k.clusters > length
  {
    hide Optimal, Total, Picked;
    var c := Clusters(cands);
    var j :| 0 <= j < |cands| && cands[j] == k;
    PickedTotal(cands, items, |cands|);
    if j in items {
      PickedHas(cands, items, |cands|, j);
    }
    WeightMore(c, items, j, |c|);
    assert !Fits(c, |c|, length, items + {j});
  }

  /** With partial filling, a file that would still fit is chosen, or one of its size that
      starts no earlier is. */
  ghost predicate Maximal(buckets: seq<File>, lcn: nat, length: nat, rvs: seq<File>) {
    forall f :: f in buckets && f.lcn > lcn && 0 < f.clusters && Total(rvs) + f.clusters <= length ==> Matched(rvs, f)
  }

  lemma CombinedMaximal(g: Gathering, buckets: seq<File>, lcn: nat, length: nat, items: set<nat>)
    requires Sound(g, buckets, lcn, length) && Exhausted(g, buckets, lcn) && Choice(g.known, g.length, items)
    ensures Maximal(buckets, lcn, length, Combined(g.chosen, g.known, g.length, true, items))
  {
    hide Choice, Total, Picked, CountSize;
    var picked := Picked(g.known, items, |g.known|);
    var rvs := g.chosen + picked;
    TotalConcat(g.chosen, picked);
    forall f | f in buckets && f.lcn > lcn && 0 < f.clusters && Total(rvs) + f.clusters <= length
      ensures Matched(rvs, f)
    {
      if f in g.chosen {
        assert f in rvs;
      } else {
        var k :| k in g.known && k.clusters == f.clusters && k.lcn >= f.lcn;
        if k !in picked {
          ChoiceFull(g.known, g.length, items, k);
        }
        assert k in rvs;
      }
    }
  }

  lemma OutcomeMaximal(buckets: seq<File>, lcn: nat, length: nat, rvs: seq<File>)
    requires Outcome(buckets, lcn, length, true, rvs)
    ensures Maximal(buckets, lcn, length, rvs)
  {
    hide Sound, Combined, Choice, Pass, Exhausted;
    var g := Pass(buckets, lcn, length);
    PassSound(buckets, lcn, length);
    PassMisses(buckets, lcn, length);
    if |rvs| == 1 && LastFit(buckets, lcn, length, rvs[0]) {
      TotalOne(rvs[0]);
      assert rvs == [rvs[0]];
    } else if g.length == 0 {
      SoundTotal(g, buckets, lcn, length);
    } else {
      var items :| Choice(g.known, g.length, items) && rvs == Combined(g.chosen, g.known, g.length, true, items);
      CombinedMaximal(g, buckets, lcn, length, items);
    }
  }

  lemma SoundTotal(g: Gathering, buckets: seq<File>, lcn: nat, length: nat)
    requires Sound(g, buckets, lcn, length)
    ensures Total(g.chosen) + g.length == length
  {
  }

  /** If any file behind the gap fits into it, something is chosen. */
  lemma NotEmpty(buckets: seq<File>, lcn: nat, length: nat, rvs: seq<File>, f: File)
    requires Maximal(buckets, lcn, length, rvs) && f in buckets && f.lcn > lcn && 0 < f.clusters <= length
    ensures rvs != []
  {
    assert Total(rvs) + f.clusters <= length ==> Matched(rvs, f);
  }

  /** The files to move into the gap at lcn. */
  method FindBest(buckets: seq<File>, lcn: nat, length: nat, partialOK: bool) returns (rvs: seq<File>)
    requires Ordered(buckets)
    ensures Outcome(buckets, lcn, length, partialOK, rvs)
    ensures Filling(buckets, lcn, length, partialOK, rvs)
    ensures partialOK ==> Maximal(buckets, lcn, length, rvs)
  {
    hide Filling, Combined, Choice, Gathered, Sound, Maximal, Greedy, Exhausted;
    var perfect := Perfect(buckets, lcn, length);
    if perfect.Some? {
      rvs := [perfect.value];
      OutcomeFilling(buckets, lcn, length, partialOK, rvs);
      if partialOK {
        OutcomeMaximal(buckets, lcn, length, rvs);
      }
      return;
    }
    var chosen, known, rest := Gather(buckets, lcn, length);
    PassSound(buckets, lcn, length);
    KnownFits(Gathering(chosen, known, rest), buckets, lcn, length);
    if rest == 0 {
      rvs := chosen;
    } else {
      rvs := Combine(chosen, known, rest, partialOK);
    }
    OutcomeFilling(buckets, lcn, length, partialOK, rvs);
    if partialOK {
      OutcomeMaximal(buckets, lcn, length, rvs);
    }
  }

  lemma KnownFits(g: Gathering, buckets: seq<File>, lcn: nat, length: nat)
    requires Sound(g, buckets, lcn, length)
    ensures forall f :: f in g.known ==> f.clusters <= g.length
  {
  }

  /** Exactly when some combination of candidates fills what is left, an exact filling
      is found. */
  lemma ExactIff(cands: seq<File>, length: nat, items: set<nat>)
    requires Choice(cands, length, items)
    ensures var c := Clusters(cands);
      (exists s :: Fits(c, |c|, length, s) && Weight(c, s, |c|) == length) <==> Weight(c, items, |c|) == length
  {
  }

  /** Files of the given sort that fill a gap of small length exactly. */
  ghost predicate ExactFilling(buckets: seq<File>, lcn: nat, length: nat, files: seq<File>) {
    && (forall f :: f in files ==> f in buckets && f.lcn > lcn && f.clusters > 0)
    && (forall i, j :: 0 <= i < j < |files| ==> files[i].clusters != files[j].clusters)
    && Total(files) == length
  }

  lemma {:induction false} NothingTaken(buckets: seq<File>, n: nat, lcn: nat, g: Gathering)
    requires n <= |buckets| && g.length <= MAXLEN
    ensures Gathered(buckets, n, lcn, g).chosen == g.chosen && Gathered(buckets, n, lcn, g).length == g.length
  {
    hide Considered;
    if n > 0 {
      NothingTaken(buckets, n - 1, lcn, Visited(g, buckets[n - 1], lcn));
    }
  }

  /** Candidates that stand for the first i files, which are of different sizes. */
  lemma {:induction false} StandIns(cands: seq<File>, files: seq<File>, i: nat) returns (s: set<nat>)
    requires i <= |files| && forall f :: f in files ==> Matched(cands, f)
    requires forall j, k :: 0 <= j < k < |files| ==> files[j].clusters != files[k].clusters
    ensures Weight(Clusters(cands), s, |cands|) == Total(files[..i])
    ensures forall j :: j in s ==> j < |cands| && exists k :: 0 <= k < i && files[k].clusters == cands[j].clusters
  {
    hide Weight, Total;
    if i == 0 {
      s := {};
      EmptyWeight(Clusters(cands), |cands|);
      assert files[..0] == [];
      TotalOne(File(0, 0, 0));
    } else {
      var t := StandIns(cands, files, i - 1);
      assert files[i - 1] in files;
      var c :| c in cands && c.clusters == files[i - 1].clusters && c.lcn >= files[i - 1].lcn;
      var j :| 0 <= j < |cands| && cands[j] == c;
      assert j !in t;
      s := t + {j};
      WeightMore(Clusters(cands), t, j, |cands|);
      assert files[..i] == files[..i - 1] + [files[i - 1]];
      TotalConcat(files[..i - 1], [files[i - 1]]);
      TotalOne(files[i - 1]);
    }
  }

  /** Up to 256 clusters, a gap that files of different sizes can fill exactly is filled
      exactly, whether or not less would do. */
  lemma ExactFound(buckets: seq<File>, lcn: nat, length: nat, partialOK: bool, rvs: seq<File>, files: seq<File>)
    requires Outcome(buckets, lcn, length, partialOK, rvs) && 0 < length <= MAXLEN
    requires ExactFilling(buckets, lcn, length, files)
    ensures Total(rvs) == length
  {
    hide Choice, Total, Sound, Exhausted;
    var g := Pass(buckets, lcn, length);
    NothingTaken(buckets, |buckets|, lcn, Gathering([], [], length));
    PassMisses(buckets, lcn, length);
    hide Gathered;
    if |rvs| == 1 && LastFit(buckets, lcn, length, rvs[0]) {
      TotalOne(rvs[0]);
      assert rvs == [rvs[0]];
    } else {
      var items :| Choice(g.known, length, items) && rvs == Combined([], g.known, length, partialOK, items);
      AllMatched(g, buckets, lcn, length, files);
      ChoiceExact(g.known, length, items, files);
      assert [] + Picked(g.known, items, |g.known|) == Picked(g.known, items, |g.known|);
    }
  }

  lemma {:induction false} MemberTotal(files: seq<File>, f: File)
    requires f in files
    ensures f.clusters <= Total(files)
  {
    if f != files[|files| - 1] {
      MemberTotal(files[..|files| - 1], f);
    }
  }

  lemma AllMatched(g: Gathering, buckets: seq<File>, lcn: nat, length: nat, files: seq<File>)
    requires Exhausted(g, buckets, lcn) && g.chosen == [] && g.length == length && 0 < length
    requires ExactFilling(buckets, lcn, length, files)
    ensures forall f :: f in files ==> Matched(g.known, f)
  {
    hide Total;
    forall f | f in files
      ensures Matched(g.known, f)
    {
      MemberTotal(files, f);
    }
  }

  lemma ChoiceExact(cands: seq<File>, length: nat, items: set<nat>, files: seq<File>)
    requires Choice(cands, length, items) && Total(files) == length && forall f :: f in files ==> Matched(cands, f)
    requires forall j, k :: 0 <= j < k < |files| ==> files[j].clusters != files[k].clusters
    ensures Total(Picked(cands, items, |cands|)) == length
  {
    hide Total, Picked, Matched, Optimal, Weight;
    var s := StandIns(cands, files, |files|);
    assert files[..|files|] == files;
    PickedTotal(cands, items, |cands|);
    assert Fits(Clusters(cands), |cands|, length, s);
  }

  // ------------------------------------------------------- files chosen twice

  /** A file is chosen twice: with two files of one size, the one that starts first
      visited first, a gap of twice the size is filled with the other file alone. */
  lemma SameFileTwice(a: File, b: File, lcn: nat, partialOK: bool, rvs: seq<File>)
    requires 0 < a.clusters == b.clusters && 2 * a.clusters <= MAXLEN && lcn < a.lcn < b.lcn
    requires Outcome([b, a], lcn, 2 * a.clusters, partialOK, rvs)
    ensures rvs == [b, b]
  {
    hide Gathered, Choice, Pass, Total;
    TwoVisits(a, b, lcn);
    var length := 2 * a.clusters;
    var g := Pass([b, a], lcn, length);
    var items :| Choice(g.known, length, items) && rvs == Combined([], [b, b], length, partialOK, items);
    BothChosen(b, items);
    assert Picked([b, b], items, 2) == Picked([b, b], items, 1) + [b];
    assert Picked([b, b], items, 1) == Picked([b, b], items, 0) + [b];
    assert Picked([b, b], items, 0) == [];
    TotalConcat([b], [b]);
    TotalOne(b);
    assert [b] + [b] == [b, b] == [] + [b, b];
    assert Picked([b, b], items, 2) == [b, b];
  }

  lemma TwoVisits(a: File, b: File, lcn: nat)
    requires 0 < a.clusters == b.clusters && 2 * a.clusters <= MAXLEN && lcn < a.lcn < b.lcn
    ensures Pass([b, a], lcn, 2 * a.clusters) == Gathering([], [b, b], 2 * a.clusters)
  {
    var length := 2 * a.clusters;
    FirstConsidered(a);
    SecondConsidered(a, b);
    hide Considered;
    assert Visited(Gathering([], [], length), a, lcn) == Gathering([], [a], length);
    assert Visited(Gathering([], [a], length), b, lcn) == Gathering([], [b, b], length);
    assert Gathered([b, a], 0, lcn, Gathering([], [b, b], length)) == Gathering([], [b, b], length);
    assert Gathered([b, a], 1, lcn, Gathering([], [a], length)) == Gathering([], [b, b], length);
  }

  lemma FirstConsidered(a: File)
    ensures Considered([], a) == [a]
  {
    assert Inserted([], a) == [a];
    assert Weaker([a], a) == 1;
  }

  lemma SecondConsidered(a: File, b: File)
    requires a.clusters == b.clusters && a.lcn < b.lcn
    ensures Considered([a], b) == [b, b]
  {
    assert CountSize([a], b.clusters) == 1;
    assert Inserted([a], b) == [a, b];
    assert Weaker([a, b], b) == 0;
    assert [a, b][..0] + [a, b][1..] == [b];
    assert Inserted([b], b) == [b, b];
  }

  lemma BothChosen(b: File, items: set<nat>)
    requires b.clusters > 0 && Choice([b, b], 2 * b.clusters, items)
    ensures 0 in items && 1 in items
  {
    var c := Clusters([b, b]);
    forall s
      ensures Weight(c, s, 2) == (if 0 in s then b.clusters else 0) + (if 1 in s then b.clusters else 0)
    {
      assert Weight(c, s, 2) == Weight(c, s, 1) + if 1 in s then b.clusters else 0;
      assert Weight(c, s, 1) == Weight(c, s, 0) + if 0 in s then b.clusters else 0;
    }
    assert Fits(c, 2, 2 * b.clusters, {0, 1});
  }

  lemma HasWeaker(known: seq<File>, f: File)
    ensures Weaker(known, f) < |known| <==> exists x :: x in known && x.clusters == f.clusters && x.lcn < f.lcn
  {
    if Weaker(known, f) < |known| {
      assert known[Weaker(known, f)] in known;
    }
  }

  lemma RemovedDistinct(w: seq<File>, i: nat)
    requires NoDup(w) && i < |w|
    ensures NoDup(w[..i] + w[i + 1..]) && forall x :: x in w[..i] + w[i + 1..] <==> x in w && x != w[i]
  {
    var a, b := w[..i], w[i + 1..];
    assert w == a + ([w[i]] + b);
    NoDupParts(a, [w[i]] + b);
    NoDupParts([w[i]], b);
    assert forall x :: x in b ==> x in [w[i]] + b;
    NoDupConcat(a, b);
  }

  /** Considering a new file leaves the candidates distinct exactly when there is no
      room for it or no candidate of its size starts before it. */
  lemma ConsideredDistinct(known: seq<File>, f: File)
    requires NoDup(known) && f !in known
    ensures NoDup(Considered(known, f)) <==>
            CountSize(known, f.clusters) >= PER_SIZE || Weaker(known, f) == |known|
  {
    hide NoDup, CountSize, Weaker, Inserted;
    var w := Widened(known, f);
    InsertedDistinctIff(known, f);
    InsertedMembers(known, f);
    HasWeaker(known, f);
    HasWeaker(w, f);
    var i := Weaker(w, f);
    if i < |w| {
      RemovedDistinct(w, i);
      InsertedDistinctIff(w[..i] + w[i + 1..], f);
    }
  }

  /** Files of one size are indexed in the order of their starts. */
  ghost predicate StartOrdered(buckets: seq<File>) {
    forall i, j :: 0 <= i < j < |buckets| && buckets[i].clusters == buckets[j].clusters ==>
      buckets[i].lcn <= buckets[j].lcn
  }

  /** What was taken so far is distinct and comes from the entries from n on. */
  ghost predicate DistinctFrom(g: Gathering, buckets: seq<File>, n: nat)
    requires n <= |buckets|
  {
    NoDup(g.chosen + g.known) && forall f :: f in g.chosen + g.known ==> f in buckets[n..]
  }

  lemma VisitedDistinct(g: Gathering, buckets: seq<File>, n: nat, lcn: nat)
    requires n < |buckets| && NoDup(buckets) && StartOrdered(buckets) && DistinctFrom(g, buckets, n + 1)
    ensures DistinctFrom(Visited(g, buckets[n], lcn), buckets, n)
  {
    hide CountSize, Weaker, Inserted;
    var f := buckets[n];
    var later := buckets[n + 1..];
    assert buckets[n..] == [f] + later;
    NoDupParts(buckets[..n], buckets[n..]) by {
      assert buckets == buckets[..n] + buckets[n..];
    }
    NoDupParts([f], later);
    assert f !in later by {
      assert f in [f];
    }
    hide NoDup;
    NoDupParts(g.chosen, g.known);
    InsertedMembers(g.known, f);
    InsertedDistinctIff(g.known, f);
    NoDupConcat(g.chosen, Inserted(g.known, f));
    assert Considered(g.known, f) == Widened(g.known, f) by {
      NoneWeaker(g.known, buckets, n);
    }
    AppendDistinct(g.chosen, g.known, f);
  }

  lemma NoneWeaker(known: seq<File>, buckets: seq<File>, n: nat)
    requires n < |buckets| && StartOrdered(buckets) && forall f :: f in known ==> f in buckets[n + 1..]
    ensures Considered(known, buckets[n]) == Widened(known, buckets[n])
  {
    hide CountSize, Weaker, Inserted;
    var f := buckets[n];
    var w := Widened(known, f);
    InsertedMembers(known, f);
    HasWeaker(w, f);
    forall x | x in w && x.clusters == f.clusters
      ensures x.lcn >= f.lcn
    {
      if x != f {
        var j :| 0 <= j < |buckets[n + 1..]| && buckets[n + 1..][j] == x;
        assert buckets[n + 1 + j] == x;
      }
    }
  }

  lemma AppendDistinct(chosen: seq<File>, known: seq<File>, f: File)
    requires NoDup(chosen + known) && f !in chosen + known
    ensures NoDup(chosen + [f] + known) && forall x :: x in chosen + [f] + known <==> x in chosen + known || x == f
  {
    NoDupParts(chosen, known);
    NoDupConcat(chosen, [f]);
    NoDupConcat(chosen + [f], known);
  }

  lemma {:induction false} GatheredDistinct(buckets: seq<File>, n: nat, lcn: nat, g: Gathering)
    requires n <= |buckets| && NoDup(buckets) && StartOrdered(buckets) && DistinctFrom(g, buckets, n)
    ensures DistinctFrom(Gathered(buckets, n, lcn, g), buckets, 0)
  {
    hide NoDup, StartOrdered, DistinctFrom, Visited;
    if n > 0 {
      VisitedDistinct(g, buckets, n - 1, lcn);
      GatheredDistinct(buckets, n - 1, lcn, Visited(g, buckets[n - 1], lcn));
    }
  }

  lemma {:induction false} PickedDistinct(cands: seq<File>, items: set<nat>, i: nat)
    requires i <= |cands| && NoDup(cands)
    ensures NoDup(Picked(cands, items, i)) && forall f :: f in Picked(cands, items, i) ==> f in cands[..i]
  {
    if i > 0 {
      PickedDistinct(cands, items, i - 1);
      assert cands[..i] == cands[..i - 1] + [cands[i - 1]];
      assert cands[i - 1] !in cands[..i - 1];
      NoDupConcat(Picked(cands, items, i - 1), [cands[i - 1]]);
    }
  }

  /** When files of one size are indexed in the order of their starts, no file is
      chosen twice. */
  lemma OutcomeDistinct(buckets: seq<File>, lcn: nat, length: nat, partialOK: bool, rvs: seq<File>)
    requires NoDup(buckets) && StartOrdered(buckets) && Outcome(buckets, lcn, length, partialOK, rvs)
    ensures NoDup(rvs)
  {
    hide StartOrdered, Choice, NoFit, LastFit, Gathered;
    if |rvs| != 1 {
      var g := Pass(buckets, lcn, length);
      GatheredDistinct(buckets, |buckets|, lcn, Gathering([], [], length));
      NoDupParts(g.chosen, g.known);
      if g.length > 0 {
        var items :| Choice(g.known, g.length, items) && rvs == Combined(g.chosen, g.known, g.length, partialOK, items);
        PickedDistinct(g.known, items, |g.known|);
        assert g.known[..|g.known|] == g.known;
        NoDupConcat(g.chosen, Picked(g.known, items, |g.known|));
      }
    }
  }

  // ------------------------------------------- exactly when candidates repeat

  lemma NoDupCounts(q: seq<File>)
    ensures NoDup(q) <==> forall x :: multiset(q)[x] <= 1
  {
    if NoDup(q) {
      forall x
        ensures multiset(q)[x] <= 1
      {
        CountOnce(q, x);
      }
    } else {
      var i, j :| 0 <= i < j < |q| && q[i] == q[j];
      assert q == q[..j] + q[j..];
      assert q[i] in q[..j] && q[j] in q[j..];
      assert multiset(q)[q[i]] >= 2;
    }
  }

  lemma {:induction false} CountOnce(q: seq<File>, x: File)
    requires NoDup(q)
    ensures multiset(q)[x] <= 1
  {
    if q != [] {
      NoDupTail(q);
      CountOnce(q[1..], x);
      assert q == [q[0]] + q[1..];
    }
  }

  lemma {:induction false} InsertedCounts(known: seq<File>, f: File)
    ensures multiset(Inserted(known, f)) == multiset(known) + multiset{f}
  {
    var n := |known| - 1;
    if known != [] && known[n].clusters < f.clusters {
      InsertedCounts(known[..n], f);
      assert known == known[..n] + [known[n]];
    }
  }

  /** While there is room for a file, the candidates are distinct after it exactly when
      they were before, the file is new and no candidate of its size starts before it. */
  lemma RoomDistinct(known: seq<File>, f: File)
    requires CountSize(known, f.clusters) < PER_SIZE
    ensures NoDup(Considered(known, f)) <==> NoDup(known) && f !in known && Weaker(known, f) == |known|
  {
    hide NoDup, CountSize, Weaker, Inserted;
    var w := Inserted(known, f);
    InsertedMembers(known, f);
    InsertedDistinctIff(known, f);
    HasWeaker(known, f);
    HasWeaker(w, f);
    var i := Weaker(w, f);
    if i < |w| {
      TwiceIn(w, i, f);
    }
  }

  lemma InsertedDistinctIff(known: seq<File>, f: File)
    ensures NoDup(Inserted(known, f)) <==> NoDup(known) && f !in known
  {
    hide NoDup;
    InsertedCounts(known, f);
    NoDupCounts(known);
    NoDupCounts(Inserted(known, f));
    hide Inserted;
    var k := multiset(known);
    assert forall x :: multiset(Inserted(known, f))[x] == k[x] + if x == f then 1 else 0;
    assert f in known <==> k[f] > 0;
  }

  /** Replacing a candidate by a file that is there already makes the file appear twice. */
  lemma TwiceIn(w: seq<File>, i: nat, f: File)
    requires i < |w| && w[i] != f && f in w
    ensures !NoDup(Inserted(w[..i] + w[i + 1..], f))
  {
    hide NoDup;
    var rest := w[..i] + w[i + 1..];
    InsertedDistinctIff(rest, f);
    var j :| 0 <= j < |w| && w[j] == f;
    assert f == if j < i then w[..i][j] else w[i + 1..][j - i - 1];
    assert f in rest;
  }

  lemma RoomCount(known: seq<File>, f: File, n: nat)
    requires CountSize(known, f.clusters) < PER_SIZE
    ensures CountSize(Considered(known, f), n) == CountSize(known, n) + if f.clusters == n then 1 else 0
  {
    var w := Inserted(known, f);
    InsertedCount(known, f, n);
    var i := Weaker(w, f);
    hide Inserted, Weaker;
    if i < |w| {
      assert w == w[..i] + ([w[i]] + w[i + 1..]);
      CountSizeConcat(w[..i], [w[i]] + w[i + 1..], n);
      CountSizeConcat([w[i]], w[i + 1..], n);
      CountSizeConcat(w[..i], w[i + 1..], n);
      InsertedCount(w[..i] + w[i + 1..], f, n);
    }
  }

  /** The file may become a candidate for a gap of at most MAXLEN clusters. */
  predicate Eligible(f: File, lcn: nat, length: nat) {
    length > 0 && f.clusters <= length && f.lcn > lcn
  }

  function CountEligible(q: seq<File>, lcn: nat, length: nat, n: nat): nat {
    if q == [] then 0
    else CountEligible(q[1..], lcn, length, n) + if Eligible(q[0], lcn, length) && q[0].clusters == n then 1 else 0
  }

  /** From entry n on, eligible files of one size are indexed in the order of their starts. */
  ghost predicate EligibleOrdered(buckets: seq<File>, lcn: nat, length: nat, n: nat) {
    forall i, j :: n <= i < j < |buckets| && buckets[i].clusters == buckets[j].clusters
                   && Eligible(buckets[i], lcn, length) && Eligible(buckets[j], lcn, length) ==>
      buckets[i].lcn <= buckets[j].lcn
  }

  /** What the candidates are after the entries from n on: distinct exactly when these are
      in order, then just the eligible ones, and in any case as many of each size. */
  ghost predicate Tracks(g: Gathering, buckets: seq<File>, lcn: nat, n: nat)
    requires n <= |buckets|
  {
    && (NoDup(g.known) <==> EligibleOrdered(buckets, lcn, g.length, n))
    && (NoDup(g.known) ==> forall f :: f in g.known <==> f in buckets[n..] && Eligible(f, lcn, g.length))
    && (forall s :: CountSize(g.known, s) == CountEligible(buckets[n..], lcn, g.length, s))
  }

  ghost predicate Few(buckets: seq<File>, lcn: nat, length: nat) {
    forall s :: CountEligible(buckets, lcn, length, s) <= PER_SIZE
  }

  lemma {:induction false} FewerEligible(buckets: seq<File>, n: nat, lcn: nat, length: nat, s: nat)
    requires n <= |buckets|
    ensures CountEligible(buckets[n..], lcn, length, s) <= CountEligible(buckets, lcn, length, s)
  {
    if n == 0 {
      assert buckets[0..] == buckets;
    } else {
      FewerEligible(buckets[1..], n - 1, lcn, length, s);
      assert buckets[1..][n - 1..] == buckets[n..];
    }
  }

  lemma VisitedTracks(g: Gathering, buckets: seq<File>, lcn: nat, n: nat)
    requires n < |buckets| && NoDup(buckets) && g.length <= MAXLEN && Few(buckets, lcn, g.length)
    requires Tracks(g, buckets, lcn, n + 1)
    ensures Tracks(Visited(g, buckets[n], lcn), buckets, lcn, n) && Visited(g, buckets[n], lcn).length == g.length
  {
    hide CountSize, Inserted, Weaker, Considered, NoDup;
    var f, later := buckets[n], buckets[n + 1..];
    assert buckets[n..][0] == f && buckets[n..][1..] == later;
    assert buckets[n..] == [f] + later;
    if Eligible(f, lcn, g.length) {
      FewerEligible(buckets, n, lcn, g.length, f.clusters);
      RoomDistinct(g.known, f);
      HasWeaker(g.known, f);
      NotLater(buckets, n);
      OrderedStep(buckets, lcn, g.length, n);
      forall s
        ensures CountSize(Considered(g.known, f), s) == CountEligible(buckets[n..], lcn, g.length, s)
      {
        RoomCount(g.known, f, s);
      }
      if NoDup(Considered(g.known, f)) {
        KeptAll(g.known, f);
      }
    } else {
      OrderedSkip(buckets, lcn, g.length, n);
    }
  }

  lemma NotLater(buckets: seq<File>, n: nat)
    requires NoDup(buckets) && n < |buckets|
    ensures buckets[n] !in buckets[n + 1..]
  {
  }

  /** One more eligible entry is in order exactly when no later one of its size starts
      before it. */
  lemma OrderedStep(buckets: seq<File>, lcn: nat, length: nat, n: nat)
    requires n < |buckets| && Eligible(buckets[n], lcn, length)
    ensures EligibleOrdered(buckets, lcn, length, n) <==>
      && EligibleOrdered(buckets, lcn, length, n + 1)
      && forall x :: x in buckets[n + 1..] && Eligible(x, lcn, length) && x.clusters == buckets[n].clusters ==>
        x.lcn >= buckets[n].lcn
  {
    hide Eligible;
    var f, later := buckets[n], buckets[n + 1..];
    if EligibleOrdered(buckets, lcn, length, n) {
      forall x | x in later && Eligible(x, lcn, length) && x.clusters == f.clusters
        ensures x.lcn >= f.lcn
      {
        var j :| 0 <= j < |later| && later[j] == x;
        assert buckets[n + 1 + j] == x;
      }
    }
    forall j | n < j < |buckets|
      ensures buckets[j] in later
    {
      assert later[j - n - 1] == buckets[j];
    }
  }

  lemma OrderedSkip(buckets: seq<File>, lcn: nat, length: nat, n: nat)
    requires n < |buckets| && !Eligible(buckets[n], lcn, length)
    ensures EligibleOrdered(buckets, lcn, length, n) <==> EligibleOrdered(buckets, lcn, length, n + 1)
  {
    hide Eligible;
  }

  /** When there is room and nothing is replaced, the file joins the candidates. */
  lemma KeptAll(known: seq<File>, f: File)
    requires CountSize(known, f.clusters) < PER_SIZE && Weaker(known, f) == |known|
    ensures forall x :: x in Considered(known, f) <==> x in known || x == f
  {
    hide CountSize, Weaker, Inserted;
    InsertedMembers(known, f);
    HasWeaker(known, f);
    HasWeaker(Inserted(known, f), f);
  }

  lemma {:induction false} GatheredTracks(buckets: seq<File>, n: nat, lcn: nat, g: Gathering)
    requires n <= |buckets| && NoDup(buckets) && g.length <= MAXLEN && Few(buckets, lcn, g.length)
    requires Tracks(g, buckets, lcn, n)
    ensures Tracks(Gathered(buckets, n, lcn, g), buckets, lcn, 0) && Gathered(buckets, n, lcn, g).length == g.length
  {
    hide NoDup, Few, Tracks, Visited;
    if n > 0 {
      VisitedTracks(g, buckets, lcn, n - 1);
      GatheredTracks(buckets, n - 1, lcn, Visited(g, buckets[n - 1], lcn));
    }
  }

  /** For a gap of at most MAXLEN clusters and at most four eligible files of any size, the
      candidates are distinct exactly when eligible files of one size are indexed in the
      order of their starts; and then all eligible files are candidates. */
  lemma PassDistinctIff(buckets: seq<File>, lcn: nat, length: nat)
    requires NoDup(buckets) && length <= MAXLEN && Few(buckets, lcn, length)
    ensures NoDup(Pass(buckets, lcn, length).known) <==> EligibleOrdered(buckets, lcn, length, 0)
    ensures NoDup(Pass(buckets, lcn, length).known) ==>
      forall f :: f in Pass(buckets, lcn, length).known <==> f in buckets && Eligible(f, lcn, length)
  {
    var n := |buckets|;
    assert buckets[n..] == [] && buckets[0..] == buckets;
    hide Few;
    assert Tracks(Gathering([], [], length), buckets, lcn, n);
    GatheredTracks(buckets, n, lcn, Gathering([], [], length));
  }
}
