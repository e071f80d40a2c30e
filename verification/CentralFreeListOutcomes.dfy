/** What InsertRange and RemoveRange achieve, over every interleaving: how many objects
    RemoveRange hands out, when a batch is cached, and what becomes of transfer slots. */
module CentralFreeListOutcomes {
  import opened Options
  import opened Sequences
  import opened Arithmetic
  import opened CentralFreeList
  import opened CentralFreeListProof

  // ------------------------------------------------- a thread's own moves

  predicate Removing(pc: Pc) {
    pc == RemoveLock || pc == Remove || pc == Fetch || pc == AtHeap || pc == PopulateLock || pc == FetchLock
  }

  /** The thread still carries the chain it is to insert. */
  predicate Inserting(th: Thread) {
    th.pc == InsertLock || th.pc == Insert || Evicts(th.pc) || (Sheds(th.pc) && th.back)
  }

  // Which function the step is.

  lemma EndStep(P: Params, S: State, t: Tid, ch: Choice)
    requires Runs(P, S, t) && Enabled(P, S, t, ch) && Safe(P, S, t)
    ensures S.threads[t].pc == Fetch ==> Step(P, S, t, ch) == StepFetch(P, S, t)
    ensures S.threads[t].pc == Remove ==> Step(P, S, t, ch) == StepRemove(P, S, t)
    ensures S.threads[t].pc == Insert ==> Step(P, S, t, ch) == StepInsert(P, S, t)
    ensures S.threads[t].pc == BackLock ==> Step(P, S, t, ch) == StepBack(P, S, t)
    ensures S.threads[t].pc == Evict ==> ch.Pick? && ch.v < P.N() && Step(P, S, t, ch) == StepEvict(P, S, t, ch.v)
    ensures S.threads[t].pc == Victim ==> ch == Go && Step(P, S, t, ch) == StepVictim(P, S, t)
    ensures S.threads[t].pc == Insert || S.threads[t].pc == BackLock ==> ch == Go
  {
    hide StepFetch, StepRemove, StepInsert, StepBack, StepEvict, StepVictim, StepRelease, StepDeleting, AddSpan,
         ListSpan, MoveAll, NoDup, Findable, Safe;
  }

  lemma OtherStep(P: Params, S: State, t: Tid, ch: Choice)
    requires Runs(P, S, t) && Enabled(P, S, t, ch) && Safe(P, S, t)
    ensures S.threads[t].pc == Release ==> Step(P, S, t, ch) == StepRelease(P, S, t)
    ensures S.threads[t].pc == Deleting ==> Step(P, S, t, ch) == StepDeleting(S, t)
    ensures S.threads[t].pc == PopulateLock ==> Step(P, S, t, ch) == Lock(ListSpan(S, t), S.threads[t].c, t)
    ensures S.threads[t].pc == AtHeap ==>
      Step(P, S, t, ch) ==
      if ch.NewOk? then AddSpan(P, S, t, ch.s, ch.start) else Put(S, t, S.threads[t].(pc := FetchLock))
  {
    hide StepFetch, StepRemove, StepInsert, StepBack, StepEvict, StepVictim, StepRelease, StepDeleting, AddSpan,
         ListSpan, MoveAll, NoDup, Findable;
  }

  lemma FirstStep(P: Params, S: State, t: Tid, ch: Choice)
    requires Runs(P, S, t) && Enabled(P, S, t, ch) && Safe(P, S, t) && S.threads[t].pc == Idle
    ensures ch.BeginInsert? || (ch.BeginRemove? && ch.n > 0)
    ensures ch.BeginInsert? ==>
      var th := S.threads[t].(pc := InsertLock, c := ch.c, mine := ch.chain);
      Step(P, S, t, ch) == Put(S, t, th).(places := MoveAll(S.places, ch.chain, Flight(t)))
    ensures ch.BeginRemove? ==> Step(P, S, t, ch) == Put(S, t, S.threads[t].(pc := RemoveLock, c := ch.c, n := ch.n))
  {
    hide StepFetch, StepRemove, StepInsert, StepBack, StepEvict, StepVictim, StepRelease, StepDeleting, AddSpan,
         ListSpan, MoveAll, NoDup, Findable;
  }

  ghost predicate SameThread(S: State, S': State, u: Tid) {
    (u in S'.threads <==> u in S.threads) && (u in S.threads ==> S'.threads[u] == S.threads[u])
  }

  lemma LeavingOnly(P: Params, S: State, t: Tid, u: Tid)
    requires Runs(P, S, t) && u != t
    ensures SameThread(S, StepInsert(P, S, t), u) && SameThread(S, StepBack(P, S, t), u)
  {
    hide MoveAll;
  }

  lemma EvictingOnly(P: Params, S: State, t: Tid, ch: Choice, u: Tid)
    requires Runs(P, S, t) && u != t
    ensures ch.Pick? && ch.v < P.N() ==> SameThread(S, StepEvict(P, S, t, ch.v), u)
    ensures SameThread(S, StepVictim(P, S, t), u)
  {
    hide MoveAll;
  }

  lemma SheddingOnly(P: Params, S: State, t: Tid, u: Tid)
    requires Runs(P, S, t) && Safe(P, S, t) && u != t
    ensures S.threads[t].pc == Release ==> SameThread(S, StepRelease(P, S, t), u)
    ensures SameThread(S, StepDeleting(S, t), u)
  {
    hide Revive, ObjectsOf, Without, Findable;
  }

  lemma FetchingOnly(P: Params, S: State, t: Tid, ch: Choice, u: Tid)
    requires Runs(P, S, t) && Safe(P, S, t) && u != t
    ensures SameThread(S, StepRemove(P, S, t), u)
    ensures S.threads[t].pc == Fetch ==> SameThread(S, StepFetch(P, S, t), u)
    ensures ch.NewOk? ==> SameThread(S, AddSpan(P, S, t, ch.s, ch.start), u)
    ensures S.threads[t].pc == PopulateLock ==> SameThread(S, ListSpan(S, t), u)
  {
    hide MoveAll, Chain, PageHeapOps.PutRange;
  }

  lemma PlainOnly(P: Params, S: State, t: Tid, ch: Choice, u: Tid)
    requires Runs(P, S, t) && Enabled(P, S, t, ch) && Safe(P, S, t) && u != t
    requires WaitsForLock(S.threads[t].pc) || S.threads[t].pc == Idle
    ensures SameThread(S, Step(P, S, t, ch), u)
  {
    hide Step, Enabled, MoveAll, Safe, AfterLock, Held;
    if S.threads[t].pc == Idle {
      FirstStep(P, S, t, ch);
    } else {
      LockStepIs(P, S, t, ch);
    }
  }

  /** A step changes no other thread. */
  lemma StepOnly(P: Params, S: State, t: Tid, ch: Choice, u: Tid)
    requires Runs(P, S, t) && Enabled(P, S, t, ch) && Safe(P, S, t) && u != t
    ensures SameThread(S, Step(P, S, t, ch), u)
  {
    hide Step, Enabled, StepInsert, StepBack, StepEvict, StepVictim, StepRelease, StepDeleting, StepRemove, StepFetch,
         AddSpan, ListSpan, MoveAll, Safe, AfterLock, Held;
    var pc := S.threads[t].pc;
    EndStep(P, S, t, ch);
    OtherStep(P, S, t, ch);
    if WaitsForLock(pc) || pc == Idle {
      PlainOnly(P, S, t, ch, u);
    } else if Sheds(pc) {
      SheddingOnly(P, S, t, u);
    } else if Removing(pc) {
      FetchingOnly(P, S, t, ch, u);
    } else {
      LeavingOnly(P, S, t, u);
      EvictingOnly(P, S, t, ch, u);
    }
  }

  ghost predicate RemoveMove(th: Thread, th': Thread, ch: Choice) {
    match th.pc
    case RemoveLock => th' == th.(pc := Remove)
    case Remove => th'.pc == Idle || th' == th.(pc := Fetch, tried := false)
    case Fetch =>
      || th'.pc == Idle
      || (th' == th.(pc := AtHeap) && th.mine == [])
      || (|th.mine| < th.n && |th'.mine| == |th.mine| + 1 && th' == th.(mine := th'.mine))
    case AtHeap =>
      && (th'.pc == PopulateLock || (th'.pc == FetchLock && ch.NewFail?))
      && th'.c == th.c && th'.n == th.n && th'.mine == th.mine
    case PopulateLock => th' == th.(pc := Fetch, tried := true)
    case FetchLock => th' == th.(pc := Fetch, tried := true)
    case _ => true
  }

  lemma FetchMove(P: Params, S: State, t: Tid)
    requires Runs(P, S, t) && Safe(P, S, t) && S.threads[t].pc == Fetch
    ensures t in StepFetch(P, S, t).threads && RemoveMove(S.threads[t], StepFetch(P, S, t).threads[t], Go)
  {
    hide MoveAll;
  }

  lemma ServeMove(P: Params, S: State, t: Tid)
    requires Runs(P, S, t) && S.threads[t].pc == Remove
    ensures t in StepRemove(P, S, t).threads && RemoveMove(S.threads[t], StepRemove(P, S, t).threads[t], Go)
  {
    hide MoveAll;
  }

  lemma HeapMove(P: Params, S: State, t: Tid, ch: Choice)
    requires Runs(P, S, t) && Safe(P, S, t) && ch.NewOk?
    ensures S.threads[t].pc == AtHeap ==> var S' := AddSpan(P, S, t, ch.s, ch.start);
      t in S'.threads && RemoveMove(S.threads[t], S'.threads[t], ch)
  {
    hide Chain, PageHeapOps.PutRange;
  }

  lemma PopulateMove(P: Params, S: State, t: Tid)
    requires Runs(P, S, t) && Safe(P, S, t) && S.threads[t].pc == PopulateLock
    ensures t in ListSpan(S, t).threads && RemoveMove(S.threads[t], ListSpan(S, t).threads[t], Go)
  {
  }

  lemma RemoveMoves(P: Params, S: State, t: Tid, ch: Choice)
    requires Runs(P, S, t) && Enabled(P, S, t, ch) && Safe(P, S, t) && Removing(S.threads[t].pc)
    ensures t in Step(P, S, t, ch).threads && RemoveMove(S.threads[t], Step(P, S, t, ch).threads[t], ch)
  {
    var th := S.threads[t];
    if th.pc == Fetch {
      FetchMove(P, S, t);
    } else if th.pc == Remove {
      ServeMove(P, S, t);
    } else if th.pc == PopulateLock {
      PopulateMove(P, S, t);
    } else if ch.NewOk? {
      HeapMove(P, S, t, ch);
    }
    hide StepInsert, StepBack, StepEvict, StepVictim, StepRelease, StepDeleting, StepRemove, StepFetch, AddSpan,
         ListSpan, MoveAll, NoDup, Findable, Safe;
  }

  /** The chain is no longer carried: it was stored, or it is being released. */
  ghost predicate Leaves(th: Thread, th': Thread) {
    th' == th.(pc := Idle, mine := []) || GivesBack(th, th')
  }

  ghost predicate GivesBack(th: Thread, th': Thread) {
    th' == th.(pc := Release, v := th.c, back := false, shed := th.mine, mine := [])
  }

  ghost predicate InsertMove(th: Thread, th': Thread, ch: Choice) {
    match th.pc
    case InsertLock => th' == th.(pc := Insert)
    case Insert => Leaves(th, th') || th' == th.(pc := Evict, force := false)
    case Evict =>
      && ch.Pick?
      && (if th.force then GivesBack(th, th') || th' == th.(pc := VictimLock, v := th'.v)
          else th' == th.(force := true) || th' == th.(pc := VictimLock, v := th'.v))
    case VictimLock => th' == th.(pc := Victim)
    case Victim =>
      && th'.c == th.c && th'.mine == th.mine && th'.force == th.force
      && (th'.pc == BackLock || (th'.pc == Release && th'.back))
    case BackLock => Leaves(th, th') || (!th.ok && !th.force && th' == th.(pc := Evict, force := true))
    case Release =>
      && th'.c == th.c && th'.mine == th.mine && th'.force == th.force
      && (if th.back then th'.pc == BackLock || (Sheds(th'.pc) && th'.back)
          else th'.pc == Idle || (Sheds(th'.pc) && !th'.back))
    case ReleaseLock => th' == th.(pc := Release)
    case Deleting => th' == th.(pc := ReleaseLock)
    case _ => true
  }

  lemma StoreMoves(P: Params, S: State, t: Tid)
    requires Runs(P, S, t) && LocalsOk(P, S.threads[t]) && S.threads[t].pc == Insert
    ensures t in StepInsert(P, S, t).threads && InsertMove(S.threads[t], StepInsert(P, S, t).threads[t], Go)
  {
    hide MoveAll, LocalsOk;
  }

  lemma BackMoves(P: Params, S: State, t: Tid)
    requires Runs(P, S, t) && LocalsOk(P, S.threads[t]) && S.threads[t].pc == BackLock
    ensures t in StepBack(P, S, t).threads && InsertMove(S.threads[t], StepBack(P, S, t).threads[t], Go)
  {
    hide MoveAll, LocalsOk;
  }

  lemma EvictMoves(P: Params, S: State, t: Tid, ch: Choice)
    requires Runs(P, S, t) && LocalsOk(P, S.threads[t])
    ensures S.threads[t].pc == Evict && ch.Pick? && ch.v < P.N() ==>
      t in StepEvict(P, S, t, ch.v).threads && InsertMove(S.threads[t], StepEvict(P, S, t, ch.v).threads[t], ch)
    ensures S.threads[t].pc == Victim ==>
      t in StepVictim(P, S, t).threads && InsertMove(S.threads[t], StepVictim(P, S, t).threads[t], Go)
  {
    hide MoveAll;
  }

  lemma InsertMoves(P: Params, S: State, t: Tid, ch: Choice)
    requires Runs(P, S, t) && Enabled(P, S, t, ch) && Safe(P, S, t)
    requires S.threads[t].pc == InsertLock || S.threads[t].pc == Insert || Evicts(S.threads[t].pc)
    requires LocalsOk(P, S.threads[t])
    ensures t in Step(P, S, t, ch).threads && InsertMove(S.threads[t], Step(P, S, t, ch).threads[t], ch)
  {
    hide Step, Enabled, Safe, LocalsOk, StepInsert, StepBack, StepEvict, StepVictim, Leaves, GivesBack;
    EndStep(P, S, t, ch);
    if WaitsForLock(S.threads[t].pc) {
      LockStepIs(P, S, t, ch);
    } else if S.threads[t].pc == Insert {
      StoreMoves(P, S, t);
    } else if S.threads[t].pc == BackLock {
      BackMoves(P, S, t);
    } else {
      EvictMoves(P, S, t, ch);
    }
  }

  lemma ReleasedAll(P: Params, S: State, t: Tid)
    requires Runs(P, S, t) && S.threads[t].pc == Release && S.threads[t].shed == []
    ensures t in StepRelease(P, S, t).threads && InsertMove(S.threads[t], StepRelease(P, S, t).threads[t], Go)
  {
    hide ReleaseLast, ReleaseOne, Findable;
  }

  lemma ReleaseMoves(P: Params, S: State, t: Tid)
    requires Runs(P, S, t) && Safe(P, S, t) && S.threads[t].pc == Release
    ensures t in StepRelease(P, S, t).threads && InsertMove(S.threads[t], StepRelease(P, S, t).threads[t], Go)
  {
    if S.threads[t].shed == [] {
      ReleasedAll(P, S, t);
    } else {
      var s := S.pagemap[S.threads[t].shed[0] / 8192];
      assert StepRelease(P, S, t) ==
        if S.spans[s].refcount - 1 == 0 then ReleaseLast(P, S, t, s) else ReleaseOne(S, t, s);
      hide StepRelease, Revive, ObjectsOf, Without, Findable;
    }
  }

  lemma ShedMoves(P: Params, S: State, t: Tid, ch: Choice)
    requires Runs(P, S, t) && Enabled(P, S, t, ch) && Safe(P, S, t) && Sheds(S.threads[t].pc)
    ensures t in Step(P, S, t, ch).threads && InsertMove(S.threads[t], Step(P, S, t, ch).threads[t], ch)
  {
    if S.threads[t].pc == Release {
      ReleaseMoves(P, S, t);
    }
    hide MoveAll, NoDup, Findable, StepRemove, StepFetch, StepInsert, StepBack, StepEvict, StepVictim, ListSpan,
         AddSpan, StepRelease, Safe;
  }

  ghost predicate IdleMove(th: Thread, th': Thread, ch: Choice) {
    if ch.BeginRemove? then ch.n > 0 && th' == th.(pc := RemoveLock, c := ch.c, n := ch.n)
    else ch.BeginInsert? && th' == th.(pc := InsertLock, c := ch.c, mine := ch.chain)
  }

  lemma IdleMoves(P: Params, S: State, t: Tid, ch: Choice)
    requires Runs(P, S, t) && Enabled(P, S, t, ch) && Safe(P, S, t) && S.threads[t].pc == Idle
    ensures t in Step(P, S, t, ch).threads && IdleMove(S.threads[t], Step(P, S, t, ch).threads[t], ch)
  {
    hide StepInsert, StepBack, StepEvict, StepVictim, StepRelease, StepDeleting, StepRemove, StepFetch, AddSpan,
         ListSpan, MoveAll, NoDup, Findable, Safe;
  }

  /** Where a thread goes from where it is. */
  ghost predicate Move(th: Thread, th': Thread, ch: Choice) {
    && (ch.Pick? ==> th.pc == Evict)
    && if th.pc == Idle then IdleMove(th, th', ch) && th.mine == []
       else if Removing(th.pc) then RemoveMove(th, th', ch)
       else InsertMove(th, th', ch)
  }

  lemma PicksThere(P: Params, S: State, t: Tid, ch: Choice)
    requires Runs(P, S, t) && Enabled(P, S, t, ch)
    ensures ch.Pick? ==> S.threads[t].pc == Evict
  {
    hide NoDup, Findable;
  }

  lemma Moves(P: Params, S: State, total: int, t: Tid, ch: Choice)
    requires Inv(P, S, total) && Runs(P, S, t) && Enabled(P, S, t, ch) && Safe(P, S, t)
    ensures t in Step(P, S, t, ch).threads && Move(S.threads[t], Step(P, S, t, ch).threads[t], ch)
  {
    hide Inv, Step, Safe, Enabled, IdleMove, RemoveMove, InsertMove;
    LocalsAt(P, S, total, t);
    PicksThere(P, S, t, ch);
    var th := S.threads[t];
    if th.pc == Idle {
      IdleMoves(P, S, t, ch);
    } else if Removing(th.pc) {
      RemoveMoves(P, S, t, ch);
    } else if Sheds(th.pc) {
      ShedMoves(P, S, t, ch);
    } else {
      InsertMoves(P, S, t, ch);
    }
  }

  // ------------------------------------------------------------- histories

  /** Thread t began an operation with step j and has been at it up to state i. */
  ghost predicate Busy(states: seq<State>, steps: seq<(Tid, Choice)>, t: Tid, j: nat, i: nat) {
    && |states| == |steps| + 1 && j < i < |states| && steps[j].0 == t
    && forall k :: j < k <= i ==> t in states[k].threads && states[k].threads[t].pc != Idle
  }

  /** Between steps j and i thread t asked the page heap for a span and got none. */
  ghost predicate HeapFailed(steps: seq<(Tid, Choice)>, t: Tid, j: nat, i: nat) {
    exists k :: j < k < i && k < |steps| && steps[k].0 == t && steps[k].1.NewFail?
  }

  /** The thread has asked the page heap, and its class has nothing for it. */
  ghost predicate Hungry(S: State, t: Tid)
    requires t in S.threads
  {
    var th := S.threads[t];
    || th.pc == FetchLock
    || (th.pc == Fetch && th.tried && th.mine == [] && (th.c < |S.cs| ==> S.cs[th.c].nonempty == []))
  }

  /** The thread gathers what RemoveRange was asked for, and not more. */
  ghost predicate Gathers(th: Thread, ch: Choice) {
    && ch.BeginRemove? && Removing(th.pc) && th.c == ch.c && th.n == ch.n > 0
    && |th.mine| <= th.n && (th.pc != Fetch ==> th.mine == [])
  }

  ghost predicate RemoveHistory(states: seq<State>, steps: seq<(Tid, Choice)>, t: Tid, j: nat, i: nat) {
    && Busy(states, steps, t, j, i) && Gathers(states[i].threads[t], steps[j].1)
    && (Hungry(states[i], t) ==> HeapFailed(steps, t, j, i))
  }

  lemma BusyOn(states: seq<State>, steps: seq<(Tid, Choice)>, t: Tid, j: nat, i: nat)
    requires Busy(states, steps, t, j, i) && i + 1 < |states|
    requires t in states[i + 1].threads && states[i + 1].threads[t].pc != Idle
    ensures Busy(states, steps, t, j, i + 1)
  {
  }

  lemma FailedBefore(steps: seq<(Tid, Choice)>, t: Tid, j: nat, i: nat)
    requires HeapFailed(steps, t, j, i)
    ensures HeapFailed(steps, t, j, i + 1)
  {
    var k :| j < k < i && k < |steps| && steps[k].0 == t && steps[k].1.NewFail?;
    assert j < k < i + 1;
  }

  lemma GathersOn(th: Thread, th': Thread, ch: Choice, begun: Choice)
    requires Gathers(th, begun) && RemoveMove(th, th', ch) && th'.pc != Idle
    ensures Gathers(th', begun)
  {
    if th.pc == Fetch {
      FetchOn(th, th', ch);
    } else {
      assert th.mine == [] && th'.mine == [];
    }
  }

  lemma FetchOn(th: Thread, th': Thread, ch: Choice)
    requires th.pc == Fetch && RemoveMove(th, th', ch) && th'.pc != Idle && |th.mine| <= th.n
    ensures th'.c == th.c && th'.n == th.n && |th'.mine| <= th.n
    ensures th'.pc == Fetch || (th'.pc == AtHeap && th'.mine == [])
  {
  }

  /** One more step of a thread that is removing. */
  lemma RemoveHistoryOn(states: seq<State>, steps: seq<(Tid, Choice)>, t: Tid, j: nat, i: nat)
    requires RemoveHistory(states, steps, t, j, i) && i < |steps| && t in states[i + 1].threads
    requires states[i + 1].threads[t].pc != Idle
    requires Moved(states[i], states[i + 1], t, steps[i]) && Hungers(states[i], states[i + 1], t, steps[i])
    ensures RemoveHistory(states, steps, t, j, i + 1)
  {
    BusyOn(states, steps, t, j, i);
    hide Busy, Hungry;
    var th, th' := states[i].threads[t], states[i + 1].threads[t];
    if Hungry(states[i], t) {
      FailedBefore(steps, t, j, i);
    }
    if steps[i].0 == t {
      GathersOn(th, th', steps[i].1, steps[j].1);
      if steps[i].1.NewFail? {
        assert j < i < i + 1 && steps[i].0 == t;
      }
    }
  }

  lemma RemoveBegins(th: Thread, th': Thread, ch: Choice)
    requires Move(th, th', ch) && th.pc == Idle && ch.BeginRemove?
    ensures Gathers(th', ch) && th'.pc == RemoveLock
  {
  }

  /** What a step means for thread t. */
  ghost predicate Moved(S: State, S': State, t: Tid, step: (Tid, Choice)) {
    && (t in S'.threads ==> t in S.threads)
    && (t in S.threads ==>
          && t in S'.threads
          && if step.0 == t then Move(S.threads[t], S'.threads[t], step.1) else S'.threads[t] == S.threads[t])
  }

  lemma RunMoves(P: Params, states: seq<State>, steps: seq<(Tid, Choice)>, i: nat, t: Tid)
    requires IsRun(P, states, steps) && i < |steps|
    ensures Moved(states[i], states[i + 1], t, steps[i])
  {
    var S, u, ch := states[i], steps[i].0, steps[i].1;
    RunKeeps(P, states, steps, i);
    assert Next(P, S, u, ch, states[i + 1]);
    hide IsRun, Inv, Step, Enabled, Safe, Move;
    if u == t {
      Moves(P, S, SlotTotal(states[0].cs), t, ch);
    } else {
      StepOnly(P, S, u, ch, t);
    }
  }

  /** A removing thread finds nothing after it asked the page heap only if that failed. */
  ghost predicate Hungers(S: State, S': State, t: Tid, step: (Tid, Choice)) {
    t in S.threads && t in S'.threads && Removing(S.threads[t].pc) && Hungry(S', t) ==>
      Hungry(S, t) || (step.0 == t && step.1.NewFail?)
  }

  lemma OwnHunger(th: Thread, th': Thread, S: State, S': State, t: Tid, ch: Choice)
    requires t in S.threads && t in S'.threads && th == S.threads[t] && th' == S'.threads[t]
    requires Removing(th.pc) && RemoveMove(th, th', ch) && th'.c < |S'.cs|
    requires th.pc == PopulateLock ==> S'.cs[th'.c].nonempty != []
    ensures Hungry(S', t) ==> Hungry(S, t) || ch.NewFail?
  {
    if th.pc == Fetch && th'.pc == Fetch {
      assert th'.mine != [];
    }
  }

  lemma Populated(P: Params, S: State, t: Tid, ch: Choice)
    requires Runs(P, S, t) && Enabled(P, S, t, ch) && Safe(P, S, t) && S.threads[t].pc == PopulateLock
    ensures var S' := Step(P, S, t, ch); |S'.cs| == |S.cs| && S'.cs[S.threads[t].c].nonempty != []
  {
    OtherStep(P, S, t, ch);
    hide Step, Enabled;
  }

  lemma RunLength(P: Params, states: seq<State>, steps: seq<(Tid, Choice)>)
    requires IsRun(P, states, steps)
    ensures |states| == |steps| + 1
  {
  }

  lemma FetchHolds(P: Params, S: State, total: int, t: Tid)
    requires Inv(P, S, total) && t in S.threads && S.threads[t].pc == Fetch
    ensures |S.cs| == |S.locks| == P.N() && S.threads[t].c < P.N() && S.locks[S.threads[t].c] == Some(t)
  {
    hide Inv;
    LockAt(P, S, total, t);
    LocalsAt(P, S, total, t);
  }

  /** The class of a fetching thread is not written by others. */
  lemma OtherHunger(P: Params, states: seq<State>, steps: seq<(Tid, Choice)>, i: nat, t: Tid)
    requires IsRun(P, states, steps) && i < |steps| && steps[i].0 != t && t in states[i].threads
    requires states[i].threads[t].pc == Fetch
    ensures var c := states[i].threads[t].c;
      c < |states[i].cs| == |states[i + 1].cs| && states[i + 1].cs[c] == states[i].cs[c]
  {
    var S, S', total, c := states[i], states[i + 1], SlotTotal(states[0].cs), states[i].threads[t].c;
    RunKeeps(P, states, steps, i);
    RunKeeps(P, states, steps, i + 1);
    RunLength(P, states, steps);
    hide *;
    FetchHolds(P, S, total, t);
    LockAt(P, S', total, t);
    if S'.cs[c] != S.cs[c] {
      WritesUnderLock(P, states, steps, i, c, t);
    }
  }

  lemma SelfHunger(P: Params, S: State, total: int, S': State, t: Tid, ch: Choice)
    requires Inv(P, S, total) && Next(P, S, t, ch, S') && Safe(P, S, t) && Removing(S.threads[t].pc)
    requires t in S'.threads && Move(S.threads[t], S'.threads[t], ch) && Inv(P, S', total)
    ensures Hungry(S', t) ==> Hungry(S, t) || ch.NewFail?
  {
    hide Inv, Step, Enabled, Safe, Move, RemoveMove, Hungry;
    var th, th' := S.threads[t], S'.threads[t];
    ThreadAt(P, S', total, t);
    MoveOfRemover(th, th', ch);
    if th.pc == PopulateLock {
      Populated(P, S, t, ch);
    }
    OwnHunger(th, th', S, S', t, ch);
  }

  lemma RunHunger(P: Params, states: seq<State>, steps: seq<(Tid, Choice)>, i: nat, t: Tid)
    requires IsRun(P, states, steps) && i < |steps|
    ensures Hungers(states[i], states[i + 1], t, steps[i])
  {
    var S, S' := states[i], states[i + 1];
    RunKeeps(P, states, steps, i);
    RunKeeps(P, states, steps, i + 1);
    RunMoves(P, states, steps, i, t);
    assert Next(P, S, steps[i].0, steps[i].1, S');
    hide Inv, Init, Move, Next;
    if t in S.threads && t in S'.threads && Removing(S.threads[t].pc) {
      if steps[i].0 == t {
        SelfHunger(P, S, SlotTotal(states[0].cs), S', t, steps[i].1);
      } else if S.threads[t].pc == Fetch {
        OtherHunger(P, states, steps, i, t);
      }
    }
  }

  lemma MoveOfRemover(th: Thread, th': Thread, ch: Choice)
    requires Move(th, th', ch) && Removing(th.pc)
    ensures RemoveMove(th, th', ch) && (th.pc == PopulateLock ==> th'.c == th.c)
  {
  }

  lemma BeginsIdle(P: Params, states: seq<State>, steps: seq<(Tid, Choice)>, j: nat)
    requires IsRun(P, states, steps) && j < |steps| && (steps[j].1.BeginRemove? || steps[j].1.BeginInsert?)
    ensures steps[j].0 in states[j].threads && states[j].threads[steps[j].0].pc == Idle
  {
    assert Next(P, states[j], steps[j].0, steps[j].1, states[j + 1]);
    hide IsRun, Step, NoDup, Findable;
  }

  lemma BusyBefore(states: seq<State>, steps: seq<(Tid, Choice)>, t: Tid, j: nat, i: nat)
    requires Busy(states, steps, t, j, i)
    ensures |states| == |steps| + 1 && j < i < |states| && steps[j].0 == t
    ensures t in states[i].threads && states[i].threads[t].pc != Idle
    ensures j < i - 1 ==> Busy(states, steps, t, j, i - 1)
  {
  }

  lemma RemoverStarts(P: Params, states: seq<State>, steps: seq<(Tid, Choice)>, t: Tid, j: nat)
    requires IsRun(P, states, steps) && Busy(states, steps, t, j, j + 1) && steps[j].1.BeginRemove?
    ensures RemoveHistory(states, steps, t, j, j + 1)
  {
    RunMoves(P, states, steps, j, t);
    BeginsIdle(P, states, steps, j);
    hide IsRun, Move;
    BusyBefore(states, steps, t, j, j + 1);
    RemoveBegins(states[j].threads[t], states[j + 1].threads[t], steps[j].1);
    hide Busy;
  }

  /** A thread that began RemoveRange and is not done still serves the request. */
  lemma {:induction false} Remover(P: Params, states: seq<State>, steps: seq<(Tid, Choice)>, t: Tid, j: nat, i: nat)
    requires IsRun(P, states, steps) && Busy(states, steps, t, j, i) && steps[j].1.BeginRemove?
    ensures RemoveHistory(states, steps, t, j, i)
    decreases i
  {
    hide *;
    BusyBefore(states, steps, t, j, i);
    if i == j + 1 {
      RemoverStarts(P, states, steps, t, j);
    } else {
      Remover(P, states, steps, t, j, i - 1);
      RunMoves(P, states, steps, i - 1, t);
      RunHunger(P, states, steps, i - 1, t);
      RemoveHistoryOn(states, steps, t, j, i - 1);
    }
  }

  // ------------------------------------------------------------- RemoveRange

  /** The objects that come into the clients' hands. */
  ghost function Handed(a: map<Obj, Place>, b: map<Obj, Place>): set<Obj> {
    set o | o in b && b[o] == Client && !(o in a && a[o] == Client)
  }

  lemma ChainHanded(places: map<Obj, Place>, q: seq<Obj>, from: Place)
    requires NoDup(q) && from != Client && forall o :: o in q ==> o in places && places[o] == from
    ensures var out := Handed(places, MoveAll(places, q, Client)); |out| == |q| && forall o :: o in out <==> o in q
  {
    CountAll(q, Handed(places, MoveAll(places, q, Client)));
  }

  /** What RemoveRange promises: so many objects of the class, or all that the class has
      left; and none only if the page heap had no span for it. */
  ghost predicate Removed(S: State, out: set<Obj>, c: nat, n: nat, failed: bool) {
    && c < |S.cs|
    && (forall o :: o in out ==> InClass(S, o, c))
    && (|out| == n || (|out| < n && S.cs[c].nonempty == [] && (out == {} ==> failed)))
  }

  /** The object lies in a span of the class. */
  ghost predicate InClass(S: State, o: Obj, c: nat) {
    o / 8192 in S.pagemap && S.pagemap[o / 8192] in S.spans && S.spans[S.pagemap[o / 8192]].cls == c
  }

  lemma FetchEnds(P: Params, S: State, t: Tid)
    requires Runs(P, S, t) && Safe(P, S, t) && S.threads[t].pc == Fetch
    requires t in StepFetch(P, S, t).threads && StepFetch(P, S, t).threads[t].pc == Idle
    ensures var th := S.threads[t];
      && StepFetch(P, S, t).places == MoveAll(S.places, th.mine, Client)
      && (|th.mine| >= th.n || (S.cs[th.c].nonempty == [] && (th.mine != [] || th.tried)))
  {
    hide MoveAll;
  }

  lemma FetchHands(P: Params, S: State, total: int, t: Tid, ch: Choice, failed: bool)
    requires Inv(P, S, total) && Runs(P, S, t) && Safe(P, S, t) && S.threads[t].pc == Fetch
    requires Gathers(S.threads[t], ch) && (Hungry(S, t) ==> failed)
    requires t in StepFetch(P, S, t).threads && StepFetch(P, S, t).threads[t].pc == Idle
    ensures Removed(S, Handed(S.places, StepFetch(P, S, t).places), ch.c, ch.n, failed)
  {
    hide Inv, MoveAll, Handed, NoDup, StepFetch;
    var th := S.threads[t];
    FetchEnds(P, S, t);
    hide Safe;
    ThreadAt(P, S, total, t);
    MineOk(P, S, total, t);
    ChainHanded(S.places, th.mine, Flight(t));
    var out := Handed(S.places, MoveAll(S.places, th.mine, Client));
    assert th.mine != [] ==> th.mine[0] in out;
  }

  lemma SlotOk(P: Params, S: State, total: int, c: nat)
    requires Inv(P, S, total) && c < |S.cs| && S.cs[c].slots != []
    ensures var q := S.cs[c].slots; var chain := q[|q| - 1];
      && P.Valid() && |S.cs| == P.N() && |chain| == P.batch[c] && NoDup(chain)
      && forall o :: o in chain ==> o in S.places && S.places[o] == InCache(c) && InClass(S, o, c)
  {
    hide LocksOk, SpansOk, UniverseOk, ThreadsOk, CentralsOk, Credits, HoldersOk, Flatten, NoDup;
    var q := S.cs[c].slots;
    var chain := q[|q| - 1];
    CentralCacheAt(P, S.cs, c);
    assert q == q[..|q| - 1] + [chain];
    FlattenPush(q[..|q| - 1], chain);
    BoxAt(S, InCache(c));
    NoDupParts(Flatten(q[..|q| - 1]), chain);
    CacheClassAt(S.spans, S.pagemap, S.cs, c);
  }

  /** A full batch is served from the newest transfer slot, if there is one. */
  lemma ServeHands(P: Params, S: State, total: int, t: Tid)
    requires Inv(P, S, total) && Runs(P, S, t) && S.threads[t].pc == Remove
    ensures var th, S' := S.threads[t], StepRemove(P, S, t); var q := S.cs[th.c].slots;
      && t in S'.threads && (S'.threads[t].pc == Idle <==> th.n == P.batch[th.c] && q != [])
      && (S'.threads[t].pc == Idle ==>
            && |S'.cs| == |S.cs| && S'.cs[th.c].slots == q[..|q| - 1] && S'.spans == S.spans
            && |Handed(S.places, S'.places)| == th.n
            && forall o :: o in Handed(S.places, S'.places) <==> o in q[|q| - 1])
  {
    hide Inv, MoveAll, Handed, NoDup;
    var th := S.threads[t];
    if th.n == P.batch[th.c] && S.cs[th.c].slots != [] {
      SlotOk(P, S, total, th.c);
      var q := S.cs[th.c].slots;
      ChainHanded(S.places, q[|q| - 1], InCache(th.c));
    }
  }

  /** RemoveRange, from its beginning with step j to its end with step i. */
  lemma RemoveOutcome(P: Params, states: seq<State>, steps: seq<(Tid, Choice)>, t: Tid, j: nat, i: nat)
    requires IsRun(P, states, steps) && Busy(states, steps, t, j, i) && steps[j].1.BeginRemove?
    requires i < |steps| && steps[i].0 == t && t in states[i + 1].threads && states[i + 1].threads[t].pc == Idle
    ensures Removed(states[i], Handed(states[i].places, states[i + 1].places), steps[j].1.c, steps[j].1.n,
                    HeapFailed(steps, t, j, i))
  {
    var S, total := states[i], SlotTotal(states[0].cs);
    Remover(P, states, steps, t, j, i);
    RunKeeps(P, states, steps, i);
    RunMoves(P, states, steps, i, t);
    assert Next(P, S, t, steps[i].1, states[i + 1]);
    hide IsRun, Inv, Busy, HeapFailed, Handed, Removed;
    EndsThere(S.threads[t], states[i + 1].threads[t], steps[i].1);
    EndStep(P, S, t, steps[i].1);
    hide Step, Next;
    if S.threads[t].pc == Fetch {
      FetchHands(P, S, total, t, steps[j].1, HeapFailed(steps, t, j, i));
    } else {
      ServeRemoved(P, S, total, t, steps[j].1, HeapFailed(steps, t, j, i));
    }
  }

  /** The page heap is asked only when the class has no free object. */
  lemma AsksWhenEmpty(P: Params, states: seq<State>, steps: seq<(Tid, Choice)>, i: nat)
    requires IsRun(P, states, steps) && i < |steps| && steps[i].0 in states[i].threads
    requires states[i].threads[steps[i].0].pc == Fetch
    requires steps[i].0 in states[i + 1].threads && states[i + 1].threads[steps[i].0].pc == AtHeap
    ensures var th := states[i].threads[steps[i].0];
      th.c < |states[i].cs| && states[i].cs[th.c].nonempty == [] && th.mine == []
  {
    var S, t := states[i], steps[i].0;
    RunKeeps(P, states, steps, i);
    assert Next(P, S, t, steps[i].1, states[i + 1]);
    hide IsRun, Inv;
    FetchHolds(P, S, SlotTotal(states[0].cs), t);
    EndStep(P, S, t, steps[i].1);
    FetchAsks(P, S, t);
    hide Step, Enabled, StepFetch;
  }

  lemma FetchAsks(P: Params, S: State, t: Tid)
    requires Runs(P, S, t) && Safe(P, S, t) && S.threads[t].pc == Fetch && t in StepFetch(P, S, t).threads
    ensures StepFetch(P, S, t).threads[t].pc == AtHeap ==>
      S.cs[S.threads[t].c].nonempty == [] && S.threads[t].mine == []
  {
    hide MoveAll;
  }

  lemma EndsThere(th: Thread, th': Thread, ch: Choice)
    requires Move(th, th', ch) && Removing(th.pc) && th'.pc == Idle
    ensures th.pc == Remove || th.pc == Fetch
  {
  }

  lemma ServeRemoved(P: Params, S: State, total: int, t: Tid, ch: Choice, failed: bool)
    requires Inv(P, S, total) && Runs(P, S, t) && S.threads[t].pc == Remove && Gathers(S.threads[t], ch)
    requires t in StepRemove(P, S, t).threads && StepRemove(P, S, t).threads[t].pc == Idle
    ensures Removed(S, Handed(S.places, StepRemove(P, S, t).places), ch.c, ch.n, failed)
  {
    hide Inv, Handed, StepRemove, NoDup;
    ServeHands(P, S, total, t);
    SlotOk(P, S, total, ch.c);
  }

  /** A batch is taken from the newest transfer slot whenever there is one, as it was put
      there, and no span is touched. */
  lemma BatchFromCache(P: Params, states: seq<State>, steps: seq<(Tid, Choice)>, i: nat)
    requires IsRun(P, states, steps) && i < |steps|
    requires steps[i].0 in states[i].threads && states[i].threads[steps[i].0].pc == Remove
    ensures var S, S', t := states[i], states[i + 1], steps[i].0;
      var th := S.threads[t];
      && th.c < |S.cs| == P.N() == |P.batch|
      && (th.n == P.batch[th.c] && S.cs[th.c].slots != [] ==>
            var q := S.cs[th.c].slots;
            && t in S'.threads && S'.threads[t].pc == Idle && S'.spans == S.spans
            && |S'.cs| == |S.cs| && S'.cs[th.c].slots == q[..|q| - 1]
            && forall o :: o in Handed(S.places, S'.places) <==> o in q[|q| - 1])
  {
    var S, t := states[i], steps[i].0;
    RunKeeps(P, states, steps, i);
    assert Next(P, S, t, steps[i].1, states[i + 1]);
    hide IsRun, Inv, Handed;
    EndStep(P, S, t, steps[i].1);
    ThreadAt(P, S, SlotTotal(states[0].cs), t);
    ServeHands(P, S, SlotTotal(states[0].cs), t);
    hide Step, StepRemove;
  }

  // Nothing but RemoveRange puts an object into the clients' hands.

  ghost predicate KeepsFrom(S: State, S': State, o: Obj) {
    o in S'.places && S'.places[o] == Client ==> o in S.places && S.places[o] == Client
  }

  lemma InsertKeepsFrom(P: Params, S: State, t: Tid, ch: Choice, o: Obj)
    requires Runs(P, S, t)
    ensures KeepsFrom(S, StepInsert(P, S, t), o) && KeepsFrom(S, StepBack(P, S, t), o)
    ensures ch.Pick? && ch.v < P.N() ==> KeepsFrom(S, StepEvict(P, S, t, ch.v), o)
  {
  }

  lemma ShedKeepsFrom(P: Params, S: State, t: Tid, o: Obj)
    requires Runs(P, S, t) && Safe(P, S, t)
    ensures KeepsFrom(S, StepVictim(P, S, t), o) && KeepsFrom(S, StepDeleting(S, t), o)
    ensures S.threads[t].pc == Release ==> KeepsFrom(S, StepRelease(P, S, t), o)
  {
    hide Revive, ObjectsOf, Without;
  }

  lemma FetchKeepsFrom(P: Params, S: State, t: Tid, ch: Choice, o: Obj)
    requires Runs(P, S, t) && Safe(P, S, t)
    ensures var S' := StepRemove(P, S, t); KeepsFrom(S, S', o) || (t in S'.threads && S'.threads[t].pc == Idle)
    ensures S.threads[t].pc == Fetch ==>
      var S' := StepFetch(P, S, t); KeepsFrom(S, S', o) || (t in S'.threads && S'.threads[t].pc == Idle)
    ensures ch.NewOk? ==> KeepsFrom(S, AddSpan(P, S, t, ch.s, ch.start), o)
    ensures S.threads[t].pc == PopulateLock ==> KeepsFrom(S, ListSpan(S, t), o)
  {
    hide Chain, PageHeapOps.PutRange, MoveAll;
  }

  lemma BeginKeepsFrom(S: State, t: Tid, th: Thread, q: seq<Obj>, o: Obj)
    ensures KeepsFrom(S, Put(S, t, th).(places := MoveAll(S.places, q, Flight(t))), o)
  {
  }

  lemma StepKeepsFrom(P: Params, S: State, t: Tid, ch: Choice, o: Obj)
    requires Runs(P, S, t) && Enabled(P, S, t, ch) && Safe(P, S, t)
    ensures
      || KeepsFrom(S, Step(P, S, t, ch), o)
      || ((S.threads[t].pc == Remove || S.threads[t].pc == Fetch) && t in Step(P, S, t, ch).threads &&
            Step(P, S, t, ch).threads[t].pc == Idle)
  {
    hide Step, Enabled, StepInsert, StepBack, StepEvict, StepVictim, StepRelease, StepDeleting, StepRemove, StepFetch,
         AddSpan, ListSpan, MoveAll;
    var th := S.threads[t];
    EndStep(P, S, t, ch);
    OtherStep(P, S, t, ch);
    if WaitsForLock(th.pc) {
      LockStepIs(P, S, t, ch);
    } else if th.pc == Idle {
      FirstStep(P, S, t, ch);
      if ch.BeginInsert? {
        BeginKeepsFrom(S, t, th.(pc := InsertLock, c := ch.c, mine := ch.chain), ch.chain, o);
      }
    } else if Removing(th.pc) {
      FetchKeepsFrom(P, S, t, ch, o);
    } else {
      InsertKeepsFrom(P, S, t, ch, o);
      ShedKeepsFrom(P, S, t, o);
    }
  }

  /** In every run an object comes into the clients' hands only when a RemoveRange ends. */
  lemma OnlyRemoveHands(P: Params, states: seq<State>, steps: seq<(Tid, Choice)>, i: nat, o: Obj)
    requires IsRun(P, states, steps) && i < |steps| && o in Handed(states[i].places, states[i + 1].places)
    ensures steps[i].0 in states[i].threads && Removing(states[i].threads[steps[i].0].pc)
    ensures steps[i].0 in states[i + 1].threads && states[i + 1].threads[steps[i].0].pc == Idle
  {
    var S, t := states[i], steps[i].0;
    RunKeeps(P, states, steps, i);
    assert Next(P, S, t, steps[i].1, states[i + 1]);
    hide IsRun, Inv, Step, Enabled, Safe;
    StepKeepsFrom(P, S, t, steps[i].1, o);
  }

  // ------------------------------------------------------------- InsertRange

  /** How often thread t picked another class between steps j and i. */
  ghost function Picks(steps: seq<(Tid, Choice)>, t: Tid, j: nat, i: nat): set<nat> {
    set k | j < k < i && k < |steps| && steps[k].0 == t && steps[k].1.Pick?
  }

  lemma PicksOn(steps: seq<(Tid, Choice)>, t: Tid, j: nat, i: nat)
    requires j < i < |steps|
    ensures |Picks(steps, t, j, i + 1)| ==
            |Picks(steps, t, j, i)| + if steps[i].0 == t && steps[i].1.Pick? then 1 else 0
  {
    var a, b := Picks(steps, t, j, i), Picks(steps, t, j, i + 1);
    if steps[i].0 == t && steps[i].1.Pick? {
      assert b == a + {i};
    } else {
      assert b == a;
    }
  }

  /** The attempts at eviction that led here. */
  function Attempts(th: Thread): nat {
    if th.pc == InsertLock || th.pc == Insert then 0
    else (if th.pc == Evict then 0 else 1) + (if th.force then 1 else 0)
  }

  /** The thread still carries the chain, after so many attempts; or it is giving it back. */
  ghost predicate Carries(th: Thread, ch: Choice, picks: nat) {
    if Inserting(th) then ch.BeginInsert? && th.c == ch.c && th.mine == ch.chain && Attempts(th) == picks
    else Sheds(th.pc)
  }

  lemma CarriesOn(th: Thread, th': Thread, ch: Choice, begun: Choice, picks: nat)
    requires Carries(th, begun, picks) && Move(th, th', ch) && th'.pc != Idle
    ensures Carries(th', begun, picks + if ch.Pick? then 1 else 0)
  {
    hide RemoveMove, IdleMove, InsertMove;
    assert InsertMove(th, th', ch);
    if Sheds(th.pc) {
      CarriesShed(th, th', ch, begun, picks);
    } else if Evicts(th.pc) {
      CarriesEvict(th, th', ch, begun, picks);
    } else {
      CarriesFirst(th, th', ch, begun, picks);
    }
  }

  lemma CarriesFirst(th: Thread, th': Thread, ch: Choice, begun: Choice, picks: nat)
    requires Carries(th, begun, picks) && InsertMove(th, th', ch) && th'.pc != Idle
    requires th.pc == InsertLock || th.pc == Insert
    ensures Carries(th', begun, picks)
  {
  }

  lemma CarriesShed(th: Thread, th': Thread, ch: Choice, begun: Choice, picks: nat)
    requires Carries(th, begun, picks) && InsertMove(th, th', ch) && th'.pc != Idle && Sheds(th.pc)
    ensures Carries(th', begun, picks)
  {
  }

  lemma CarriesEvict(th: Thread, th': Thread, ch: Choice, begun: Choice, picks: nat)
    requires Carries(th, begun, picks) && InsertMove(th, th', ch) && th'.pc != Idle && Evicts(th.pc)
    requires ch.Pick? ==> th.pc == Evict
    ensures Carries(th', begun, picks + if ch.Pick? then 1 else 0)
  {
  }

  ghost predicate InsertHistory(states: seq<State>, steps: seq<(Tid, Choice)>, t: Tid, j: nat, i: nat) {
    Busy(states, steps, t, j, i) && Carries(states[i].threads[t], steps[j].1, |Picks(steps, t, j, i)|)
  }

  lemma InsertHistoryOn(states: seq<State>, steps: seq<(Tid, Choice)>, t: Tid, j: nat, i: nat)
    requires InsertHistory(states, steps, t, j, i) && i < |steps| && t in states[i + 1].threads
    requires states[i + 1].threads[t].pc != Idle
    requires Moved(states[i], states[i + 1], t, steps[i])
    ensures InsertHistory(states, steps, t, j, i + 1)
  {
    BusyOn(states, steps, t, j, i);
    PicksOn(steps, t, j, i);
    hide Busy, Picks, Move;
    if steps[i].0 == t {
      CarriesOn(states[i].threads[t], states[i + 1].threads[t], steps[i].1, steps[j].1, |Picks(steps, t, j, i)|);
    }
  }

  lemma InserterStarts(P: Params, states: seq<State>, steps: seq<(Tid, Choice)>, t: Tid, j: nat)
    requires IsRun(P, states, steps) && Busy(states, steps, t, j, j + 1) && steps[j].1.BeginInsert?
    ensures InsertHistory(states, steps, t, j, j + 1)
  {
    RunMoves(P, states, steps, j, t);
    BeginsIdle(P, states, steps, j);
    hide IsRun;
    BusyBefore(states, steps, t, j, j + 1);
    hide Busy, RemoveMove, InsertMove;
  }

  /** A thread that began InsertRange and is not done carries the chain or gives it back. */
  lemma {:induction false} Inserter(P: Params, states: seq<State>, steps: seq<(Tid, Choice)>, t: Tid, j: nat, i: nat)
    requires IsRun(P, states, steps) && Busy(states, steps, t, j, i) && steps[j].1.BeginInsert?
    ensures InsertHistory(states, steps, t, j, i)
    decreases i
  {
    hide *;
    BusyBefore(states, steps, t, j, i);
    if i == j + 1 {
      InserterStarts(P, states, steps, t, j);
    } else {
      Inserter(P, states, steps, t, j, i - 1);
      RunMoves(P, states, steps, i - 1, t);
      InsertHistoryOn(states, steps, t, j, i - 1);
    }
  }

  /** The whole chain is in one new transfer slot of its class. */
  ghost predicate Stored(P: Params, S: State, S': State, t: Tid, c: nat, chain: seq<Obj>) {
    && c < |S.cs| == |S'.cs| && c < |P.batch| && |chain| == P.batch[c]
    && t in S'.threads && S'.threads[t].pc == Idle
    && S'.cs[c].slots == S.cs[c].slots + [chain]
    && forall o :: o in chain ==> o in S'.places && S'.places[o] == InCache(c)
  }

  /** The chain is not a batch; or there was no slot for it when the lock was taken, and
      the cache is as large as it may be or two attempts to take a slot from another
      class failed. */
  ghost predicate NoSlot(P: Params, S: State, t: Tid, c: nat, chain: seq<Obj>, picks: nat)
    requires t in S.threads
  {
    && c < |S.cs| && c < |P.batch| && c < |P.maxCache|
    && (|chain| == P.batch[c] ==>
          && (S.threads[t].pc == Insert ==> |S.cs[c].slots| >= S.cs[c].cacheSize)
          && (S.cs[c].cacheSize >= P.maxCache[c] || (picks == 2 && !HasCredit(S.threads[t]))))
  }

  ghost predicate Released(S': State, t: Tid, chain: seq<Obj>) {
    t in S'.threads && S'.threads[t].pc == Release && S'.threads[t].shed == chain && !S'.threads[t].back
  }

  lemma InsertLeaves(P: Params, S: State, t: Tid)
    requires Runs(P, S, t) && S.threads[t].pc == Insert && t in StepInsert(P, S, t).threads
    requires !Inserting(StepInsert(P, S, t).threads[t])
    ensures var th, S' := S.threads[t], StepInsert(P, S, t); var cen := S.cs[th.c];
      || (|th.mine| == P.batch[th.c] && S' == Unlock(PushSlot(S, t), th.c))
      || (Released(S', t, th.mine) &&
            (|th.mine| != P.batch[th.c] || (|cen.slots| >= cen.cacheSize && cen.cacheSize == P.maxCache[th.c])))
  {
    hide PushSlot;
  }

  lemma LeaveInsert(P: Params, S: State, total: int, t: Tid, ch: Choice, picks: nat)
    requires Inv(P, S, total) && Runs(P, S, t) && S.threads[t].pc == Insert && Carries(S.threads[t], ch, picks)
    requires t in StepInsert(P, S, t).threads && !Inserting(StepInsert(P, S, t).threads[t])
    ensures Left(P, S, StepInsert(P, S, t), t, ch, 0)
  {
    hide Inv, MoveAll, NoDup, StepInsert, Attempts, HasCredit;
    LocalsAt(P, S, total, t);
    MineOk(P, S, total, t);
    assert S.threads[t].mine == ch.chain && S.threads[t].c == ch.c && ch.BeginInsert?;
    hide LocalsOk, Carries, Inserting;
    InsertLeaves(P, S, t);
    MovedAll(S.places, ch.chain, InCache(ch.c));
  }

  lemma NoPicks(th: Thread, ch: Choice, picks: nat)
    requires th.pc == Insert && Carries(th, ch, picks)
    ensures picks == 0
  {
  }

  lemma LeaveBack(P: Params, S: State, total: int, t: Tid, ch: Choice, picks: nat)
    requires Inv(P, S, total) && Runs(P, S, t) && S.threads[t].pc == BackLock && Carries(S.threads[t], ch, picks)
    requires t in StepBack(P, S, t).threads && !Inserting(StepBack(P, S, t).threads[t])
    ensures Left(P, S, StepBack(P, S, t), t, ch, picks)
  {
    hide Inv, MoveAll, NoDup;
    LocalsAt(P, S, total, t);
    MineOk(P, S, total, t);
    MovedAll(S.places, ch.chain, InCache(ch.c));
  }

  lemma EvictLeaves(th: Thread, th': Thread, ch: Choice)
    requires th.pc == Evict && InsertMove(th, th', ch) && !Inserting(th')
    ensures th.force && th'.pc == Release && th'.shed == th.mine && !th'.back
  {
  }

  lemma LeaveEvict(P: Params, S: State, total: int, t: Tid, v: nat, ch: Choice, picks: nat)
    requires Inv(P, S, total) && Runs(P, S, t) && S.threads[t].pc == Evict && Carries(S.threads[t], ch, picks)
    requires v < P.N() && t in StepEvict(P, S, t, v).threads && !Inserting(StepEvict(P, S, t, v).threads[t])
    ensures Left(P, S, StepEvict(P, S, t, v), t, ch, picks + 1)
  {
    hide Inv, Stored, StepEvict;
    LocalsAt(P, S, total, t);
    EvictMoves(P, S, t, Pick(v));
    EvictLeaves(S.threads[t], StepEvict(P, S, t, v).threads[t], Pick(v));
    hide Inserting, InsertMove;
  }

  lemma MovedAll(places: map<Obj, Place>, q: seq<Obj>, pl: Place)
    requires forall o :: o in q ==> o in places
    ensures forall o :: o in q ==> o in MoveAll(places, q, pl) && MoveAll(places, q, pl)[o] == pl
  {
  }

  /** The chain was stored, or it is given back for want of a slot. */
  ghost predicate Left(P: Params, S: State, S': State, t: Tid, ch: Choice, picks: nat)
    requires t in S.threads
  {
    ch.BeginInsert? &&
    (Stored(P, S, S', t, ch.c, ch.chain) || (Released(S', t, ch.chain) && NoSlot(P, S, t, ch.c, ch.chain, picks)))
  }

  lemma LeavesThere(th: Thread, th': Thread, ch: Choice)
    requires Move(th, th', ch) && Inserting(th) && !Inserting(th')
    ensures th.pc == Insert || th.pc == BackLock || th.pc == Evict
  {
  }

  /** InsertRange, from its beginning with step j to step i, with which it parts from its
      chain. */
  lemma InsertOutcome(P: Params, states: seq<State>, steps: seq<(Tid, Choice)>, t: Tid, j: nat, i: nat)
    requires IsRun(P, states, steps) && Busy(states, steps, t, j, i) && steps[j].1.BeginInsert?
    requires i < |steps| && steps[i].0 == t && Inserting(states[i].threads[t])
    requires t in states[i + 1].threads && !Inserting(states[i + 1].threads[t])
    ensures Left(P, states[i], states[i + 1], t, steps[j].1, |Picks(steps, t, j, i + 1)|)
    ensures |Picks(steps, t, j, i + 1)| <= 2
  {
    var S, total, picks := states[i], SlotTotal(states[0].cs), |Picks(steps, t, j, i)|;
    Inserter(P, states, steps, t, j, i);
    PicksOn(steps, t, j, i);
    RunKeeps(P, states, steps, i);
    RunMoves(P, states, steps, i, t);
    assert Next(P, S, t, steps[i].1, states[i + 1]);
    hide IsRun, Inv, Busy, Picks, Move, Inserting, Carries;
    LeavesThere(S.threads[t], states[i + 1].threads[t], steps[i].1);
    EndStep(P, S, t, steps[i].1);
    hide Step, Enabled, Safe;
    hide Left, StepInsert, StepBack, StepEvict;
    if S.threads[t].pc == Insert {
      NoPicks(S.threads[t], steps[j].1, picks);
      LeaveInsert(P, S, total, t, steps[j].1, picks);
    } else if S.threads[t].pc == BackLock {
      LeaveBack(P, S, total, t, steps[j].1, picks);
    } else {
      LeaveEvict(P, S, total, t, steps[i].1.v, steps[j].1, picks);
    }
  }

  /** ShrinkCache under the victim's lock: a slot is taken from a class that has one free,
      and by the second attempt also from a full one, whose newest batch is then the
      thread's to release. */
  ghost predicate Shrinks(S: State, S': State, t: Tid, v: nat, second: bool) {
    && v < |S.cs| == |S'.cs| && t in S'.threads
    && var a, b := S.cs[v], S'.cs[v];
    && if a.cacheSize > 0 && (|a.slots| != a.cacheSize || second) then
         && HasCredit(S'.threads[t]) && b.cacheSize == a.cacheSize - 1
         && (if |a.slots| != a.cacheSize then b.slots == a.slots && S'.places == S.places
             else a.slots != [] && b.slots == a.slots[..|a.slots| - 1] && InFlight(S', t, a.slots[|a.slots| - 1]))
       else S'.cs == S.cs && S'.places == S.places && !HasCredit(S'.threads[t])
  }

  ghost predicate InFlight(S: State, t: Tid, chain: seq<Obj>) {
    forall o :: o in chain ==> o in S.places && S.places[o] == Flight(t)
  }

  lemma VictimThread(P: Params, S: State, t: Tid)
    requires Runs(P, S, t) && S.threads[t].pc == Victim && !S.threads[t].back
    ensures var th, cen, S' := S.threads[t], S.cs[S.threads[t].v], StepVictim(P, S, t);
      && t in S'.threads
      && (HasCredit(S'.threads[t]) <==> cen.cacheSize != 0 && (|cen.slots| != cen.cacheSize || th.force))
  {
    hide MoveAll;
  }

  lemma VictimCache(P: Params, S: State, t: Tid)
    requires Runs(P, S, t)
    ensures var th, a, S' := S.threads[t], S.cs[S.threads[t].v], StepVictim(P, S, t);
      && |S'.cs| == |S.cs|
      && if a.cacheSize == 0 || (|a.slots| == a.cacheSize && !th.force) then S'.cs == S.cs && S'.places == S.places
         else var b := S'.cs[th.v];
           && b.cacheSize == a.cacheSize - 1
           && if |a.slots| == a.cacheSize && a.slots != [] then
                && b.slots == a.slots[..|a.slots| - 1]
                && S'.places == MoveAll(S.places, a.slots[|a.slots| - 1], Flight(t))
              else b.slots == a.slots && S'.places == S.places
  {
    hide MoveAll;
  }

  lemma VictimStep(P: Params, S: State, total: int, t: Tid)
    requires Inv(P, S, total) && Runs(P, S, t) && S.threads[t].pc == Victim && !S.threads[t].back
    ensures Shrinks(S, StepVictim(P, S, t), t, S.threads[t].v, S.threads[t].force)
  {
    hide Inv, MoveAll, NoDup, StepVictim, HasCredit;
    var v := S.threads[t].v;
    var q := S.cs[v].slots;
    VictimThread(P, S, t);
    VictimCache(P, S, t);
    CacheAt(P, S, total, v);
    assert |q| <= S.cs[v].cacheSize;
    hide CentralCacheOk;
    if q != [] {
      SlotOk(P, S, total, v);
      MovedAll(S.places, q[|q| - 1], Flight(t));
      hide InClass;
    }
  }

  lemma Attempt(P: Params, th: Thread, ch: Choice, picks: nat)
    requires LocalsOk(P, th) && Carries(th, ch, picks)
    ensures th.pc == Victim ==> !th.back && (th.force <==> picks == 2)
    ensures th.pc == Evict ==> th.c == ch.c && (th.force <==> picks == 1)
  {
  }

  /** In every run an attempt at eviction takes a slot exactly when it may. */
  lemma Shrinking(P: Params, states: seq<State>, steps: seq<(Tid, Choice)>, t: Tid, j: nat, i: nat)
    requires IsRun(P, states, steps) && Busy(states, steps, t, j, i) && steps[j].1.BeginInsert?
    requires i < |steps| && steps[i].0 == t && states[i].threads[t].pc == Victim
    ensures Shrinks(states[i], states[i + 1], t, states[i].threads[t].v, |Picks(steps, t, j, i)| == 2)
  {
    var S := states[i];
    Inserter(P, states, steps, t, j, i);
    RunKeeps(P, states, steps, i);
    assert Next(P, S, t, steps[i].1, states[i + 1]);
    hide IsRun, Inv, Busy, Picks, Carries, Shrinks;
    EndStep(P, S, t, steps[i].1);
    hide Step, Enabled, Safe;
    LocalsAt(P, S, SlotTotal(states[0].cs), t);
    Attempt(P, S.threads[t], steps[j].1, |Picks(steps, t, j, i)|);
    VictimStep(P, S, SlotTotal(states[0].cs), t);
  }

  /** EvictRandomSizeClass goes for the class it picked exactly if that is another one whose
      cache has a free slot, or, the second time, any slot. */
  lemma Picking(P: Params, states: seq<State>, steps: seq<(Tid, Choice)>, t: Tid, j: nat, i: nat)
    requires IsRun(P, states, steps) && Busy(states, steps, t, j, i) && steps[j].1.BeginInsert?
    requires i < |steps| && steps[i].0 == t && states[i].threads[t].pc == Evict
    ensures var S, S', v := states[i], states[i + 1], steps[i].1.v;
      && steps[i].1.Pick? && v < |S.cs| && t in S'.threads
      && (S'.threads[t].pc == VictimLock <==>
            v != steps[j].1.c && S.cs[v].cacheSize != 0 &&
            (|S.cs[v].slots| != S.cs[v].cacheSize || |Picks(steps, t, j, i)| == 1))
      && (S'.threads[t].pc == VictimLock ==> S'.threads[t].v == v)
  {
    var S := states[i];
    Inserter(P, states, steps, t, j, i);
    RunKeeps(P, states, steps, i);
    assert Next(P, S, t, steps[i].1, states[i + 1]);
    hide IsRun, Inv, Busy, Picks;
    EndStep(P, S, t, steps[i].1);
    hide Step, Enabled, Safe;
    hide Carries, LocalsOk;
    LocalsAt(P, S, SlotTotal(states[0].cs), t);
    Attempt(P, S.threads[t], steps[j].1, |Picks(steps, t, j, i)|);
  }

  // ---------------------------------------------------------- transfer slots

  /** The slots of all classes and those on their way from one class to another. */
  ghost function Slots(S: State): int {
    SlotTotal(S.cs) + |Credits(S.threads)|
  }

  /** A slot was won from another class, but the own cache has grown to its limit meanwhile. */
  ghost predicate Wasted(P: Params, S: State, t: Tid)
    requires Runs(P, S, t)
  {
    var th := S.threads[t];
    th.pc == BackLock && th.ok && S.cs[th.c].cacheSize >= P.maxCache[th.c]
  }

  lemma CreditsStep(P: Params, S: State, t: Tid, ch: Choice)
    requires Runs(P, S, t) && Enabled(P, S, t, ch) && Safe(P, S, t) && t in Step(P, S, t, ch).threads
    ensures |Credits(Step(P, S, t, ch).threads)| ==
            |Credits(S.threads)| - Credit(S.threads[t]) + Credit(Step(P, S, t, ch).threads[t])
  {
    hide Step, Enabled, Safe, HasCredit;
    var S' := Step(P, S, t, ch);
    var a, b := Credits(S.threads), Credits(S'.threads);
    forall u | u != t
      ensures u in a <==> u in b
    {
      StepOnly(P, S, t, ch, u);
    }
    assert a - {t} == b - {t};
    assert a == if t in a then (a - {t}) + {t} else a - {t};
    assert b == if t in b then (b - {t}) + {t} else b - {t};
  }

  /** What class d gains in slots, thread t loses in credit, unless the slot is wasted. */
  ghost predicate Balanced(P: Params, S: State, S': State, t: Tid, d: nat)
    requires Runs(P, S, t)
  {
    && t in S'.threads && d < |S'.cs| == |S.cs|
    && S'.cs[d].cacheSize - S.cs[d].cacheSize + Credit(S'.threads[t]) - Credit(S.threads[t]) ==
       if Wasted(P, S, t) then -1 else 0
  }

  lemma BalancedInsert(P: Params, S: State, t: Tid)
    requires Runs(P, S, t) && LocalsOk(P, S.threads[t]) && S.threads[t].pc == Insert
    ensures Balanced(P, S, StepInsert(P, S, t), t, S.threads[t].c)
  {
    assert !HasCredit(S.threads[t]);
    hide MoveAll, LocalsOk;
  }

  lemma BalancedBack(P: Params, S: State, t: Tid)
    requires Runs(P, S, t) && LocalsOk(P, S.threads[t]) && S.threads[t].pc == BackLock
    ensures Balanced(P, S, StepBack(P, S, t), t, S.threads[t].c)
  {
    assert !S.threads[t].back;
    hide MoveAll, LocalsOk;
  }

  lemma BalancedEvict(P: Params, S: State, t: Tid, v: nat)
    requires Runs(P, S, t) && LocalsOk(P, S.threads[t]) && v < P.N() && S.threads[t].pc == Evict
    ensures Balanced(P, S, StepEvict(P, S, t, v), t, S.threads[t].c)
  {
    assert !S.threads[t].back;
    hide LocalsOk;
  }

  lemma BalancedVictim(P: Params, S: State, t: Tid)
    requires Runs(P, S, t) && LocalsOk(P, S.threads[t]) && S.threads[t].pc == Victim
    ensures Balanced(P, S, StepVictim(P, S, t), t, S.threads[t].v)
  {
    assert !S.threads[t].back;
    hide MoveAll, LocalsOk;
  }

  lemma BalancedControl(P: Params, S: State, t: Tid, ch: Choice)
    requires Runs(P, S, t) && LocalsOk(P, S.threads[t]) && Enabled(P, S, t, ch) && Safe(P, S, t)
    requires S.threads[t].pc == Idle || WaitsForLock(S.threads[t].pc) || (S.threads[t].pc == AtHeap && !ch.NewOk?)
    ensures Balanced(P, S, Step(P, S, t, ch), t, Written(S.threads[t]))
  {
    hide StepInsert, StepBack, StepEvict, StepVictim, StepRelease, StepDeleting, StepRemove, StepFetch, AddSpan,
         ListSpan, MoveAll, NoDup, Findable, Safe;
  }

  lemma BalancedWriting(P: Params, S: State, t: Tid, ch: Choice)
    requires Runs(P, S, t) && LocalsOk(P, S.threads[t]) && Enabled(P, S, t, ch) && Safe(P, S, t)
    requires S.threads[t].pc == Insert || S.threads[t].pc == BackLock || S.threads[t].pc == Evict
    ensures Balanced(P, S, Step(P, S, t, ch), t, Written(S.threads[t]))
  {
    EndStep(P, S, t, ch);
    hide Step, Enabled, Safe, LocalsOk, Balanced, StepInsert, StepBack, StepEvict;
    match S.threads[t].pc
    case Insert => BalancedInsert(P, S, t);
    case BackLock => BalancedBack(P, S, t);
    case Evict => BalancedEvict(P, S, t, ch.v);
  }

  lemma BalancedShed(P: Params, S: State, t: Tid)
    requires Runs(P, S, t) && LocalsOk(P, S.threads[t]) && Safe(P, S, t)
    ensures S.threads[t].pc == Release ==> Balanced(P, S, StepRelease(P, S, t), t, S.threads[t].v)
    ensures S.threads[t].pc == Deleting ==> Balanced(P, S, StepDeleting(S, t), t, S.threads[t].c)
  {
    hide ObjectsOf, Without;
  }

  lemma BalancedRemove(P: Params, S: State, t: Tid)
    requires Runs(P, S, t) && LocalsOk(P, S.threads[t]) && S.threads[t].pc == Remove
    ensures Balanced(P, S, StepRemove(P, S, t), t, S.threads[t].c)
  {
    assert !S.threads[t].back;
    hide MoveAll, LocalsOk;
  }

  lemma BalancedFetch(P: Params, S: State, t: Tid)
    requires Runs(P, S, t) && LocalsOk(P, S.threads[t]) && Safe(P, S, t) && S.threads[t].pc == Fetch
    ensures Balanced(P, S, StepFetch(P, S, t), t, S.threads[t].c)
  {
    assert !S.threads[t].back;
    hide MoveAll, LocalsOk;
  }

  lemma BalancedPopulate(P: Params, S: State, t: Tid, ch: Choice)
    requires Runs(P, S, t) && LocalsOk(P, S.threads[t]) && Safe(P, S, t)
    ensures S.threads[t].pc == AtHeap && ch.NewOk? ==>
      Balanced(P, S, AddSpan(P, S, t, ch.s, ch.start), t, S.threads[t].c)
    ensures S.threads[t].pc == PopulateLock ==>
      Balanced(P, S, Lock(ListSpan(S, t), S.threads[t].c, t), t, S.threads[t].c)
  {
    hide Chain, PageHeapOps.PutRange, MoveAll;
  }

  lemma StepBalanced(P: Params, S: State, t: Tid, ch: Choice)
    requires Runs(P, S, t) && LocalsOk(P, S.threads[t]) && Enabled(P, S, t, ch) && Safe(P, S, t)
    ensures Balanced(P, S, Step(P, S, t, ch), t, Written(S.threads[t]))
  {
    hide Step, Enabled, LocalsOk, Balanced, StepVictim, StepRelease, StepDeleting, StepRemove, StepFetch, AddSpan,
         ListSpan;
    var pc := S.threads[t].pc;
    if pc == Insert || pc == BackLock || pc == Evict {
      BalancedWriting(P, S, t, ch);
    } else if pc == Idle || WaitsForLock(pc) || (pc == AtHeap && !ch.NewOk?) {
      BalancedControl(P, S, t, ch);
    } else {
      EndStep(P, S, t, ch);
      OtherStep(P, S, t, ch);
      if pc == Victim {
        BalancedVictim(P, S, t);
      } else if pc == Remove {
        BalancedRemove(P, S, t);
      } else if pc == Fetch {
        BalancedFetch(P, S, t);
      } else {
        BalancedShed(P, S, t);
        BalancedPopulate(P, S, t, ch);
      }
    }
  }

  /** In every run no step makes or loses a transfer slot, except that a slot which its
      winner can no longer use is lost. */
  lemma SlotsConserved(P: Params, states: seq<State>, steps: seq<(Tid, Choice)>, i: nat)
    requires IsRun(P, states, steps) && i < |steps|
    ensures Runs(P, states[i], steps[i].0)
    ensures Slots(states[i + 1]) == Slots(states[i]) - if Wasted(P, states[i], steps[i].0) then 1 else 0
  {
    var S, S', t, ch := states[i], states[i + 1], steps[i].0, steps[i].1;
    RunKeeps(P, states, steps, i);
    assert Next(P, S, t, ch, S');
    hide IsRun, Inv, Step, Enabled, Safe, SlotTotal, Credits, HasCredit, Wasted;
    LocalsAt(P, S, SlotTotal(states[0].cs), t);
    StepBalanced(P, S, t, ch);
    CreditsStep(P, S, t, ch);
    OneClass(P, S, t, ch);
    SlotTotalChange(S.cs, Written(S.threads[t]), S'.cs[Written(S.threads[t])]);
  }

  lemma OneClass(P: Params, S: State, t: Tid, ch: Choice)
    requires Runs(P, S, t) && Enabled(P, S, t, ch) && Safe(P, S, t)
    ensures var S', d := Step(P, S, t, ch), Written(S.threads[t]);
      |S'.cs| == |S.cs| && d < |S.cs| && S'.cs == S.cs[d := S'.cs[d]]
  {
    hide Step, Enabled, Safe;
    if Writes(S.threads[t].pc) {
      StepWrites(P, S, t, ch);
    } else {
      QuietSteps(P, S, t, ch);
    }
  }

  // ------------------------------------------------------- spans and memory

  /** The class of the span the page map finds for an object. */
  ghost function ClassOf(S: State, o: Obj): nat
    requires o / 8192 in S.pagemap && S.pagemap[o / 8192] in S.spans
  {
    S.spans[S.pagemap[o / 8192]].cls
  }

  lemma {:induction false} UniverseAt(base: nat, size: nat, n: nat, o: Obj) returns (k: nat)
    requires size > 0 && o in Universe(base, size, n)
    ensures k < n && o == base + k * size
  {
    if o == base + (n - 1) * size {
      k := n - 1;
    } else {
      k := UniverseAt(base, size, n - 1, o);
    }
  }

  lemma Apart(base: nat, size: nat, j: nat, k: nat)
    requires j < k
    ensures base + j * size + size <= base + k * size
  {
    MulMonotone(j + 1, k, size);
    assert (j + 1) * size == j * size + size;
  }

  lemma SameSpanApart(base: nat, size: nat, n: nat, o: Obj, p: Obj)
    requires size > 0 && o in Universe(base, size, n) && p in Universe(base, size, n) && o != p
    ensures o + size <= p || p + size <= o
  {
    var j := UniverseAt(base, size, n, o);
    var k := UniverseAt(base, size, n, p);
    if j < k {
      Apart(base, size, j, k);
    } else {
      Apart(base, size, k, j);
    }
  }

  /** An object lies within its span's pages. */
  lemma InPages(P: Params, sp: Span, o: Obj)
    requires P.Valid() && sp.cls < P.N() && o in ObjectsOf(P, sp)
    ensures sp.start * 8192 <= o && o + P.size[sp.cls] <= (sp.start + P.pages[sp.cls]) * 8192
  {
    var base, size, n := sp.start * 8192, P.size[sp.cls], P.Count(sp.cls);
    var k := UniverseAt(base, size, n, o);
    CountFits(P, sp.cls);
    Apart(base, size, k, n);
  }

  lemma OtherPages(P: Params, spans: map<SpanId, Span>, pagemap: map<nat, SpanId>, s: SpanId, u: SpanId)
    requires P.Valid() && SpansOk(P, spans, pagemap) && s in spans && u in spans && s != u
    ensures var a, b := spans[s], spans[u];
      a.cls < P.N() && b.cls < P.N() && (a.start + P.pages[a.cls] <= b.start || b.start + P.pages[b.cls] <= a.start)
  {
    var a, b := spans[s], spans[u];
    assert SpanOk(P, s, a, pagemap) && SpanOk(P, u, b, pagemap);
    CountFits(P, a.cls);
    CountFits(P, b.cls);
    var q := if a.start < b.start then b.start else a.start;
    assert a.start <= q < a.start + P.pages[a.cls] ==> q in pagemap && pagemap[q] == s;
    assert b.start <= q < b.start + P.pages[b.cls] ==> q in pagemap && pagemap[q] == u;
  }

  /** In every reachable state no two objects share memory. */
  lemma NoOverlap(P: Params, states: seq<State>, steps: seq<(Tid, Choice)>, i: nat, o: Obj, p: Obj)
    requires IsRun(P, states, steps) && i < |states| && o in states[i].places && p in states[i].places && o != p
    ensures Findable(P, states[i], o) && Findable(P, states[i], p)
    ensures o + P.size[ClassOf(states[i], o)] <= p || p + P.size[ClassOf(states[i], p)] <= o
  {
    var S := states[i];
    RunKeeps(P, states, steps, i);
    hide IsRun, LocksOk, CacheOk, CentralsOk, CacheClassOk, ThreadsOk, Credits, BoxesOk, HoldersOk, Universe, ObjectsOf;
    var s, u := S.pagemap[o / 8192], S.pagemap[p / 8192];
    assert SpanOk(P, s, S.spans[s], S.pagemap) && SpanOk(P, u, S.spans[u], S.pagemap);
    hide SpanOk, Inv, UniverseOk;
    if s == u {
      OneSpan(P, S.spans[s], o, p);
    } else {
      InPages(P, S.spans[s], o);
      InPages(P, S.spans[u], p);
      OtherPages(P, S.spans, S.pagemap, s, u);
    }
  }

  lemma OneSpan(P: Params, sp: Span, o: Obj, p: Obj)
    requires P.Valid() && sp.cls < P.N() && o in ObjectsOf(P, sp) && p in ObjectsOf(P, sp) && o != p
    ensures o + P.size[sp.cls] <= p || p + P.size[sp.cls] <= o
  {
    SameSpanApart(sp.start * 8192, P.size[sp.cls], P.Count(sp.cls), o, p);
  }

  lemma ReleaseGoes(P: Params, S: State, t: Tid, s: SpanId)
    requires Runs(P, S, t) && Safe(P, S, t) && S.threads[t].pc == Release
    ensures var S' := StepRelease(P, S, t);
      s in S.spans && s in S'.spans && S'.spans[s].refcount < S.spans[s].refcount ==> S'.spans[s].refcount != 0
  {
    hide Revive, ObjectsOf, Without, Findable;
  }

  lemma FetchGrows(P: Params, S: State, t: Tid, s: SpanId)
    requires Runs(P, S, t) && Safe(P, S, t) && S.threads[t].pc == Fetch
    ensures var S' := StepFetch(P, S, t); s in S.spans && s in S'.spans ==> S'.spans[s].refcount >= S.spans[s].refcount
  {
    hide MoveAll;
  }

  /** In every run a span whose last object comes home leaves its class with that step. */
  lemma EmptySpanGoes(P: Params, states: seq<State>, steps: seq<(Tid, Choice)>, i: nat, s: SpanId)
    requires IsRun(P, states, steps) && i < |steps| && s in states[i].spans && s in states[i + 1].spans
    requires states[i + 1].spans[s].refcount < states[i].spans[s].refcount
    ensures states[i + 1].spans[s].refcount > 0
  {
    var S, t, ch := states[i], steps[i].0, steps[i].1;
    RunKeeps(P, states, steps, i);
    RunKeeps(P, states, steps, i + 1);
    SpanAt(P, states[i + 1], SlotTotal(states[0].cs), s);
    assert Next(P, S, t, ch, states[i + 1]);
    hide IsRun, Inv;
    SpansKept(P, S, t, ch);
    SpanStep(P, S, t, ch);
    hide Step, Enabled;
    if S.threads[t].pc == Release {
      ReleaseGoes(P, S, t, s);
    } else if S.threads[t].pc == Fetch {
      FetchGrows(P, S, t, s);
    }
    hide StepRelease, StepFetch, Safe;
  }

  lemma SpanAt(P: Params, S: State, total: int, s: SpanId)
    requires Inv(P, S, total) && s in S.spans
    ensures S.spans[s].refcount >= 0
  {
    hide LocksOk, CacheOk, CentralsOk, CacheClassOk, ThreadsOk, Credits, BoxesOk, HoldersOk, UniverseOk;
    assert SpanOk(P, s, S.spans[s], S.pagemap);
  }

  /** Then its pages, and no others, are given up. */
  lemma PagesGivenUp(P: Params, states: seq<State>, steps: seq<(Tid, Choice)>, i: nat)
    requires IsRun(P, states, steps) && i < |steps| && steps[i].0 in states[i].threads
    requires states[i].threads[steps[i].0].pc == Deleting
    ensures var s := states[i].threads[steps[i].0].span;
      && states[i + 1].spans == states[i].spans && s !in states[i].spans
      && forall p :: p in states[i + 1].pagemap <==> p in states[i].pagemap && states[i].pagemap[p] != s
  {
    var S, t, ch := states[i], steps[i].0, steps[i].1;
    RunKeeps(P, states, steps, i);
    assert Next(P, S, t, ch, states[i + 1]);
    hide IsRun, Inv;
    ThreadAt(P, S, SlotTotal(states[0].cs), t);
    OtherStep(P, S, t, ch);
    hide Step, Enabled, Safe;
  }
}
