/**
 Which call of which thread each entry of the cache's log stands for: every interleaving is a
 sequential run of the very calls that the threads make, in an order that respects real time.
 */
module CacheOrder {
  import opened Wrappers
  import opened CacheSpec
  import opened CacheRuns
  import opened CacheLock

  /** The position in the log of a call that took effect and has not returned yet. */
  function Place(pc: Pc): Option<nat> {
    match pc
    case Leaving(_, i) => Some(i)
    case LeavingEarly(_, i, _) => Some(i)
    case Outside(_, i, _) => Some(i)
    case _ => None
  }

  /** The call a thread is in. */
  function CallOf(pc: Pc): Option<Call> {
    match pc
    case Idle => None
    case Entering(c) => Some(c)
    case Inside(c) => Some(c)
    case Looked(c, _) => Some(c)
    case Stamped(c, _, _) => Some(c)
    case Sweeping(_, _) => Some(DeleteExpired)
    case Leaving(c, _) => Some(c)
    case LeavingEarly(c, _, _) => Some(c)
    case Outside(c, _, _) => Some(c)
  }

  ghost predicate Returned(s: State, i: nat) {
    exists j :: 0 <= j < |s.returned| && s.returned[j].place == i
  }

  /** Thread t is in a call that took effect at position i. */
  ghost predicate OnItsWay(s: State, t: Tid, i: nat) {
    t in s.pcs && Place(s.pcs[t]) == Some(i)
  }

  /** Returned calls stand at different positions, each logged for the thread that made it. */
  ghost predicate ReturnsMatch(s: State) {
    && (forall j :: 0 <= j < |s.returned| ==>
          s.returned[j].place < |s.origins| && s.origins[s.returned[j].place].thread == s.returned[j].thread)
    && (forall j, k :: 0 <= j < k < |s.returned| ==> s.returned[j].place != s.returned[k].place)
  }

  /** Calls on their way out stand at positions logged for their threads, and have not returned. */
  ghost predicate OnItsWayMatch(s: State) {
    forall t, i: nat :: OnItsWay(s, t, i) ==> i < |s.origins| && s.origins[i].thread == t && !Returned(s, i)
  }

  /** Every logged call has returned or is on its way out. */
  ghost predicate AllAccounted(s: State) {
    forall i :: 0 <= i < |s.origins| ==> Returned(s, i) || OnItsWay(s, s.origins[i].thread, i)
  }

  /** A call that returned before another began stands before it in the log. */
  ghost predicate RealTimeOrder(s: State) {
    forall i, j :: 0 <= i < |s.origins| && 0 <= j < |s.returned| && j < s.origins[i].since ==> s.returned[j].place < i
  }

  ghost predicate NoneFromTheFuture(s: State) {
    && (forall t :: t in s.begun ==> s.begun[t] <= |s.returned|)
    && (forall i :: 0 <= i < |s.origins| ==> s.origins[i].since <= |s.returned|)
  }

  ghost predicate OneToOne(s: State) {
    && |s.origins| == |s.log|
    && ReturnsMatch(s) && OnItsWayMatch(s) && AllAccounted(s) && RealTimeOrder(s) && NoneFromTheFuture(s)
  }

  // ---------------------------------------------------------------- what a step does to the history

  ghost predicate OthersStay(s: State, t: Tid, s': State) {
    && t in s.pcs && s'.pcs.Keys == s.pcs.Keys && forall u :: u in s.pcs && u != t ==> s'.pcs[u] == s.pcs[u]
  }

  /** Nothing takes effect and nothing returns; a call may begin. */
  ghost predicate Goes(s: State, t: Tid, s': State)
    requires OthersStay(s, t, s')
  {
    && s'.log == s.log && s'.origins == s.origins && s'.returned == s.returned
    && Place(s'.pcs[t]) == Place(s.pcs[t])
    && (s'.begun == s.begun || s'.begun == s.begun[t := |s.returned|])
  }

  /** The call of t takes effect. */
  ghost predicate Commits(s: State, t: Tid, s': State)
    requires OthersStay(s, t, s')
  {
    && |s'.log| == |s.log| + 1 && s'.origins == s.origins + [OriginOf(s, t)]
    && s'.returned == s.returned && s'.begun == s.begun
    && Place(s.pcs[t]) == None && Place(s'.pcs[t]) == Some(|s.log|)
  }

  /** The call of t returns. */
  ghost predicate Returns(s: State, t: Tid, s': State)
    requires OthersStay(s, t, s')
  {
    && s'.log == s.log && s'.origins == s.origins && s'.begun == s.begun
    && Place(s.pcs[t]).Some? && Place(s'.pcs[t]) == None
    && |s'.returned| == |s.returned| + 1 && s'.returned[..|s.returned|] == s.returned
    && s'.returned[|s.returned|].thread == t && s'.returned[|s.returned|].place == Place(s.pcs[t]).value
  }

  lemma MovedGoes(s: State, t: Tid, pc: Pc, now: int)
    requires t in s.pcs && Place(pc) == Place(s.pcs[t])
    ensures OthersStay(s, t, Moved(s, t, pc, now)) && Goes(s, t, Moved(s, t, pc, now))
  {
  }

  lemma CommitCommits(s: State, t: Tid, e: Event, after: Items, pc: Pc, now: int)
    requires t in s.pcs && Place(s.pcs[t]) == None && Place(pc) == Some(|s.log|)
    ensures var s' := Commit(s, t, e, after, pc, now); OthersStay(s, t, s') && Commits(s, t, s')
  {
  }

  lemma DecideMoves(maxItems: int, s: State, t: Tid, now: int)
    requires t in s.pcs && s.pcs[t].Looked?
    ensures var s' := Decide(s, t, s.pcs[t].call, s.pcs[t].found, maxItems, now);
            && OthersStay(s, t, s') && (Goes(s, t, s') || Commits(s, t, s'))
            && CallOf(s'.pcs[t]) == CallOf(s.pcs[t])
  {
    hide OthersStay, Goes, Commits, Usable, HasRoom, Expired, Written;
    var c, found := s.pcs[t].call, s.pcs[t].found;
    var s' := Decide(s, t, c, found, maxItems, now);
    if NeedsLookup(c) {
      match s'.pcs[t]
      case Leaving(_, _) => CommitCommits(s, t, s'.log[|s.log|], s.items, Leaving(c, |s.log|), now);
      case LeavingEarly(_, _, _) => CommitCommits(s, t, s'.log[|s.log|], s.items, s'.pcs[t], now);
      case Stamped(_, item, at) => MovedGoes(s, t, Stamped(c, item, at), now);
    } else {
      NothingGoes(s, t);
    }
  }

  lemma NothingGoes(s: State, t: Tid)
    requires t in s.pcs
    ensures OthersStay(s, t, s) && Goes(s, t, s)
  {
  }

  lemma BeginMoves(s: State, t: Tid, now: int)
    requires t in s.pcs && s.pcs[t].Inside?
    ensures var s' := Begin(s, t, s.pcs[t].call, now);
            && OthersStay(s, t, s') && (Goes(s, t, s') || Commits(s, t, s'))
            && CallOf(s'.pcs[t]) == CallOf(s.pcs[t])
  {
    hide OthersStay, Goes, Commits;
    var c := s.pcs[t].call;
    match c
    case ItemCount =>
      CommitCommits(s, t, Event(c, now, now, Count(|s.items|)), s.items, Leaving(c, |s.log|), now);
    case Delete(k) =>
      CommitCommits(s, t, Event(c, now, now, Done), s.items - {k}, Leaving(c, |s.log|), now);
    case Clear =>
      CommitCommits(s, t, Event(c, now, now, Done), map[], Leaving(c, |s.log|), now);
    case DeleteExpired => MovedGoes(s, t, Sweeping(s.items.Keys, now), now);
    case _ => MovedGoes(s, t, Looked(c, Lookup(s.items, c.key)), now);
  }

  lemma StepMoves(maxItems: int, s: State, t: Tid, a: Choice, s': State)
    requires Next(maxItems, s, t, a, s')
    ensures OthersStay(s, t, s') && (Goes(s, t, s') || Commits(s, t, s') || Returns(s, t, s'))
  {
    hide Decide, Begin;
    match s.pcs[t]
    case Inside(c) => BeginMoves(s, t, a.now);
    case Looked(c, found) => DecideMoves(maxItems, s, t, a.now);
    case _ =>
  }

  /** A thread stays in its call until that returns. */
  lemma CallKept(maxItems: int, s: State, t: Tid, a: Choice, s': State)
    requires Next(maxItems, s, t, a, s') && s.pcs[t] != Idle
    ensures t in s'.pcs && (s'.pcs[t] == Idle || CallOf(s'.pcs[t]) == CallOf(s.pcs[t]))
  {
    hide Decide, Begin, Acquire, Release;
    match s.pcs[t]
    case Inside(c) => BeginMoves(s, t, a.now);
    case Looked(c, found) => DecideMoves(maxItems, s, t, a.now);
    case _ =>
  }

  // ---------------------------------------------------------------- preservation

  lemma GoingKeeps(s: State, t: Tid, s': State)
    requires OneToOne(s) && OthersStay(s, t, s') && Goes(s, t, s')
    ensures OneToOne(s')
  {
    assert forall i :: Returned(s', i) <==> Returned(s, i);
    assert forall u, i :: OnItsWay(s', u, i) <==> OnItsWay(s, u, i);
    hide Returned, OnItsWay, Place;
  }

  lemma CommitKeeps(s: State, t: Tid, s': State)
    requires OneToOne(s) && OthersStay(s, t, s') && Commits(s, t, s')
    ensures OneToOne(s')
  {
    var n := |s.log|;
    assert forall i :: Returned(s', i) <==> Returned(s, i);
    assert forall u, i :: OnItsWay(s', u, i) <==> OnItsWay(s, u, i) || (u == t && i == n);
    assert !Returned(s, n);
    hide Returned, OnItsWay, Place;
  }

  lemma ReturnAdded(s: State, t: Tid, s': State)
    requires OthersStay(s, t, s') && Returns(s, t, s')
    ensures var p := Place(s.pcs[t]).value;
            && (forall i :: Returned(s', i) <==> Returned(s, i) || i == p)
            && (forall u, i :: OnItsWay(s', u, i) <==> OnItsWay(s, u, i) && u != t)
            && (forall i :: OnItsWay(s, t, i) <==> i == p)
  {
    var p, n := Place(s.pcs[t]).value, |s.returned|;
    assert forall j :: 0 <= j < n ==> s'.returned[j] == s.returned[j];
    forall i ensures Returned(s', i) <==> Returned(s, i) || i == p {
      if Returned(s, i) {
        var j :| 0 <= j < n && s.returned[j].place == i;
        assert s'.returned[j].place == i;
      }
      assert s'.returned[n].place == p;
    }
  }

  lemma ReturnKeeps(s: State, t: Tid, s': State)
    requires OneToOne(s) && OthersStay(s, t, s') && Returns(s, t, s')
    ensures OneToOne(s')
  {
    var p, n := Place(s.pcs[t]).value, |s.returned|;
    ReturnAdded(s, t, s');
    assert OnItsWay(s, t, p);
    assert forall j :: 0 <= j < n ==> s'.returned[j] == s.returned[j];
    assert forall j :: 0 <= j < n ==> s.returned[j].place != p by {
      assert !Returned(s, p);
    }
    hide Returned, OnItsWay, Place;
  }

  lemma OneToOnePreserved(maxItems: int, s: State, t: Tid, a: Choice, s': State)
    requires OneToOne(s) && Next(maxItems, s, t, a, s')
    ensures OneToOne(s')
  {
    StepMoves(maxItems, s, t, a, s');
    hide Next, OneToOne;
    if Goes(s, t, s') {
      GoingKeeps(s, t, s');
    } else if Commits(s, t, s') {
      CommitKeeps(s, t, s');
    } else {
      ReturnKeeps(s, t, s');
    }
  }

  lemma {:induction false} OneToOneHolds(maxItems: int, trace: seq<State>)
    requires Execution(maxItems, trace)
    ensures OneToOne(trace[|trace| - 1])
  {
    hide Next;
    var n := |trace| - 1;
    if n > 0 {
      OneToOneHolds(maxItems, trace[..n]);
      assert Linked(maxItems, trace[n - 1], trace[n - 1 + 1]);
      var t, a :| Next(maxItems, trace[n - 1], t, a, trace[n]);
      hide OneToOne;
      OneToOnePreserved(maxItems, trace[n - 1], t, a, trace[n]);
    }
  }

  // ---------------------------------------------------------------- every interleaving

  /**
   Every interleaving is a sequential run. The logged calls, in the order in which they took effect
   under the lock, take an empty cache to the present items once no sweep is under way, and their
   clock readings never go back. They are one to one the calls that have returned, with an answer
   each may give at its place, and those on their way out; and a call that returned before another
   began stands before it.
   */
  lemma InterleavingsAreSequential(maxItems: int, trace: seq<State>)
    requires Execution(maxItems, trace)
    ensures var s := trace[|trace| - 1];
            && Run(maxItems, s.log, s.states)
            && (!SweepInProgress(s) ==> s.items == s.states[|s.log|])
            && ReturnedInv(maxItems, s)
            && OneToOne(s)
            && forall t, i: nat :: OnItsWay(s, t, i) ==> i < |s.log| && CallOf(s.pcs[t]) == Some(s.log[i].call)
  {
    InvHolds(maxItems, trace);
    OneToOneHolds(maxItems, trace);
    var s := trace[|trace| - 1];
    hide Next, Run, ReturnedInv, OneToOne, LogInv;
    forall t, i: nat | OnItsWay(s, t, i)
      ensures i < |s.log| && CallOf(s.pcs[t]) == Some(s.log[i].call)
    {
      assert ThreadInv(maxItems, s, s.pcs[t]);
    }
    LogIsRun(maxItems, s);
  }

  lemma LogIsRun(maxItems: int, s: State)
    requires LogInv(maxItems, s)
    ensures Run(maxItems, s.log, s.states)
    ensures !SweepInProgress(s) ==> s.items == s.states[|s.log|]
  {
  }
}
