/**
 The cache under its read-write lock: any number of threads, the janitor among them, interleaved
 at every lock operation, map access and clock reading. Every interleaving is a sequential run in
 the order in which the calls took effect under the lock.
 */
module CacheLock {
  import opened Wrappers
  import opened CacheSpec
  import opened CacheRuns

  type Tid = nat

  // ---------------------------------------------------------------- the lock

  datatype Lock = Free | Reading(readers: set<Tid>) | Writing(writer: Tid)

  datatype Mode = Shared | Exclusive

  /** What the lock becomes when t takes it, if it may. */
  function Acquire(lock: Lock, mode: Mode, t: Tid): Option<Lock> {
    match (lock, mode)
    case (Free, Shared) => Some(Reading({t}))
    case (Reading(rs), Shared) => Some(Reading(rs + {t}))
    case (Free, Exclusive) => Some(Writing(t))
    case _ => None
  }

  /** What the lock becomes when t gives it back; None where Go reports a fatal error. */
  function Release(lock: Lock, mode: Mode, t: Tid): Option<Lock> {
    match (lock, mode)
    case (Reading(rs), Shared) =>
      if t !in rs then None else if rs == {t} then Some(Free) else Some(Reading(rs - {t}))
    case (Writing(w), Exclusive) => if w == t then Some(Free) else None
    case _ => None
  }

  /** RLock and RUnlock in the reading calls, Lock and Unlock in the others. */
  function LockMode(c: Call): Mode {
    match c
    case Get(_) => Shared
    case HasExpired(_) => Shared
    case GetExpiration(_) => Shared
    case ItemCount => Shared
    case _ => Exclusive
  }

  // ---------------------------------------------------------------- threads

  /** Where a thread is in its call; i is the position of the call in the log once it took effect. */
  datatype Pc =
    | Idle
    | Entering(call: Call)
    | Inside(call: Call)
    | Looked(call: Call, found: Option<Item>)
    | Stamped(call: Call, item: Item, at: int)
    | Sweeping(unvisited: set<Key>, start: int)
    | Leaving(call: Call, i: nat)
    | LeavingEarly(call: Call, i: nat, item: Item)
    | Outside(call: Call, i: nat, item: Item)

  /** The thread that makes a call, and how many calls had returned when it began. */
  datatype Origin = Origin(thread: Tid, since: nat)

  /** A finished call: who made it, its position in the log, and what it answered. */
  datatype Return = Return(thread: Tid, place: nat, event: Event)

  /**
   The history: log holds the calls in the order in which they took effect, states the items between
   them, origins where each came from; returned holds the finished calls in the order of their
   return, and begun how many had returned when a thread's present call began.
   */
  datatype State = State(
    items: Items, lock: Lock, pcs: map<Tid, Pc>, clock: int,
    log: seq<Event>, states: seq<Items>, origins: seq<Origin>, returned: seq<Return>, begun: map<Tid, nat>)

  function Held(pc: Pc): Option<Mode> {
    match pc
    case Inside(c) => Some(LockMode(c))
    case Looked(c, _) => Some(LockMode(c))
    case Stamped(c, _, _) => Some(LockMode(c))
    case Sweeping(_, _) => Some(Exclusive)
    case Leaving(c, _) => Some(LockMode(c))
    case LeavingEarly(c, _, _) => Some(LockMode(c))
    case _ => None
  }

  function Lookup(items: Items, k: Key): Option<Item> {
    if k in items then Some(items[k]) else None
  }

  predicate Usable(found: Option<Item>, t: int) {
    found.Some? && !Expired(found.value, t)
  }

  /** What a step of a thread may depend on: the call it starts, the key it visits, the clock it reads. */
  datatype Choice = Choice(call: Call, key: Key, now: int)

  function Moved(s: State, t: Tid, pc: Pc, now: int): State {
    s.(pcs := s.pcs[t := pc], clock := now)
  }

  function OriginOf(s: State, t: Tid): Origin {
    Origin(t, if t in s.begun then s.begun[t] else 0)
  }

  /** The call takes effect: items become after, and the event goes into the log. */
  function Commit(s: State, t: Tid, e: Event, after: Items, pc: Pc, now: int): State {
    s.(items := after, pcs := s.pcs[t := pc], clock := now,
       log := s.log + [e], states := s.states + [after], origins := s.origins + [OriginOf(s, t)])
  }

  /** Commit without effect on the items, on the way out. */
  function Answered(s: State, t: Tid, c: Call, answer: Answer, now: int): State {
    Commit(s, t, Event(c, now, now, answer), s.items, Leaving(c, |s.log|), now)
  }

  /** The step after the lookup. */
  function Decide(s: State, t: Tid, c: Call, found: Option<Item>, maxItems: int, now: int): State {
    match c
    case Get(k) => Answered(s, t, c, if Usable(found, now) then Found(found.value.value) else Missing, now)
    case HasExpired(k) => Answered(s, t, c, Flag(!Usable(found, now)), now)
    case GetExpiration(k) =>
      if Usable(found, now)
      then Commit(s, t, Event(c, now, now, Duration(Wrap64(found.value.expiration - now))), s.items,
                  LeavingEarly(c, |s.log|, found.value), now)
      else Answered(s, t, c, Duration(0), now)
    case SetExpiration(k, x) => Answered(s, t, c, Done, now)
    case Set(k, v, x) =>
      if found.Some? || HasRoom(s.items, maxItems) then Moved(s, t, Stamped(c, Written(v, x, now), now), now)
      else Answered(s, t, c, Full, now)
    case Add(k, v, x) =>
      if found.Some? then Answered(s, t, c, Exists, now)
      else if HasRoom(s.items, maxItems) then Moved(s, t, Stamped(c, Written(v, x, now), now), now)
      else Answered(s, t, c, Full, now)
    case _ => s
  }

  predicate NeedsLookup(c: Call) {
    !c.ItemCount? && !c.Delete? && !c.Clear? && !c.DeleteExpired?
  }

  /** The first step under the lock. */
  function Begin(s: State, t: Tid, c: Call, now: int): State {
    match c
    case ItemCount => Answered(s, t, c, Count(|s.items|), now)
    case Delete(k) => Commit(s, t, Event(c, now, now, Done), s.items - {k}, Leaving(c, |s.log|), now)
    case Clear => Commit(s, t, Event(c, now, now, Done), map[], Leaving(c, |s.log|), now)
    case DeleteExpired => Moved(s, t, Sweeping(s.items.Keys, now), now)
    case _ => Moved(s, t, Looked(c, Lookup(s.items, c.key)), now)
  }

  function Visit(s: State, t: Tid, unvisited: set<Key>, start: int, k: Key, now: int): State
    requires k in s.items
  {
    var s' := Moved(s, t, Sweeping(unvisited - {k}, start), now);
    if Expired(s.items[k], now) then s'.(items := s.items - {k}) else s'
  }

  /** Thread t makes a step from s to s'. */
  ghost predicate Next(maxItems: int, s: State, t: Tid, a: Choice, s': State) {
    t in s.pcs && s.clock <= a.now &&
    match s.pcs[t]
    case Idle => s' == Moved(s, t, Entering(a.call), a.now).(begun := s.begun[t := |s.returned|])
    case Entering(c) =>
      var lock := Acquire(s.lock, LockMode(c), t);
      lock.Some? && s' == Moved(s, t, Inside(c), a.now).(lock := lock.value)
    case Inside(c) => s' == Begin(s, t, c, a.now)
    case Looked(c, found) => s' == Decide(s, t, c, found, maxItems, a.now)
    case Stamped(c, item, at) =>
      (c.Set? || c.Add?) &&
      s' == Commit(s, t, Event(c, at, at, Done), s.items[c.key := item], Leaving(c, |s.log|), a.now)
    case Sweeping(unvisited, start) =>
      if unvisited == {}
      then s' == Commit(s, t, Event(DeleteExpired, start, a.now, Done), s.items, Leaving(DeleteExpired, |s.log|), a.now)
      else a.key in unvisited && a.key in s.items && s' == Visit(s, t, unvisited, start, a.key, a.now)
    case Leaving(c, i) =>
      var lock := Release(s.lock, LockMode(c), t);
      && lock.Some? && i < |s.log|
      && s' == Moved(s, t, Idle, a.now).(lock := lock.value, returned := s.returned + [Return(t, i, s.log[i])])
    case LeavingEarly(c, i, item) =>
      var lock := Release(s.lock, LockMode(c), t);
      lock.Some? && s' == Moved(s, t, Outside(c, i, item), a.now).(lock := lock.value)
    case Outside(c, i, item) =>
      && i < |s.log|
      && s' == Moved(s, t, Idle, a.now).(
           returned := s.returned + [Return(t, i, s.log[i].(to := a.now, answer := Duration(Wrap64(item.expiration - a.now))))])
  }

  ghost predicate Init(s: State) {
    && s.items == map[] && s.lock == Free && s.log == [] && s.states == [map[]]
    && s.origins == [] && s.returned == [] && s.begun == map[]
    && forall t :: t in s.pcs ==> s.pcs[t] == Idle
  }

  // ---------------------------------------------------------------- invariant

  /** The lock records exactly who holds it and how. */
  ghost predicate LockRecords(lock: Lock, pcs: map<Tid, Pc>) {
    && (forall t :: t in pcs ==> (Held(pcs[t]) == Some(Shared) <==> lock.Reading? && t in lock.readers))
    && (forall t :: t in pcs ==> (Held(pcs[t]) == Some(Exclusive) <==> lock == Writing(t)))
    && (lock.Writing? ==> lock.writer in pcs)
    && (lock.Reading? ==> lock.readers <= pcs.Keys && lock.readers != {})
  }

  ghost predicate LockInv(s: State) {
    LockRecords(s.lock, s.pcs)
  }

  /** All logged calls ended by t. */
  ghost predicate LoggedBy(s: State, t: int) {
    forall i :: 0 <= i < |s.log| ==> End(s.log[i]) <= t
  }

  /** A sweep in progress, between the items before it and the items now. */
  ghost predicate PartlySwept(before: Items, items: Items, unvisited: set<Key>, start: int, now: int) {
    && unvisited <= items.Keys <= before.Keys
    && (forall k :: k in items ==> items[k] == before[k])
    && (forall k :: k in before && k !in unvisited && Expired(before[k], start) ==> k !in items)
    && (forall k :: k in before && !Expired(before[k], now) ==> k in items)
  }

  ghost predicate SweepInProgress(s: State) {
    s.lock.Writing? && s.lock.writer in s.pcs && s.pcs[s.lock.writer].Sweeping?
  }

  /** The log is a sequential run that ends in the items, but for the part of a sweep already done. */
  ghost predicate LogInv(maxItems: int, s: State) {
    && Run(maxItems, s.log, s.states) && LoggedBy(s, s.clock)
    && (!SweepInProgress(s) ==> s.items == s.states[|s.log|])
  }

  ghost predicate LoggedGetExpiration(s: State, c: Call, i: nat, item: Item) {
    && i < |s.log| && i < |s.states| && c.GetExpiration? && s.log[i].call == c && s.log[i].from <= s.clock
    && Live(s.states[i], c.key, s.log[i].from) && s.states[i][c.key] == item
  }

  /** What a thread knows at its place in the code. */
  ghost predicate ThreadInv(maxItems: int, s: State, pc: Pc) {
    match pc
    case Looked(c, found) =>
      NeedsLookup(c) && found == Lookup(s.items, c.key)
    case Stamped(c, item, at) =>
      && LoggedBy(s, at) && at <= s.clock
      && (c.Set? || c.Add?) && item == Written(c.value, c.expiration, at)
      && (if c.key in s.items then c.Set? else HasRoom(s.items, maxItems))
    case Sweeping(unvisited, start) =>
      && LoggedBy(s, start) && start <= s.clock && |s.states| == |s.log| + 1
      && PartlySwept(s.states[|s.log|], s.items, unvisited, start, s.clock)
    case Leaving(c, i) => i < |s.log| && s.log[i].call == c
    case LeavingEarly(c, i, item) => LoggedGetExpiration(s, c, i, item)
    case Outside(c, i, item) => LoggedGetExpiration(s, c, i, item)
    case _ => true
  }

  /** Every answer given is one the call may give at its place in the sequential run. */
  ghost predicate ReturnedInv(maxItems: int, s: State) {
    |s.states| == |s.log| + 1 &&
    forall j :: 0 <= j < |s.returned| ==>
      var Return(_, i, e) := s.returned[j];
      && i < |s.log| && e.call == s.log[i].call && e.from == s.log[i].from
      && Step(maxItems, s.states[i], e, s.states[i + 1])
  }

  ghost predicate Inv(maxItems: int, s: State) {
    && LockInv(s) && LogInv(maxItems, s) && ReturnedInv(maxItems, s)
    && forall t :: t in s.pcs ==> ThreadInv(maxItems, s, s.pcs[t])
  }

  // ---------------------------------------------------------------- preservation: the lock

  lemma SameHold(lock: Lock, pcs: map<Tid, Pc>, t: Tid, pc: Pc)
    requires LockRecords(lock, pcs) && t in pcs && Held(pc) == Held(pcs[t])
    ensures LockRecords(lock, pcs[t := pc])
  {
  }

  lemma AcquireRecords(lock: Lock, pcs: map<Tid, Pc>, t: Tid, mode: Mode, pc: Pc)
    requires LockRecords(lock, pcs) && t in pcs && Held(pcs[t]) == None && Held(pc) == Some(mode)
    requires Acquire(lock, mode, t).Some?
    ensures LockRecords(Acquire(lock, mode, t).value, pcs[t := pc])
  {
  }

  /** The reading calls share the lock, and every other call waits until nobody reads. */
  lemma ReadersShare(readers: set<Tid>, t: Tid, c: Call)
    ensures Acquire(Reading(readers), LockMode(c), t).Some? <==>
            c.Get? || c.HasExpired? || c.GetExpiration? || c.ItemCount?
  {
  }

  /**
   What GetExpiration answers after it has unlocked is the time left by the clock as it reads then,
   not by the reading under the lock.
   */
  lemma AnswerReadsClockAgain(maxItems: int, s: State, t: Tid, a: Choice, s': State)
    requires Next(maxItems, s, t, a, s') && s.pcs[t].Outside?
    ensures |s'.returned| == |s.returned| + 1
    ensures var e := s'.returned[|s.returned|].event;
            e.to == s'.clock && e.answer == Duration(Wrap64(s.pcs[t].item.expiration - s'.clock))
  {
  }

  /** A holder can always release what it holds: Go's fatal unlock errors are out of reach. */
  lemma ReleaseRecords(lock: Lock, pcs: map<Tid, Pc>, t: Tid, mode: Mode, pc: Pc)
    requires LockRecords(lock, pcs) && t in pcs && Held(pcs[t]) == Some(mode) && Held(pc) == None
    ensures Release(lock, mode, t).Some?
    ensures LockRecords(Release(lock, mode, t).value, pcs[t := pc])
  {
  }

  lemma DecideKeepsLock(maxItems: int, s: State, t: Tid, now: int)
    requires LockInv(s) && t in s.pcs && s.pcs[t].Looked? && NeedsLookup(s.pcs[t].call)
    ensures LockInv(Decide(s, t, s.pcs[t].call, s.pcs[t].found, maxItems, now))
  {
    hide LockRecords;
    var c := s.pcs[t].call;
    var s' := Decide(s, t, c, s.pcs[t].found, maxItems, now);
    match s'.pcs[t]
    case Leaving(_, _) => SameHold(s.lock, s.pcs, t, Leaving(c, |s.log|));
    case LeavingEarly(_, _, _) => SameHold(s.lock, s.pcs, t, LeavingEarly(c, |s.log|, s.pcs[t].found.value));
    case Stamped(_, item, at) => SameHold(s.lock, s.pcs, t, Stamped(c, item, at));
  }

  lemma BeginKeepsLock(s: State, t: Tid, now: int)
    requires LockInv(s) && t in s.pcs && s.pcs[t].Inside?
    ensures LockInv(Begin(s, t, s.pcs[t].call, now))
  {
    hide LockRecords;
    var c := s.pcs[t].call;
    match c
    case ItemCount => SameHold(s.lock, s.pcs, t, Leaving(c, |s.log|));
    case Delete(k) => SameHold(s.lock, s.pcs, t, Leaving(c, |s.log|));
    case Clear => SameHold(s.lock, s.pcs, t, Leaving(c, |s.log|));
    case DeleteExpired => SameHold(s.lock, s.pcs, t, Sweeping(s.items.Keys, now));
    case _ => SameHold(s.lock, s.pcs, t, Looked(c, Lookup(s.items, c.key)));
  }

  lemma LockPreserved(maxItems: int, s: State, t: Tid, a: Choice, s': State)
    requires t in s.pcs
    requires LockInv(s) && Next(maxItems, s, t, a, s')
    requires ThreadInv(maxItems, s, s.pcs[t])
    ensures LockInv(s')
  {
    hide LockRecords, Acquire, Release, Decide, Begin;
    match s.pcs[t]
    case Entering(c) => AcquireRecords(s.lock, s.pcs, t, LockMode(c), Inside(c));
    case Leaving(c, i) => ReleaseRecords(s.lock, s.pcs, t, LockMode(c), Idle);
    case LeavingEarly(c, i, item) => ReleaseRecords(s.lock, s.pcs, t, LockMode(c), Outside(c, i, item));
    case Looked(c, found) =>
      DecideKeepsLock(maxItems, s, t, a.now);
    case Inside(c) =>
      BeginKeepsLock(s, t, a.now);
    case Idle => SameHold(s.lock, s.pcs, t, Entering(a.call));
    case Stamped(c, item, at) => SameHold(s.lock, s.pcs, t, Leaving(c, |s.log|));
    case Sweeping(unvisited, start) =>
      SameHold(s.lock, s.pcs, t, Leaving(DeleteExpired, |s.log|));
      SameHold(s.lock, s.pcs, t, Sweeping(unvisited - {a.key}, start));
    case Outside(c, i, item) => SameHold(s.lock, s.pcs, t, Idle);
  }

  // ---------------------------------------------------------------- preservation: the log

  lemma CommitKeepsLog(maxItems: int, s: State, t: Tid, e: Event, after: Items, pc: Pc, now: int)
    requires LogInv(maxItems, s) && s.clock <= now && e.from <= e.to <= now && LoggedBy(s, e.from)
    requires Step(maxItems, s.states[|s.log|], e, after)
    ensures LogInv(maxItems, Commit(s, t, e, after, pc, now))
  {
    hide Step;
    RunExtends(maxItems, s.log, s.states, e, after);
  }

  /** The first step under the lock: a call that needs no lookup takes effect at once. */
  lemma BeginKeepsLog(maxItems: int, s: State, t: Tid, c: Call, now: int)
    requires LogInv(maxItems, s) && s.items == s.states[|s.log|] && s.clock <= now
    ensures LogInv(maxItems, Begin(s, t, c, now))
  {
    hide Run;
    match c
    case ItemCount =>
      CommitKeepsLog(maxItems, s, t, Event(c, now, now, Count(|s.items|)), s.items, Leaving(c, |s.log|), now);
    case Delete(k) =>
      CommitKeepsLog(maxItems, s, t, Event(c, now, now, Done), s.items - {k}, Leaving(c, |s.log|), now);
    case Clear =>
      CommitKeepsLog(maxItems, s, t, Event(c, now, now, Done), map[], Leaving(c, |s.log|), now);
    case _ =>
  }

  lemma DecideKeepsLog(maxItems: int, s: State, t: Tid, c: Call, now: int)
    requires LogInv(maxItems, s) && s.items == s.states[|s.log|] && s.clock <= now
    requires NeedsLookup(c)
    ensures LogInv(maxItems, Decide(s, t, c, Lookup(s.items, c.key), maxItems, now))
  {
    hide Run;
    var s' := Decide(s, t, c, Lookup(s.items, c.key), maxItems, now);
    if |s'.log| == |s.log| + 1 {
      var e := s'.log[|s.log|];
      CommitKeepsLog(maxItems, s, t, e, s.items, s'.pcs[t], now);
    }
  }

  lemma WriteKeepsLog(maxItems: int, s: State, t: Tid, c: Call, item: Item, at: int, now: int)
    requires LogInv(maxItems, s) && s.items == s.states[|s.log|] && s.clock <= now
    requires ThreadInv(maxItems, s, Stamped(c, item, at))
    ensures LogInv(maxItems, Commit(s, t, Event(c, at, at, Done), s.items[c.key := item], Leaving(c, |s.log|), now))
  {
    hide Run;
    CommitKeepsLog(maxItems, s, t, Event(c, at, at, Done), s.items[c.key := item], Leaving(c, |s.log|), now);
  }

  lemma SweepKeepsLog(maxItems: int, s: State, t: Tid, start: int, now: int)
    requires LogInv(maxItems, s) && s.clock <= now
    requires ThreadInv(maxItems, s, Sweeping({}, start))
    ensures LogInv(maxItems, Commit(s, t, Event(DeleteExpired, start, now, Done), s.items,
                                    Leaving(DeleteExpired, |s.log|), now))
  {
    hide Run;
    CommitKeepsLog(maxItems, s, t, Event(DeleteExpired, start, now, Done), s.items,
                   Leaving(DeleteExpired, |s.log|), now);
  }

  /** A thread that holds the lock and is not sweeping finds the items as the log left them. */
  lemma HolderSeesLog(maxItems: int, s: State, t: Tid)
    requires LockInv(s) && LogInv(maxItems, s) && t in s.pcs
    requires Held(s.pcs[t]).Some? && !s.pcs[t].Sweeping?
    ensures s.items == s.states[|s.log|]
  {
    hide Run;
  }

  lemma LogPreserved(maxItems: int, s: State, t: Tid, a: Choice, s': State)
    requires t in s.pcs
    requires LockInv(s) && LogInv(maxItems, s) && Next(maxItems, s, t, a, s')
    requires ThreadInv(maxItems, s, s.pcs[t])
    ensures LogInv(maxItems, s')
  {
    hide Run;
    match s.pcs[t]
    case Inside(c) =>
      HolderSeesLog(maxItems, s, t);
      BeginKeepsLog(maxItems, s, t, c, a.now);
    case Looked(c, found) =>
      HolderSeesLog(maxItems, s, t);
      DecideKeepsLog(maxItems, s, t, c, a.now);
    case Stamped(c, item, at) =>
      HolderSeesLog(maxItems, s, t);
      WriteKeepsLog(maxItems, s, t, c, item, at, a.now);
    case Sweeping(unvisited, start) =>
      if unvisited == {} {
        SweepKeepsLog(maxItems, s, t, start, a.now);
      }
    case _ =>
  }

  // ---------------------------------------------------------------- preservation: the threads

  /** s' continues s: the log only grows, time does not go back, and only thread t moves. */
  ghost predicate Continues(s: State, t: Tid, s': State)
    requires t in s.pcs
  {
    && s.log <= s'.log && s.states <= s'.states && |s'.states| == |s'.log| + 1 && s.clock <= s'.clock
    && s'.pcs.Keys == s.pcs.Keys && (forall u :: u in s.pcs && u != t ==> s'.pcs[u] == s.pcs[u])
    && (Held(s.pcs[t]) == None ==> s'.log == s.log && s'.states == s.states)
    && (Held(s.pcs[t]) != Some(Exclusive) ==> s'.items == s.items)
    && (!s.pcs[t].Leaving? && !s.pcs[t].Outside? ==> s'.returned == s.returned)
  }

  lemma DecideContinues(maxItems: int, s: State, t: Tid, now: int)
    requires t in s.pcs && s.pcs[t].Looked? && NeedsLookup(s.pcs[t].call) && s.clock <= now
    requires |s.states| == |s.log| + 1
    ensures Continues(s, t, Decide(s, t, s.pcs[t].call, s.pcs[t].found, maxItems, now))
  {
  }

  lemma BeginContinues(s: State, t: Tid, now: int)
    requires t in s.pcs && s.pcs[t].Inside? && s.clock <= now
    requires |s.states| == |s.log| + 1
    ensures Continues(s, t, Begin(s, t, s.pcs[t].call, now))
  {
  }

  lemma StepContinues(maxItems: int, s: State, t: Tid, a: Choice, s': State)
    requires Next(maxItems, s, t, a, s') && |s.states| == |s.log| + 1
    requires s.pcs[t].Looked? ==> NeedsLookup(s.pcs[t].call)
    ensures t in s.pcs && Continues(s, t, s')
  {
    hide Decide, Begin;
    match s.pcs[t]
    case Inside(c) => BeginContinues(s, t, a.now);
    case Looked(c, found) => DecideContinues(maxItems, s, t, a.now);
    case _ =>
  }

  /** What another thread knows survives a step of t. */
  lemma OthersPreserved(maxItems: int, s: State, t: Tid, s': State, u: Tid)
    requires LockInv(s) && |s.states| == |s.log| + 1 && t in s.pcs && Continues(s, t, s')
    requires u in s.pcs && u != t && ThreadInv(maxItems, s, s.pcs[u])
    ensures ThreadInv(maxItems, s', s'.pcs[u])
  {
    match s.pcs[u]
    case Looked(c, found) =>
      assert s'.items == s.items;
    case Stamped(c, item, at) =>
      assert Held(s.pcs[t]) == None;
    case Sweeping(unvisited, start) =>
      assert Held(s.pcs[t]) == None;
    case Leaving(c, i) =>
      assert s'.log[i] == s.log[i];
    case LeavingEarly(c, i, item) =>
      assert s'.log[i] == s.log[i] && s'.states[i] == s.states[i];
    case Outside(c, i, item) =>
      assert s'.log[i] == s.log[i] && s'.states[i] == s.states[i];
    case _ =>
  }

  lemma VisitKeepsSweep(maxItems: int, s: State, t: Tid, unvisited: set<Key>, start: int, k: Key, now: int)
    requires ThreadInv(maxItems, s, Sweeping(unvisited, start)) && k in unvisited && k in s.items && s.clock <= now
    ensures ThreadInv(maxItems, Visit(s, t, unvisited, start, k, now), Sweeping(unvisited - {k}, start))
  {
  }

  lemma BeginKnows(maxItems: int, s: State, t: Tid, c: Call, now: int)
    requires LoggedBy(s, s.clock) && |s.states| == |s.log| + 1 && s.clock <= now
    requires s.items == s.states[|s.log|]
    ensures var s' := Begin(s, t, c, now); ThreadInv(maxItems, s', s'.pcs[t])
  {
  }

  lemma DecideKnows(maxItems: int, s: State, t: Tid, c: Call, now: int)
    requires LoggedBy(s, s.clock) && |s.states| == |s.log| + 1 && s.clock <= now
    requires s.items == s.states[|s.log|] && NeedsLookup(c)
    ensures var s' := Decide(s, t, c, Lookup(s.items, c.key), maxItems, now); ThreadInv(maxItems, s', s'.pcs[t])
  {
    var found := Lookup(s.items, c.key);
    var s' := Decide(s, t, c, found, maxItems, now);
    if c.GetExpiration? && Usable(found, now) {
      assert s'.log[|s.log|].call == c && s'.states[|s.log|] == s.items;
    } else if s'.pcs[t].Leaving? {
      assert s'.log[|s.log|].call == c;
    }
    hide Written, Expired;
  }

  /** What the moving thread knows after its step. */
  lemma MoverPreserved(maxItems: int, s: State, t: Tid, a: Choice, s': State)
    requires t in s.pcs && t in s'.pcs
    requires LockInv(s) && LogInv(maxItems, s) && Next(maxItems, s, t, a, s')
    requires ThreadInv(maxItems, s, s.pcs[t])
    ensures ThreadInv(maxItems, s', s'.pcs[t])
  {
    assert |s.states| == |s.log| + 1;
    hide Run, Decide, Begin;
    match s.pcs[t]
    case Inside(c) =>
      HolderSeesLog(maxItems, s, t);
      BeginKnows(maxItems, s, t, c, a.now);
    case Looked(c, found) =>
      HolderSeesLog(maxItems, s, t);
      DecideKnows(maxItems, s, t, c, a.now);
    case Sweeping(unvisited, start) =>
      if unvisited != {} {
        VisitKeepsSweep(maxItems, s, t, unvisited, start, a.key, a.now);
      }
    case _ =>
  }

  // ---------------------------------------------------------------- preservation: the answers

  /** The answer of GetExpiration with its late clock reading is one it may give at its place in the log. */
  lemma LateAnswer(maxItems: int, s: State, c: Call, i: nat, item: Item, now: int)
    requires LoggedGetExpiration(s, c, i, item) && |s.states| == |s.log| + 1 && s.clock <= now
    requires Step(maxItems, s.states[i], s.log[i], s.states[i + 1])
    ensures Step(maxItems, s.states[i], s.log[i].(to := now, answer := Duration(Wrap64(item.expiration - now))),
                 s.states[i + 1])
  {
  }

  lemma AnswerAdded(maxItems: int, s: State, s': State, t: Tid, i: nat, e: Event)
    requires ReturnedInv(maxItems, s) && s'.log == s.log && s'.states == s.states
    requires s'.returned == s.returned + [Return(t, i, e)]
    requires i < |s.log| && e.call == s.log[i].call && e.from == s.log[i].from
    requires Step(maxItems, s.states[i], e, s.states[i + 1])
    ensures ReturnedInv(maxItems, s')
  {
    hide Step;
  }

  lemma LongerLogKeepsAnswers(maxItems: int, s: State, s': State)
    requires ReturnedInv(maxItems, s) && s'.returned == s.returned
    requires s.log <= s'.log && s.states <= s'.states && |s'.states| == |s'.log| + 1
    ensures ReturnedInv(maxItems, s')
  {
    hide Step;
    forall j | 0 <= j < |s'.returned|
      ensures var Return(_, i, e) := s'.returned[j];
              && i < |s'.log| && e.call == s'.log[i].call && e.from == s'.log[i].from
              && Step(maxItems, s'.states[i], e, s'.states[i + 1])
    {
      var Return(_, i, e) := s.returned[j];
      assert s'.log[i] == s.log[i] && s'.states[i] == s.states[i] && s'.states[i + 1] == s.states[i + 1];
    }
  }

  lemma AnswersPreserved(maxItems: int, s: State, t: Tid, a: Choice, s': State)
    requires t in s.pcs
    requires LogInv(maxItems, s) && ReturnedInv(maxItems, s) && Next(maxItems, s, t, a, s')
    requires ThreadInv(maxItems, s, s.pcs[t])
    ensures ReturnedInv(maxItems, s')
  {
    assert forall i :: 0 <= i < |s.log| ==> Step(maxItems, s.states[i], s.log[i], s.states[i + 1]);
    StepContinues(maxItems, s, t, a, s');
    hide Step, Decide, Begin, Run;
    match s.pcs[t]
    case Leaving(c, i) =>
      AnswerAdded(maxItems, s, s', t, i, s.log[i]);
    case Outside(c, i, item) =>
      LateAnswer(maxItems, s, c, i, item, a.now);
      AnswerAdded(maxItems, s, s', t, i,
                  s.log[i].(to := a.now, answer := Duration(Wrap64(item.expiration - a.now))));
    case _ =>
      LongerLogKeepsAnswers(maxItems, s, s');
  }

  lemma InvPreserved(maxItems: int, s: State, t: Tid, a: Choice, s': State)
    requires Inv(maxItems, s) && Next(maxItems, s, t, a, s')
    ensures Inv(maxItems, s')
  {
    StepContinues(maxItems, s, t, a, s');
    hide Next, Step, LockRecords, LoggedBy, ThreadInv, ReturnedInv;
    LockPreserved(maxItems, s, t, a, s');
    LogPreserved(maxItems, s, t, a, s');
    AnswersPreserved(maxItems, s, t, a, s');
    MoverPreserved(maxItems, s, t, a, s');
    forall u | u in s'.pcs ensures ThreadInv(maxItems, s', s'.pcs[u]) {
      if u != t {
        OthersPreserved(maxItems, s, t, s', u);
      }
    }
  }

  // ---------------------------------------------------------------- every interleaving

  /** A finite execution: from an initial state, by steps of any threads in any order. */
  ghost predicate Execution(maxItems: int, trace: seq<State>) {
    && trace != [] && Init(trace[0])
    && forall n :: 0 <= n < |trace| - 1 ==> Linked(maxItems, trace[n], trace[n + 1])
  }

  ghost predicate Linked(maxItems: int, s: State, s': State) {
    exists t, a :: Next(maxItems, s, t, a, s')
  }

  lemma InitInv(maxItems: int, s: State)
    requires Init(s)
    ensures Inv(maxItems, s)
  {
    hide Step;
  }

  lemma {:induction false} InvHolds(maxItems: int, trace: seq<State>)
    requires Execution(maxItems, trace)
    ensures Inv(maxItems, trace[|trace| - 1])
  {
    hide Next, Init, Inv;
    var n := |trace| - 1;
    if n == 0 {
      InitInv(maxItems, trace[0]);
    } else {
      InvHolds(maxItems, trace[..n]);
      assert Linked(maxItems, trace[n - 1], trace[n - 1 + 1]);
      var t, a :| Next(maxItems, trace[n - 1], t, a, trace[n]);
      InvPreserved(maxItems, trace[n - 1], t, a, trace[n]);
    }
  }

  /**
   No writer overlaps a reader or another writer, and whoever is about to unlock holds the lock in
   the mode it gives back.
   */
  lemma LockDiscipline(maxItems: int, trace: seq<State>, t: Tid, u: Tid)
    requires Execution(maxItems, trace)
    requires var s := trace[|trace| - 1]; t in s.pcs && u in s.pcs && t != u
    ensures var s := trace[|trace| - 1];
            && (Held(s.pcs[t]) == Some(Exclusive) ==> Held(s.pcs[u]) == None)
            && (Held(s.pcs[t]).Some? ==> Release(s.lock, Held(s.pcs[t]).value, t).Some?)
  {
    hide Next, Step, ThreadInv, Run, Init;
    InvHolds(maxItems, trace);
    var s := trace[|trace| - 1];
    if Held(s.pcs[t]).Some? {
      ReleaseRecords(s.lock, s.pcs, t, Held(s.pcs[t]).value, Idle);
    }
  }

  /**
   The lock is held by exactly the threads inside their critical sections, each in its mode: every
   path gives back what it took, and a thread outside a call, or past its unlock, holds nothing.
   */
  lemma EveryPathReleases(maxItems: int, trace: seq<State>, t: Tid)
    requires Execution(maxItems, trace) && t in trace[|trace| - 1].pcs
    ensures var s := trace[|trace| - 1];
            && (s.lock.Reading? && t in s.lock.readers <==> Held(s.pcs[t]) == Some(Shared))
            && (s.lock == Writing(t) <==> Held(s.pcs[t]) == Some(Exclusive))
            && (s.lock == Free <==> forall u :: u in s.pcs ==> Held(s.pcs[u]) == None)
  {
    hide Next, Step, ThreadInv, Run, Init, LogInv, ReturnedInv;
    InvHolds(maxItems, trace);
    var s := trace[|trace| - 1];
    if s.lock != Free {
      SomebodyInside(s);
    }
  }

  lemma SomebodyInside(s: State)
    requires LockInv(s) && s.lock != Free
    ensures exists u :: u in s.pcs && Held(s.pcs[u]).Some?
  {
    var u := if s.lock.Writing? then s.lock.writer else var r :| r in s.lock.readers; r;
    assert u in s.pcs && Held(s.pcs[u]).Some?;
  }

  /**
   No path keeps the lock forever: a thread is only ever held up by a lock that somebody else
   holds, and whoever holds it can go on.
   */
  lemma NobodyIsStuck(maxItems: int, trace: seq<State>, t: Tid)
    requires Execution(maxItems, trace) && t in trace[|trace| - 1].pcs
    ensures var s := trace[|trace| - 1];
            || (exists a, s' :: Next(maxItems, s, t, a, s'))
            || (s.pcs[t].Entering? && exists u :: u in s.pcs && u != t && Held(s.pcs[u]).Some?)
  {
    InvHolds(maxItems, trace);
    var s := trace[|trace| - 1];
    hide Run, Step, Decide, Begin, LogInv, ReturnedInv, LockRecords;
    var pc := s.pcs[t];
    var a := Choice(Clear, "", s.clock);
    match pc
    case Idle => assert Next(maxItems, s, t, a, Moved(s, t, Entering(a.call), a.now).(begun := s.begun[t := |s.returned|]));
    case Entering(c) =>
      if Acquire(s.lock, LockMode(c), t).Some? {
        assert Next(maxItems, s, t, a, Moved(s, t, Inside(c), a.now).(lock := Acquire(s.lock, LockMode(c), t).value));
      } else {
        SomebodyHolds(s, t);
      }
    case Inside(c) => assert Next(maxItems, s, t, a, Begin(s, t, c, a.now));
    case Looked(c, found) => assert Next(maxItems, s, t, a, Decide(s, t, c, found, maxItems, a.now));
    case Stamped(c, item, at) =>
      assert Next(maxItems, s, t, a, Commit(s, t, Event(c, at, at, Done), s.items[c.key := item], Leaving(c, |s.log|), a.now));
    case Sweeping(unvisited, start) =>
      if unvisited == {} {
        assert Next(maxItems, s, t, a, Commit(s, t, Event(DeleteExpired, start, a.now, Done), s.items,
                                              Leaving(DeleteExpired, |s.log|), a.now));
      } else {
        var k :| k in unvisited;
        assert Next(maxItems, s, t, Choice(Clear, k, s.clock), Visit(s, t, unvisited, start, k, s.clock));
      }
    case Leaving(c, i) =>
      ReleaseRecords(s.lock, s.pcs, t, LockMode(c), Idle);
      assert Next(maxItems, s, t, a, Moved(s, t, Idle, a.now).(
        lock := Release(s.lock, LockMode(c), t).value, returned := s.returned + [Return(t, i, s.log[i])]));
    case LeavingEarly(c, i, item) =>
      ReleaseRecords(s.lock, s.pcs, t, LockMode(c), Idle);
      assert Next(maxItems, s, t, a, Moved(s, t, Outside(c, i, item), a.now).(lock := Release(s.lock, LockMode(c), t).value));
    case Outside(c, i, item) =>
      assert Next(maxItems, s, t, a, Moved(s, t, Idle, a.now).(
        returned := s.returned + [Return(t, i, s.log[i].(to := a.now, answer := Duration(Wrap64(item.expiration - a.now))))]));
  }

  lemma SomebodyHolds(s: State, t: Tid)
    requires LockInv(s) && s.lock != Free && t in s.pcs && Held(s.pcs[t]) == None
    ensures exists u :: u in s.pcs && u != t && Held(s.pcs[u]).Some?
  {
    SomebodyInside(s);
  }

  /** In every interleaving a Get returns the last write before it in lock order, unless expired. */
  lemma ConcurrentGetSeesLastWrite(maxItems: int, trace: seq<State>, j: nat)
    requires Execution(maxItems, trace)
    requires var s := trace[|trace| - 1]; j < |s.returned| && s.returned[j].event.call.Get?
    ensures var s := trace[|trace| - 1];
            var Return(_, i, e) := s.returned[j];
            i < |s.log| &&
            var w := LastWrite(s.log[..i], e.call.key);
            e.answer == if w.Some? && !Expired(w.value, e.from) then Found(w.value.value) else Missing
  {
    hide Next;
    InvHolds(maxItems, trace);
    var s := trace[|trace| - 1];
    var Return(_, i, e) := s.returned[j];
    assert Step(maxItems, s.states[i], s.log[i], s.states[i + 1]);
    ReadsSeeLastWrite(maxItems, s.log, s.states, i);
  }
}
