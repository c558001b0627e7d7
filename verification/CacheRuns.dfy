/** Properties of whole runs of the cache, from New on, with calls and sweeps in any order. */
module CacheRuns {
  import opened Wrappers
  import opened CacheSpec

  /** The time after which the next call may read the clock. */
  function End(e: Event): int {
    if e.call.DeleteExpired? then e.to else e.from
  }

  ghost predicate Monotone(events: seq<Event>) {
    forall i, j :: 0 <= i < j < |events| ==> End(events[i]) <= events[j].from
  }

  /** events happen one after the other on an initially empty cache and take it through states. */
  ghost predicate Run(maxItems: int, events: seq<Event>, states: seq<Items>) {
    && |states| == |events| + 1
    && states[0] == map[]
    && (forall i :: 0 <= i < |events| ==> Step(maxItems, states[i], events[i], states[i + 1]))
    && Monotone(events)
  }

  lemma RunPrefix(maxItems: int, events: seq<Event>, states: seq<Items>, n: nat)
    requires Run(maxItems, events, states) && n <= |events|
    ensures Run(maxItems, events[..n], states[..n + 1])
  {
  }

  lemma RunExtends(maxItems: int, events: seq<Event>, states: seq<Items>, e: Event, after: Items)
    requires Run(maxItems, events, states)
    requires Step(maxItems, states[|events|], e, after)
    requires forall i :: 0 <= i < |events| ==> End(events[i]) <= e.from
    ensures Run(maxItems, events + [e], states + [after])
  {
    hide Step;
  }

  // ---------------------------------------------------------------- the last write decides

  /** The last write of k after e, when it was last before e. */
  function NextWrite(last: Option<Item>, e: Event, k: Key): Option<Item> {
    match e.call
    case Set(key, v, x) => if key == k && e.answer == Done then Some(Written(v, x, e.from)) else last
    case Add(key, v, x) => if key == k && e.answer == Done then Some(Written(v, x, e.from)) else last
    case Delete(key) => if key == k then None else last
    case Clear => None
    case _ => last
  }

  /** The item that the last successful write of k stored, unless k was deleted or all cleared since. */
  function LastWrite(events: seq<Event>, k: Key): Option<Item> {
    if events == [] then None
    else NextWrite(LastWrite(events[..|events| - 1], k), events[|events| - 1], k)
  }

  /** The items show the last write of k, except that it may be missing when expired. */
  ghost predicate FaithfulAt(items: Items, last: Option<Item>, k: Key, t: int) {
    if k in items then last == Some(items[k]) else last.Some? ==> Expired(last.value, t)
  }

  lemma StepKeepsFaith(maxItems: int, before: Items, e: Event, after: Items, last: Option<Item>, k: Key, t: int)
    requires Step(maxItems, before, e, after) && FaithfulAt(before, last, k, e.from) && End(e) <= t
    ensures FaithfulAt(after, NextWrite(last, e, k), k, t)
  {
  }

  lemma {:induction false} RunsAreFaithful(maxItems: int, events: seq<Event>, states: seq<Items>, k: Key, t: int)
    requires Run(maxItems, events, states)
    requires forall e :: e in events ==> End(e) <= t
    ensures FaithfulAt(states[|events|], LastWrite(events, k), k, t)
  {
    if events != [] {
      var n := |events| - 1;
      RunPrefix(maxItems, events, states, n);
      RunsAreFaithful(maxItems, events[..n], states[..n + 1], k, events[n].from);
      StepKeepsFaith(maxItems, states[n], events[n], states[n + 1], LastWrite(events[..n], k), k, t);
    }
  }

  /**
   A lookup at time t sees exactly the last write of its key, unless that has expired by t; sweeps
   play no part.
   */
  lemma LookupSeesLastWrite(maxItems: int, events: seq<Event>, states: seq<Items>, k: Key, t: int)
    requires Run(maxItems, events, states)
    requires forall e :: e in events ==> End(e) <= t
    ensures var w, items := LastWrite(events, k), states[|events|];
            && (Live(items, k, t) <==> w.Some? && !Expired(w.value, t))
            && (Live(items, k, t) ==> items[k] == w.value)
  {
    RunsAreFaithful(maxItems, events, states, k, t);
  }

  /** What a reading call answers when w is the last write of its key. */
  ghost predicate Reads(e: Event, w: Option<Item>) {
    var live := w.Some? && !Expired(w.value, e.from);
    match e.call
    case Get(_) => e.answer == if live then Found(w.value.value) else Missing
    case HasExpired(_) => e.answer == Flag(!live)
    case GetExpiration(_) => e.answer == Duration(if live then Wrap64(w.value.expiration - e.to) else 0)
    case _ => true
  }

  /** An answer given on items that show the last write of the key. */
  lemma ReadsFromItems(maxItems: int, before: Items, e: Event, after: Items, w: Option<Item>)
    requires Step(maxItems, before, e, after)
    requires e.call.Get? || e.call.HasExpired? || e.call.GetExpiration?
    requires Live(before, e.call.key, e.from) <==> w.Some? && !Expired(w.value, e.from)
    requires Live(before, e.call.key, e.from) ==> before[e.call.key] == w.value
    ensures Reads(e, w)
  {
  }

  /** The answers of the reading calls anywhere in a run, in terms of the calls before them. */
  lemma ReadsSeeLastWrite(maxItems: int, events: seq<Event>, states: seq<Items>, i: nat)
    requires Run(maxItems, events, states) && i < |events|
    ensures var c := events[i].call;
            c.Get? || c.HasExpired? || c.GetExpiration? ==> Reads(events[i], LastWrite(events[..i], c.key))
  {
    RunPrefix(maxItems, events, states, i);
    var e := events[i];
    assert Step(maxItems, states[i], e, states[i + 1]) && states[..i + 1][i] == states[i];
    assert forall j :: 0 <= j < i ==> End(events[j]) <= e.from;
    hide Run, LastWrite, Step, Reads, Live, Expired;
    if e.call.Get? || e.call.HasExpired? || e.call.GetExpiration? {
      LookupSeesLastWrite(maxItems, events[..i], states[..i + 1], e.call.key, e.from);
      ReadsFromItems(maxItems, states[i], e, states[i + 1], LastWrite(events[..i], e.call.key));
    }
  }

  /**
   A run in which SetExpiration breaks its promise, for every lifetime d and longer one x asked for:
   a Get between the two deadlines misses an item that was to live on.
   */
  lemma SetExpirationIsLost(k: Key, v: Value, d: int, x: int, now: int, t: int)
    requires 0 < now && 0 < d && now + d < t <= now + x < 0x8000_0000_0000_0000
    ensures exists states ::
              && Run(1, [Event(Set(k, v, d), now, now, Done), Event(SetExpiration(k, x), now, now, Done),
                         Event(Get(k), t, t, Missing)], states)
              && var documented := WithDeadline(states[2], k, Wrap64(now + x));
                 Step(1, documented, Event(Get(k), t, t, Found(v)), documented)
  {
    var one := map[k := Written(v, d, now)];
    assert map[][k := Written(v, d, now)] == one;
    var states := [map[], one, one, one];
    WrapSmall(now + d);
    WrapSmall(now + x);
    assert Run(1, [Event(Set(k, v, d), now, now, Done), Event(SetExpiration(k, x), now, now, Done),
                   Event(Get(k), t, t, Missing)], states);
  }

  // ---------------------------------------------------------------- capacity

  function Capacity(maxItems: int): nat {
    if maxItems > 0 then maxItems else 0
  }

  /** No run ever exceeds the capacity, and without a positive capacity the cache stays empty. */
  lemma {:induction false} CapacityHolds(maxItems: int, events: seq<Event>, states: seq<Items>)
    requires Run(maxItems, events, states)
    ensures |states[|events|]| <= Capacity(maxItems)
  {
    hide Step;
    if events != [] {
      var n := |events| - 1;
      RunPrefix(maxItems, events, states, n);
      CapacityHolds(maxItems, events[..n], states[..n + 1]);
      StepSize(maxItems, states[n], events[n], states[n + 1]);
    }
  }

  lemma StepSize(maxItems: int, before: Items, e: Event, after: Items)
    requires Step(maxItems, before, e, after)
    ensures |after| <= |before| || (HasRoom(before, maxItems) && |after| == |before| + 1)
  {
    match e.call
    case Set(k, v, x) => KeyAdded(before, k, Written(v, x, e.from));
    case Add(k, v, x) => KeyAdded(before, k, Written(v, x, e.from));
    case Delete(k) => FewerKeys(after, before);
    case DeleteExpired => FewerKeys(after, before);
    case _ =>
  }

  lemma KeyAdded(items: Items, k: Key, item: Item)
    ensures |items[k := item]| == |items| + if k in items then 0 else 1
  {
    assert items[k := item].Keys == items.Keys + {k};
    assert |items[k := item].Keys| == |items[k := item]| && |items.Keys| == |items|;
  }

  lemma FewerKeys(items: Items, others: Items)
    requires items.Keys <= others.Keys
    ensures |items| <= |others|
  {
    SubsetSize(items.Keys, others.Keys);
    assert |items.Keys| == |items| && |others.Keys| == |others|;
  }

  lemma SubsetSize<T>(a: set<T>, b: set<T>)
    requires a <= b
    ensures |a| <= |b|
    ensures a != b ==> |a| < |b|
  {
    assert b == a + (b - a);
    if a != b {
      assert b - a != {};
    }
  }
}
