/** When the janitor's sweeps can be seen in the answers, and when they cannot. */
module CacheSweeps {
  import opened Wrappers
  import opened CacheSpec
  import opened CacheRuns

  /** The events of a run without its sweeps. */
  function WithoutSweeps(events: seq<Event>): seq<Event> {
    if events == [] then []
    else
      var n := |events| - 1;
      if events[n].call.DeleteExpired? then WithoutSweeps(events[..n])
      else WithoutSweeps(events[..n]) + [events[n]]
  }

  /** The calls and their times, with the answers blanked out. */
  function Questions(events: seq<Event>): seq<Event> {
    if events == [] then []
    else
      var n := |events| - 1;
      Questions(events[..n]) + [events[n].(answer := Done)]
  }

  /** Every call but ItemCount, writing no keys but these. */
  ghost predicate Sets(events: seq<Event>, keys: set<Key>) {
    forall e :: e in events ==> !e.call.ItemCount? && (e.call.Set? || e.call.Add? ==> e.call.key in keys)
  }

  ghost predicate Fresh(w: Option<Item>, t: int) {
    w.Some? ==> !Expired(w.value, t)
  }

  /** No Add meets an expired last write of its key. */
  ghost predicate NoStaleAdds(events: seq<Event>) {
    forall i :: 0 <= i < |events| && events[i].call.Add? ==>
      Fresh(LastWrite(events[..i], events[i].call.key), events[i].from)
  }

  lemma PrefixOf(events: seq<Event>, keys: set<Key>, n: nat)
    requires Sets(events, keys) && NoStaleAdds(events) && n <= |events|
    ensures Sets(events[..n], keys) && NoStaleAdds(events[..n])
  {
    forall i | 0 <= i < n && events[..n][i].call.Add?
      ensures Fresh(LastWrite(events[..n][..i], events[..n][i].call.key), events[..n][i].from)
    {
      assert events[..n][..i] == events[..i];
    }
  }

  lemma {:induction false} SweepsAreNoWrites(events: seq<Event>, k: Key)
    ensures LastWrite(events, k) == LastWrite(WithoutSweeps(events), k)
  {
    if events != [] {
      var n := |events| - 1;
      SweepsAreNoWrites(events[..n], k);
      var w := WithoutSweeps(events[..n]);
      if !events[n].call.DeleteExpired? {
        assert WithoutSweeps(events) == w + [events[n]];
        assert WithoutSweeps(events)[..|w|] == w;
      }
    }
  }

  lemma {:induction false} OnlySetKeysAreStored(maxItems: int, events: seq<Event>, states: seq<Items>, keys: set<Key>)
    requires Run(maxItems, events, states) && Sets(events, keys)
    ensures states[|events|].Keys <= keys
  {
    if events != [] {
      var n := |events| - 1;
      RunPrefix(maxItems, events, states, n);
      OnlySetKeysAreStored(maxItems, events[..n], states[..n + 1], keys);
      assert states[..n + 1][n] == states[n] && events[n] in events;
      assert Step(maxItems, states[n], events[n], states[n + 1]);
    }
  }

  lemma RoomForKeys(maxItems: int, items: Items, keys: set<Key>, k: Key)
    requires items.Keys <= keys && |keys| <= maxItems && k in keys && k !in items
    ensures HasRoom(items, maxItems)
  {
    SubsetSize(items.Keys, keys - {k});
    assert |items.Keys| == |items|;
  }

  /** With room for every key ever set, no Set fails. */
  lemma SetsSucceed(maxItems: int, events: seq<Event>, states: seq<Items>, keys: set<Key>, i: nat)
    requires Run(maxItems, events, states) && Sets(events, keys) && |keys| <= maxItems
    requires i < |events| && events[i].call.Set?
    ensures events[i].answer == Done
  {
    RunPrefix(maxItems, events, states, i);
    OnlySetKeysAreStored(maxItems, events[..i], states[..i + 1], keys);
    assert states[..i + 1][i] == states[i] && events[i] in events;
    assert Step(maxItems, states[i], events[i], states[i + 1]);
    if events[i].call.key !in states[i] {
      RoomForKeys(maxItems, states[i], keys, events[i].call.key);
    }
  }

  /**
   Add answers by the last write of its key: Exists when that has not expired, and when there is
   none by the room alone. Only an expired last write leaves the answer to the sweeps.
   */
  lemma AddAnswers(maxItems: int, events: seq<Event>, states: seq<Items>, i: nat)
    requires Run(maxItems, events, states) && i < |events| && events[i].call.Add?
    ensures match LastWrite(events[..i], events[i].call.key)
            case None => events[i].answer == if HasRoom(states[i], maxItems) then Done else Full
            case Some(item) => !Expired(item, events[i].from) ==> events[i].answer == Exists
  {
    RunPrefix(maxItems, events, states, i);
    RunsAreFaithful(maxItems, events[..i], states[..i + 1], events[i].call.key, events[i].from);
    assert states[..i + 1][i] == states[i];
    assert Step(maxItems, states[i], events[i], states[i + 1]);
  }

  /** With room for every key, an Add that meets no expired last write is decided by the last write. */
  lemma FreshAddAnswers(maxItems: int, events: seq<Event>, states: seq<Items>, keys: set<Key>, i: nat)
    requires Run(maxItems, events, states) && Sets(events, keys) && |keys| <= maxItems
    requires i < |events| && events[i].call.Add?
    requires Fresh(LastWrite(events[..i], events[i].call.key), events[i].from)
    ensures events[i].answer == if LastWrite(events[..i], events[i].call.key).Some? then Exists else Done
  {
    var k := events[i].call.key;
    AddAnswers(maxItems, events, states, i);
    RunPrefix(maxItems, events, states, i);
    RunsAreFaithful(maxItems, events[..i], states[..i + 1], k, events[i].from);
    OnlySetKeysAreStored(maxItems, events[..i], states[..i + 1], keys);
    assert states[..i + 1][i] == states[i] && events[i] in events;
    if LastWrite(events[..i], k).None? {
      RoomForKeys(maxItems, states[i], keys, k);
    }
  }

  /** The same call at the same time after the same writes gets the same answer. */
  lemma SameAnswer(maxItems: int, keys: set<Key>,
                   events: seq<Event>, states: seq<Items>, others: seq<Event>, states': seq<Items>)
    requires Run(maxItems, events, states) && Sets(events, keys) && NoStaleAdds(events) && |keys| <= maxItems
    requires Run(maxItems, others, states') && Sets(others, keys)
    requires events != [] && others != []
    requires var n, m := |events| - 1, |others| - 1;
             && events[n].(answer := Done) == others[m].(answer := Done)
             && !events[n].call.DeleteExpired?
             && WithoutSweeps(events[..n]) == WithoutSweeps(others[..m])
    ensures events[|events| - 1] == others[|others| - 1]
  {
    var n, m := |events| - 1, |others| - 1;
    var e, o := events[n], others[m];
    assert e in events && o in others;
    assert e.call == o.call && e.from == o.from && e.to == o.to;
    assert Step(maxItems, states[n], e, states[n + 1]) && Step(maxItems, states'[m], o, states'[m + 1]);
    match e.call
    case Set(k, v, x) =>
      SetsSucceed(maxItems, events, states, keys, n);
      SetsSucceed(maxItems, others, states', keys, m);
    case Add(k, v, x) =>
      SweepsAreNoWrites(events[..n], k);
      SweepsAreNoWrites(others[..m], k);
      FreshAddAnswers(maxItems, events, states, keys, n);
      FreshAddAnswers(maxItems, others, states', keys, m);
    case Get(k) =>
      SameReads(maxItems, events, states, n, others, states', m);
    case HasExpired(k) =>
      SameReads(maxItems, events, states, n, others, states', m);
    case GetExpiration(k) =>
      SameReads(maxItems, events, states, n, others, states', m);
    case _ =>
  }

  /** Two readings of one key at one time, after the same last write, have the same answer. */
  lemma ReadsDetermineAnswer(e: Event, o: Event, w: Option<Item>)
    requires Reads(e, w) && Reads(o, w)
    requires e.call == o.call && e.from == o.from && e.to == o.to
    requires e.call.Get? || e.call.HasExpired? || e.call.GetExpiration?
    ensures e.answer == o.answer
  {
  }

  lemma SameReads(maxItems: int, events: seq<Event>, states: seq<Items>, n: nat,
                  others: seq<Event>, states': seq<Items>, m: nat)
    requires Run(maxItems, events, states) && Run(maxItems, others, states') && n < |events| && m < |others|
    requires WithoutSweeps(events[..n]) == WithoutSweeps(others[..m])
    requires events[n].call == others[m].call && events[n].from == others[m].from && events[n].to == others[m].to
    requires events[n].call.Get? || events[n].call.HasExpired? || events[n].call.GetExpiration?
    ensures events[n].answer == others[m].answer
  {
    hide Run, Reads, WithoutSweeps, LastWrite;
    var k := events[n].call.key;
    SweepsAreNoWrites(events[..n], k);
    SweepsAreNoWrites(others[..m], k);
    ReadsSeeLastWrite(maxItems, events, states, n);
    ReadsSeeLastWrite(maxItems, others, states', m);
    ReadsDetermineAnswer(events[n], others[m], LastWrite(events[..n], k));
  }

  /**
   Sweeps are transparent: of two runs that make the same calls at the same times, do not count the
   items, and write no more keys than the cache can hold, every call gets the same answer, wherever
   either run sweeps; as long as no Add of the one run meets an expired last write.
   */
  lemma {:induction false} SweepsAreTransparent(maxItems: int, keys: set<Key>,
      events: seq<Event>, states: seq<Items>, others: seq<Event>, states': seq<Items>)
    requires Run(maxItems, events, states) && Sets(events, keys) && NoStaleAdds(events) && |keys| <= maxItems
    requires Run(maxItems, others, states') && Sets(others, keys)
    requires Questions(WithoutSweeps(events)) == Questions(WithoutSweeps(others))
    ensures WithoutSweeps(events) == WithoutSweeps(others)
    decreases |events| + |others|
  {
    hide Sets, NoStaleAdds;
    var n, m := |events| - 1, |others| - 1;
    if events != [] && events[n].call.DeleteExpired? {
      RunPrefix(maxItems, events, states, n);
      PrefixOf(events, keys, n);
      SweepsAreTransparent(maxItems, keys, events[..n], states[..n + 1], others, states');
    } else if others != [] && others[m].call.DeleteExpired? {
      RunPrefix(maxItems, others, states', m);
      PrefixSets(others, keys, m);
      SweepsAreTransparent(maxItems, keys, events, states, others[..m], states'[..m + 1]);
    } else if events != [] && others != [] {
      QuestionsOfLast(WithoutSweeps(events[..n]), events[n]);
      QuestionsOfLast(WithoutSweeps(others[..m]), others[m]);
      SameLast(Questions(WithoutSweeps(events[..n])), events[n].(answer := Done),
               Questions(WithoutSweeps(others[..m])), others[m].(answer := Done));
      RunPrefix(maxItems, events, states, n);
      RunPrefix(maxItems, others, states', m);
      PrefixOf(events, keys, n);
      PrefixSets(others, keys, m);
      SweepsAreTransparent(maxItems, keys, events[..n], states[..n + 1], others[..m], states'[..m + 1]);
      SameAnswer(maxItems, keys, events, states, others, states');
    } else {
      SameLength(WithoutSweeps(events));
      SameLength(WithoutSweeps(others));
    }
  }

  lemma PrefixSets(events: seq<Event>, keys: set<Key>, n: nat)
    requires Sets(events, keys) && n <= |events|
    ensures Sets(events[..n], keys)
  {
  }

  lemma QuestionsOfLast(events: seq<Event>, e: Event)
    ensures Questions(events + [e]) == Questions(events) + [e.(answer := Done)]
  {
    assert (events + [e])[..|events|] == events;
  }

  lemma SameLast(s: seq<Event>, e: Event, t: seq<Event>, o: Event)
    requires s + [e] == t + [o]
    ensures s == t && e == o
  {
    assert (s + [e])[..|s|] == s && (t + [o])[..|t|] == t;
    assert (s + [e])[|s|] == e && (t + [o])[|t|] == o;
    assert |s + [e]| == |t + [o]|;
  }

  lemma {:induction false} SameLength(events: seq<Event>)
    ensures |Questions(events)| == |events|
  {
    if events != [] {
      SameLength(events[..|events| - 1]);
    }
  }

  // ---------------------------------------------------------------- leaving out the sweeps

  lemma WithoutSweepsOfLast(events: seq<Event>)
    requires events != []
    ensures var n := |events| - 1;
            WithoutSweeps(events) ==
            WithoutSweeps(events[..n]) + if events[n].call.DeleteExpired? then [] else [events[n]]
  {
  }

  lemma {:induction false} KeptEvents(events: seq<Event>)
    ensures forall e :: e in WithoutSweeps(events) <==> e in events && !e.call.DeleteExpired?
  {
    if events != [] {
      var n := |events| - 1;
      KeptEvents(events[..n]);
      assert events == events[..n] + [events[n]];
    }
  }

  /** The answer of a reading call, given again on items that show the last write of its key. */
  lemma StepFromReads(maxItems: int, items: Items, e: Event, w: Option<Item>)
    requires Reads(e, w) && e.from <= e.to
    requires e.call.Get? || e.call.HasExpired? || e.call.GetExpiration?
    requires Live(items, e.call.key, e.from) <==> w.Some? && !Expired(w.value, e.from)
    requires Live(items, e.call.key, e.from) ==> items[e.call.key] == w.value
    ensures Step(maxItems, items, e, items)
  {
  }

  /** The last call of a run, made again after the same run without its sweeps. */
  lemma LastStepAgain(maxItems: int, keys: set<Key>, events: seq<Event>, states: seq<Items>, states': seq<Items>)
      returns (after: Items)
    requires Run(maxItems, events, states) && Sets(events, keys) && NoStaleAdds(events) && |keys| <= maxItems
    requires events != [] && !events[|events| - 1].call.DeleteExpired?
    requires var others := WithoutSweeps(events[..|events| - 1]);
             Run(maxItems, others, states') && Sets(others, keys)
             && forall e :: e in others ==> End(e) <= events[|events| - 1].from
    ensures Step(maxItems, states'[|states'| - 1], events[|events| - 1], after)
  {
    var n := |events| - 1;
    var e, others := events[n], WithoutSweeps(events[..n]);
    var items := states'[|others|];
    assert e in events && Step(maxItems, states[n], e, states[n + 1]);
    OnlySetKeysAreStored(maxItems, others, states', keys);
    after := items;
    match e.call
    case Set(k, v, x) =>
      SetsSucceed(maxItems, events, states, keys, n);
      after := items[k := Written(v, x, e.from)];
      if k !in items {
        RoomForKeys(maxItems, items, keys, k);
      }
    case Add(k, v, x) =>
      SweepsAreNoWrites(events[..n], k);
      FreshAddAnswers(maxItems, events, states, keys, n);
      RunsAreFaithful(maxItems, others, states', k, e.from);
      if k !in items {
        RoomForKeys(maxItems, items, keys, k);
        after := items[k := Written(v, x, e.from)];
      }
    case Delete(k) => after := items - {k};
    case Clear => after := map[];
    case Get(k) => ReadAgain(maxItems, events, states, states');
    case HasExpired(k) => ReadAgain(maxItems, events, states, states');
    case GetExpiration(k) => ReadAgain(maxItems, events, states, states');
    case _ =>
  }

  lemma ReadAgain(maxItems: int, events: seq<Event>, states: seq<Items>, states': seq<Items>)
    requires Run(maxItems, events, states) && events != []
    requires var others, e := WithoutSweeps(events[..|events| - 1]), events[|events| - 1];
             && Run(maxItems, others, states')
             && (forall o :: o in others ==> End(o) <= e.from)
             && (e.call.Get? || e.call.HasExpired? || e.call.GetExpiration?)
    ensures var items := states'[|states'| - 1]; Step(maxItems, items, events[|events| - 1], items)
  {
    var n := |events| - 1;
    var e, others := events[n], WithoutSweeps(events[..n]);
    SweepsAreNoWrites(events[..n], e.call.key);
    ReadsSeeLastWrite(maxItems, events, states, n);
    LookupSeesLastWrite(maxItems, others, states', e.call.key, e.from);
    assert Step(maxItems, states[n], e, states[n + 1]);
    hide Live, Expired, LastWrite, WithoutSweeps, Reads;
    StepFromReads(maxItems, states'[|others|], e, LastWrite(others, e.call.key));
  }

  /** Leaving the sweeps out of such a run gives a run, with all answers as they were. */
  lemma {:induction false} WithoutSweepsIsRun(maxItems: int, keys: set<Key>, events: seq<Event>, states: seq<Items>)
      returns (states': seq<Items>)
    requires Run(maxItems, events, states) && Sets(events, keys) && NoStaleAdds(events) && |keys| <= maxItems
    ensures Run(maxItems, WithoutSweeps(events), states')
    decreases |events|
  {
    if events == [] {
      states' := [map[]];
    } else {
      var n := |events| - 1;
      var e, others := events[n], WithoutSweeps(events[..n]);
      RunPrefix(maxItems, events, states, n);
      PrefixOf(events, keys, n);
      WithoutSweepsOfLast(events);
      states' := WithoutSweepsIsRun(maxItems, keys, events[..n], states[..n + 1]);
      if !e.call.DeleteExpired? {
        KeptEvents(events[..n]);
        assert forall o :: o in events[..n] ==> End(o) <= e.from;
        var after := LastStepAgain(maxItems, keys, events, states, states');
        RunExtends(maxItems, others, states', e, after);
        states' := states' + [after];
      }
    }
  }

  // ---------------------------------------------------------------- when a sweep is seen

  /**
   Sweeping just before a call changes its answer exactly when some item has expired and the call
   counts the items, finds the cache full for a new key, or adds a key whose item has expired.
   */
  lemma SweepChangesAnswer(maxItems: int, items: Items, swept: Items, e: Event, after: Items, o: Event, after': Items)
    requires |items| <= Capacity(maxItems) && Swept(items, swept, e.from, e.from)
    requires Step(maxItems, items, e, after) && Step(maxItems, swept, o, after')
    requires e.call == o.call && e.from == o.from && e.to == o.to
    ensures e.answer != o.answer <==>
            && (exists j :: j in items && Expired(items[j], e.from))
            && match e.call
               case Set(k, _, _) => k !in items && !HasRoom(items, maxItems)
               case Add(k, _, _) => if k in items then Expired(items[k], e.from) else !HasRoom(items, maxItems)
               case ItemCount => true
               case _ => false
  {
    SweepShrinks(items, swept, e.from);
    if swept == items {
      SameItemsSameAnswer(maxItems, items, e, after, o, after');
    }
    match e.call
    case Set(k, _, _) =>
    case Add(k, _, _) =>
    case Get(k) =>
    case HasExpired(k) =>
    case GetExpiration(k) =>
    case _ =>
  }

  lemma SameItemsSameAnswer(maxItems: int, items: Items, e: Event, after: Items, o: Event, after': Items)
    requires Step(maxItems, items, e, after) && Step(maxItems, items, o, after')
    requires e.call == o.call && e.from == o.from && e.to == o.to
    ensures e.answer == o.answer
  {
  }

  /** A sweep at one time removes something exactly when something has expired. */
  lemma SweepShrinks(items: Items, swept: Items, t: int)
    requires Swept(items, swept, t, t)
    ensures if exists j :: j in items && Expired(items[j], t) then |swept| < |items| else swept == items
    ensures forall k :: k in swept <==> k in items && !Expired(items[k], t)
  {
    assert |swept.Keys| == |swept| && |items.Keys| == |items|;
    if j :| j in items && Expired(items[j], t) {
      assert j !in swept.Keys && j in items.Keys;
      SubsetSize(swept.Keys, items.Keys);
    } else {
      assert swept.Keys == items.Keys;
    }
  }

  function SweptAt(items: Items, t: int): Items {
    map k | k in items && !Expired(items[k], t) :: items[k]
  }

  lemma SweepStep(maxItems: int, items: Items, t: int)
    ensures Step(maxItems, items, Event(DeleteExpired, t, t, Done), SweptAt(items, t))
    ensures SweptAt(items, t).Keys <= items.Keys
  {
  }

  /** A sweep and then a call, at the end of a run. */
  lemma SweepAndCall(maxItems: int, events: seq<Event>, states: seq<Items>, e: Event, after: Items)
    requires Run(maxItems, events, states) && e.from == e.to && forall o :: o in events ==> End(o) <= e.from
    requires Step(maxItems, SweptAt(states[|events|], e.from), e, after)
    ensures exists states' :: Run(maxItems, events + [Event(DeleteExpired, e.from, e.from, Done), e], states')
  {
    var sweep, swept := Event(DeleteExpired, e.from, e.from, Done), SweptAt(states[|events|], e.from);
    SweepStep(maxItems, states[|events|], e.from);
    hide Step, Monotone;
    RunExtends(maxItems, events, states, sweep, swept);
    RunExtends(maxItems, events + [sweep], states + [swept], e, after);
    assert events + [sweep, e] == events + [sweep] + [e];
  }

  /** Without sweeps the items are the last writes. */
  lemma {:induction false} NothingForgotten(maxItems: int, events: seq<Event>, states: seq<Items>, k: Key)
    requires Run(maxItems, events, states) && forall e :: e in events ==> !e.call.DeleteExpired?
    ensures LastWrite(events, k) == if k in states[|events|] then Some(states[|events|][k]) else None
  {
    if events != [] {
      var n := |events| - 1;
      RunPrefix(maxItems, events, states, n);
      NothingForgotten(maxItems, events[..n], states[..n + 1], k);
      assert states[..n + 1][n] == states[n] && events[n] in events;
      assert Step(maxItems, states[n], events[n], states[n + 1]);
    }
  }

  /**
   After any run that leaves an expired last write of a key, with room for all keys, both answers of
   Add are within reach: Exists when the sweeps are left out, and Done when there is one more.
   */
  lemma AddSeesSweeps(maxItems: int, keys: set<Key>, events: seq<Event>, states: seq<Items>, k: Key, v: Value, x: int, t: int)
    requires Run(maxItems, events, states) && Sets(events, keys) && NoStaleAdds(events) && |keys| <= maxItems
    requires forall e :: e in events ==> End(e) <= t
    requires LastWrite(events, k).Some? && Expired(LastWrite(events, k).value, t)
    ensures exists states' :: Run(maxItems, WithoutSweeps(events) + [Event(Add(k, v, x), t, t, Exists)], states')
    ensures exists states' :: Run(maxItems, events + [Event(DeleteExpired, t, t, Done),
                                                      Event(Add(k, v, x), t, t, Done)], states')
  {
    UnsweptAddExists(maxItems, keys, events, states, k, v, x, t);
    SweptAddIsDone(maxItems, keys, events, states, k, v, x, t);
  }

  lemma UnsweptAddExists(maxItems: int, keys: set<Key>, events: seq<Event>, states: seq<Items>, k: Key, v: Value, x: int, t: int)
    requires Run(maxItems, events, states) && Sets(events, keys) && NoStaleAdds(events) && |keys| <= maxItems
    requires forall e :: e in events ==> End(e) <= t
    requires LastWrite(events, k).Some?
    ensures exists states' :: Run(maxItems, WithoutSweeps(events) + [Event(Add(k, v, x), t, t, Exists)], states')
  {
    var others := WithoutSweeps(events);
    var states' := WithoutSweepsIsRun(maxItems, keys, events, states);
    KeptEvents(events);
    SweepsAreNoWrites(events, k);
    NothingForgotten(maxItems, others, states', k);
    var last := states'[|others|];
    hide Run, LastWrite, WithoutSweeps;
    RunExtends(maxItems, others, states', Event(Add(k, v, x), t, t, Exists), last);
  }

  lemma SweptAddIsDone(maxItems: int, keys: set<Key>, events: seq<Event>, states: seq<Items>, k: Key, v: Value, x: int, t: int)
    requires Run(maxItems, events, states) && Sets(events, keys) && |keys| <= maxItems
    requires forall e :: e in events ==> End(e) <= t
    requires LastWrite(events, k).Some? && Expired(LastWrite(events, k).value, t)
    ensures exists states' :: Run(maxItems, events + [Event(DeleteExpired, t, t, Done),
                                                      Event(Add(k, v, x), t, t, Done)], states')
  {
    OnlySetKeysAreStored(maxItems, events, states, keys);
    LastWriteIsWritten(events, k);
    WrittenAreSet(events, keys);
    RunsAreFaithful(maxItems, events, states, k, t);
    var swept := SweptAt(states[|events|], t);
    RoomForKeys(maxItems, swept, keys, k);
    SweepAndCall(maxItems, events, states, Event(Add(k, v, x), t, t, Done), swept[k := Written(v, x, t)]);
  }

  // ---------------------------------------------------------------- Set without room for every key

  function WrittenKeys(events: seq<Event>): set<Key> {
    if events == [] then {}
    else
      var n := |events| - 1;
      WrittenKeys(events[..n]) + if events[n].call.Set? || events[n].call.Add? then {events[n].call.key} else {}
  }

  lemma {:induction false} LastWriteIsWritten(events: seq<Event>, k: Key)
    ensures LastWrite(events, k).Some? ==> k in WrittenKeys(events)
  {
    if events != [] {
      LastWriteIsWritten(events[..|events| - 1], k);
    }
  }

  lemma {:induction false} WrittenAreSet(events: seq<Event>, keys: set<Key>)
    requires Sets(events, keys)
    ensures WrittenKeys(events) <= keys
  {
    if events != [] {
      var n := |events| - 1;
      PrefixSets(events, keys, n);
      WrittenAreSet(events[..n], keys);
      assert events[n] in events;
    }
  }

  /** The keys that have a last write. */
  ghost function Remembered(events: seq<Event>): set<Key> {
    set k | k in WrittenKeys(events) && LastWrite(events, k).Some?
  }

  /** The keys whose last write has not expired. */
  ghost function Alive(events: seq<Event>, t: int): set<Key> {
    set k | k in WrittenKeys(events) && LastWrite(events, k).Some? && !Expired(LastWrite(events, k).value, t)
  }

  /** What is stored lies between the keys that are alive and those that have a last write. */
  lemma StoredBetween(maxItems: int, events: seq<Event>, states: seq<Items>, t: int)
    requires Run(maxItems, events, states) && forall e :: e in events ==> End(e) <= t
    ensures Alive(events, t) <= states[|events|].Keys <= Remembered(events)
  {
    hide LastWrite, WrittenKeys;
    forall k
      ensures k in Alive(events, t) ==> k in states[|events|]
      ensures k in states[|events|] ==> k in Remembered(events)
    {
      RunsAreFaithful(maxItems, events, states, k, t);
      LastWriteIsWritten(events, k);
    }
  }

  /**
   Set answers by the last writes: Done when the key is alive or there is room for every key with a
   last write, and Full when the key is not alive and those that are fill the cache. In between the
   answer depends on which expired items have been swept.
   */
  lemma SetAnswers(maxItems: int, events: seq<Event>, states: seq<Items>, i: nat)
    requires Run(maxItems, events, states) && i < |events| && events[i].call.Set?
    ensures var k, alive := events[i].call.key, Alive(events[..i], events[i].from);
            && (k in alive || |Remembered(events[..i])| < maxItems ==> events[i].answer == Done)
            && (k !in alive && |alive| >= Capacity(maxItems) ==> events[i].answer == Full)
  {
    var k, before, t := events[i].call.key, states[i], events[i].from;
    RunPrefix(maxItems, events, states, i);
    assert states[..i + 1][i] == before && Step(maxItems, before, events[i], states[i + 1]);
    StoredBetween(maxItems, events[..i], states[..i + 1], t);
    CapacityHolds(maxItems, events[..i], states[..i + 1]);
    SubsetSize(before.Keys, Remembered(events[..i]));
    SubsetSize(Alive(events[..i], t), before.Keys);
    assert |before.Keys| == |before|;
    hide Alive, Remembered, LastWrite, Run;
  }

  /** In any state that is full for a new key and holds an expired item, both answers are within reach. */
  lemma SetSeesSweepsWhenFull(maxItems: int, events: seq<Event>, states: seq<Items>, k: Key, v: Value, x: int, t: int)
    requires Run(maxItems, events, states) && forall e :: e in events ==> End(e) <= t
    requires var items := states[|events|];
             k !in items && !HasRoom(items, maxItems) && exists j :: j in items && Expired(items[j], t)
    ensures exists states' :: Run(maxItems, events + [Event(Set(k, v, x), t, t, Full)], states')
    ensures exists states' :: Run(maxItems, events + [Event(DeleteExpired, t, t, Done),
                                                      Event(Set(k, v, x), t, t, Done)], states')
  {
    var items := states[|events|];
    var swept := SweptAt(items, t);
    RunExtends(maxItems, events, states, Event(Set(k, v, x), t, t, Full), items);
    CapacityHolds(maxItems, events, states);
    var j :| j in items && Expired(items[j], t);
    assert j in items.Keys && j !in swept.Keys;
    SubsetSize(swept.Keys, items.Keys);
    assert |items.Keys| == |items| && |swept.Keys| == |swept|;
    SweepAndCall(maxItems, events, states, Event(Set(k, v, x), t, t, Done), swept[k := Written(v, x, t)]);
  }
}
