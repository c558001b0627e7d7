/** The bounded cache as an object: its methods under the lock, one at a time, each a step of CacheSpec. */
module Cache {
  import opened Wrappers
  import opened CacheSpec

  /** The wall clock; its last reading is now, and readings never go back. readings counts them. */
  class Clock {
    var now: int
    var readings: nat

    constructor (start: int)
      ensures now == start && readings == 0
    {
      now := start;
      readings := 0;
    }

    method Now() returns (t: int)
      modifies this
      ensures old(now) <= now == t && readings == old(readings) + 1
    {
      var elapsed :| elapsed >= 0;
      now := now + elapsed;
      readings := readings + 1;
      t := now;
    }

    /** Time goes by until at; nobody reads the clock. */
    method WaitUntil(at: int)
      modifies this`now
      ensures old(now) <= now && at <= now
    {
      if now < at {
        now := at;
      }
    }
  }

  /** The keys whose items have a deadline. */
  ghost function Dated(items: Items): set<Key> {
    set k | k in items && items[k].expiration > 0
  }

  lemma NoneVisited(dated: set<Key>, unvisited: set<Key>)
    requires dated <= unvisited
    ensures |dated - unvisited| == 0
  {
    assert dated - unvisited == {};
  }

  lemma OneVisited(dated: set<Key>, unvisited: set<Key>, k: Key)
    requires k in unvisited
    ensures |dated - (unvisited - {k})| == |dated - unvisited| + if k in dated then 1 else 0
  {
    assert dated - (unvisited - {k}) == dated - unvisited + if k in dated then {k} else {};
  }

  lemma AllVisited(dated: set<Key>)
    ensures dated - {} == dated
  {
  }

  class Cache {
    var Items: Items
    const MaxItems: int
    const clock: Clock

    constructor (maxItems: int, clock: Clock)
      ensures Items == map[] && MaxItems == maxItems && this.clock == clock
    {
      Items := map[];
      MaxItems := maxItems;
      this.clock := clock;
    }

    method ItemCount() returns (n: nat)
      ensures n == |Items|
      ensures Step(MaxItems, Items, Event(Call.ItemCount, clock.now, clock.now, Count(n)), Items)
    {
      n := |Items|;
    }

    /** The write shared by Set and Add. */
    method Store(key: Key, value: Value, expiration: int)
      modifies this`Items, clock
      ensures old(clock.now) <= clock.now
      ensures Items == old(Items)[key := Written(value, expiration, clock.now)]
    {
      var e := 0;
      if expiration > 0 {
        var now := clock.Now();
        e := Wrap64(now + expiration);
      }
      Items := Items[key := Item(value, e)];
    }

    /** Replaces or inserts; fails, changing nothing, exactly when the key is new and there is no room. */
    method Set(key: Key, value: Value, expiration: int) returns (answer: Answer)
      modifies this`Items, clock
      ensures old(clock.now) <= clock.now
      ensures Step(MaxItems, old(Items), Event(Call.Set(key, value, expiration), clock.now, clock.now, answer), Items)
      ensures answer == Full <==> key !in old(Items) && (MaxItems <= 0 || |old(Items)| >= MaxItems)
      ensures if answer == Full then Items == old(Items)
              else answer == Done && Items.Keys == old(Items).Keys + {key} && Items[key].value == value
    {
      if key in Items {
        Store(key, value, expiration);
        return Done;
      }
      if MaxItems > 0 && |Items| < MaxItems {
        Store(key, value, expiration);
        return Done;
      }
      return Full;
    }

    method Add(key: Key, value: Value, expiration: int) returns (answer: Answer)
      modifies this`Items, clock
      ensures old(clock.now) <= clock.now
      ensures Step(MaxItems, old(Items), Event(Call.Add(key, value, expiration), clock.now, clock.now, answer), Items)
      ensures answer == Exists <==> key in old(Items)
      ensures answer == Full <==> key !in old(Items) && (MaxItems <= 0 || |old(Items)| >= MaxItems)
      ensures answer == Done || Items == old(Items)
    {
      if key in Items {
        return Exists;
      }
      if MaxItems > 0 && |Items| < MaxItems {
        Store(key, value, expiration);
        return Done;
      }
      return Full;
    }

    method Get(key: Key) returns (r: Option<Value>)
      modifies clock
      ensures old(clock.now) <= clock.now
      ensures r == if key in Items && (Items[key].expiration <= 0 || clock.now <= Items[key].expiration)
                   then Some(Items[key].value) else None
      ensures Step(MaxItems, Items,
                   Event(Call.Get(key), clock.now, clock.now, if r.Some? then Found(r.value) else Missing), Items)
    {
      if key !in Items {
        return None;
      }
      var item := Items[key];
      if item.expiration > 0 {
        var now := clock.Now();
        if item.expiration < now {
          return None;
        }
      }
      return Some(item.value);
    }

    method Delete(key: Key)
      modifies this`Items
      ensures Items == old(Items) - {key}
      ensures Step(MaxItems, old(Items), Event(Call.Delete(key), clock.now, clock.now, Done), Items)
    {
      Items := Items - {key};
    }

    method Clear()
      modifies this`Items
      ensures Items == map[]
      ensures Step(MaxItems, old(Items), Event(Call.Clear, clock.now, clock.now, Done), Items)
    {
      Items := map[];
    }

    method HasExpired(key: Key) returns (expired: bool)
      modifies clock
      ensures old(clock.now) <= clock.now
      ensures expired <==> !(key in Items && (Items[key].expiration <= 0 || clock.now <= Items[key].expiration))
      ensures Step(MaxItems, Items, Event(Call.HasExpired(key), clock.now, clock.now, Flag(expired)), Items)
    {
      if key !in Items {
        return true;
      }
      var item := Items[key];
      if item.expiration > 0 {
        var now := clock.Now();
        if item.expiration < now {
          return true;
        }
      }
      return false;
    }

    /** As written: the new deadline goes into a copy of the item that is then dropped. */
    method SetExpiration(key: Key, expiration: int)
      modifies clock
      ensures old(clock.now) <= clock.now && Items == old(Items)
      ensures Step(MaxItems, old(Items), Event(Call.SetExpiration(key, expiration), clock.now, clock.now, Done), Items)
    {
      if key !in Items {
        return;
      }
      var item := Items[key];
      var now := clock.Now();
      item := item.(expiration := Wrap64(now + expiration));
    }

    /** Reads the clock once more after the lock is released, unless there is nothing to answer. */
    method GetExpiration(key: Key) returns (remaining: int)
      modifies clock
      ensures old(clock.now) <= clock.now
      ensures Items == old(Items)
      ensures key in Items && Items[key].expiration <= 0 ==> clock.readings == old(clock.readings) + 1
      ensures key in Items && Items[key].expiration > 0 && remaining != 0 ==> clock.readings == old(clock.readings) + 2
      ensures exists first ::
                && old(clock.now) <= first <= clock.now
                && Step(MaxItems, Items, Event(Call.GetExpiration(key), first, clock.now, Duration(remaining)), Items)
    {
      ghost var first := clock.now;
      if key !in Items {
        assert Step(MaxItems, Items, Event(Call.GetExpiration(key), first, clock.now, Duration(0)), Items);
        return 0;
      }
      var item := Items[key];
      if item.expiration > 0 {
        var now := clock.Now();
        first := now;
        if item.expiration < now {
          assert Step(MaxItems, Items, Event(Call.GetExpiration(key), first, clock.now, Duration(0)), Items);
          return 0;
        }
      }
      var now := clock.Now();
      remaining := Wrap64(item.expiration - now);
      assert Step(MaxItems, Items, Event(Call.GetExpiration(key), first, clock.now, Duration(remaining)), Items);
    }

    /** Visits the keys in any order and reads the clock anew for each item with a deadline. */
    method DeleteExpired()
      modifies this`Items, clock
      ensures old(clock.now) <= clock.now
      ensures forall k :: k in Items ==> k in old(Items) && Items[k] == old(Items)[k]
      ensures forall k :: k in Items ==> Items[k].expiration <= 0 || old(clock.now) <= Items[k].expiration
      ensures forall k :: k in old(Items) && (old(Items)[k].expiration <= 0 || clock.now <= old(Items)[k].expiration) ==>
                k in Items
      ensures clock.readings == old(clock.readings) + |Dated(old(Items))|
      ensures Step(MaxItems, old(Items), Event(Call.DeleteExpired, old(clock.now), clock.now, Done), Items)
    {
      var unvisited := Items.Keys;
      ghost var dated := Dated(Items);
      NoneVisited(dated, unvisited);
      while unvisited != {}
        invariant unvisited <= Items.Keys <= old(Items).Keys
        invariant old(clock.now) <= clock.now
        invariant clock.readings == old(clock.readings) + |dated - unvisited|
        invariant forall k :: k in Items ==> Items[k] == old(Items)[k]
        invariant forall k :: k in old(Items) && k !in unvisited && Expired(old(Items)[k], old(clock.now)) ==> k !in Items
        invariant forall k :: k in old(Items) && !Expired(old(Items)[k], clock.now) ==> k in Items
        decreases unvisited
      {
        var k :| k in unvisited;
        var item := Items[k];
        if item.expiration > 0 {
          var now := clock.Now();
          if item.expiration < now {
            Items := Items - {k};
          }
        }
        OneVisited(dated, unvisited, k);
        unvisited := unvisited - {k};
      }
      AllVisited(dated);
    }
  }

  /** A tick, due at a time, or the one signal to stop. */
  datatype Signal = Tick(at: int) | Stop

  /**
   The janitor's loop: sweeps on every tick and ends at the first stop signal, after which it
   touches nothing. handled is the number of ticks it answered. No item is left that had expired when
   one of these was due.
   */
  method RunJanitor(c: Cache, signals: seq<Signal>) returns (handled: nat)
    modifies c`Items, c.clock
    ensures handled <= |signals| && forall i :: 0 <= i < handled ==> signals[i].Tick?
    ensures handled < |signals| ==> signals[handled] == Stop
    ensures forall i, k :: 0 <= i < handled && k in c.Items ==>
              c.Items[k].expiration <= 0 || signals[i].at <= c.Items[k].expiration
    ensures if handled == 0 then c.Items == old(c.Items) && c.clock.now == old(c.clock.now)
            else Swept(old(c.Items), c.Items, old(c.clock.now), c.clock.now)
  {
    handled := 0;
    while handled < |signals|
      invariant handled <= |signals| && forall i :: 0 <= i < handled ==> signals[i].Tick?
      invariant old(c.clock.now) <= c.clock.now
      invariant forall i, k :: 0 <= i < handled && k in c.Items ==>
                  c.Items[k].expiration <= 0 || signals[i].at <= c.Items[k].expiration
      invariant if handled == 0 then c.Items == old(c.Items) && c.clock.now == old(c.clock.now)
                else Swept(old(c.Items), c.Items, old(c.clock.now), c.clock.now)
    {
      match signals[handled] {
        case Tick(at) =>
          c.clock.WaitUntil(at);
          c.DeleteExpired();
          handled := handled + 1;
        case Stop =>
          return;
      }
    }
  }
}
