/**
 What one call on the bounded cache does to its items and answers. Times are nanoseconds as
 time.Now().UnixNano() gives them.
 */
module CacheSpec {
  type Key = string
  /** Stored objects; the cache never looks into them. */
  type Value = string

  /** An expiration that is not positive means the item never expires. */
  datatype Item = Item(value: Value, expiration: int)

  type Items = map<Key, Item>

  /** Conversion to a 64-bit signed integer. */
  function Wrap64(x: int): int {
    (x + 0x8000_0000_0000_0000) % 0x1_0000_0000_0000_0000 - 0x8000_0000_0000_0000
  }

  predicate Expired(item: Item, t: int) {
    item.expiration > 0 && item.expiration < t
  }

  predicate Live(items: Items, k: Key, t: int) {
    k in items && !Expired(items[k], t)
  }

  /** The item a write stores when the clock reads now. */
  function Written(value: Value, expiration: int, now: int): Item {
    Item(value, if expiration > 0 then Wrap64(now + expiration) else 0)
  }

  predicate HasRoom(items: Items, maxItems: int) {
    maxItems > 0 && |items| < maxItems
  }

  datatype Call =
    | Set(key: Key, value: Value, expiration: int)
    | Add(key: Key, value: Value, expiration: int)
    | Get(key: Key)
    | HasExpired(key: Key)
    | GetExpiration(key: Key)
    | SetExpiration(key: Key, expiration: int)
    | Delete(key: Key)
    | Clear
    | ItemCount
    | DeleteExpired

  datatype Answer =
    | Done | Full | Exists
    | Found(value: Value) | Missing
    | Flag(yes: bool) | Duration(nanoseconds: int) | Count(n: nat)

  /**
   A completed call. from is the clock reading the call decides on, or for a sweep a time no later
   than its first reading; to is the last clock reading of a sweep or of GetExpiration.
   */
  datatype Event = Event(call: Call, from: int, to: int, answer: Answer)

  /**
   A sweep between two times: what was expired at the start is gone, what is still live at the end
   is there, and nothing else changed.
   */
  ghost predicate Swept(before: Items, after: Items, from: int, to: int) {
    && after.Keys <= before.Keys
    && (forall k :: k in after ==> after[k] == before[k])
    && (forall k :: k in before && Expired(before[k], from) ==> k !in after)
    && (forall k :: k in before && !Expired(before[k], to) ==> k in after)
  }

  /** What GetExpiration answers with clock readings from and to. */
  function Remaining(items: Items, k: Key, from: int, to: int): int {
    if Live(items, k, from) then Wrap64(items[k].expiration - to) else 0
  }

  /** The call of e, made on items before, answers as e says and leaves items after. */
  ghost predicate Step(maxItems: int, before: Items, e: Event, after: Items) {
    e.from <= e.to &&
    match e.call
    case Set(k, v, x) =>
      if k in before || HasRoom(before, maxItems)
      then after == before[k := Written(v, x, e.from)] && e.answer == Done
      else after == before && e.answer == Full
    case Add(k, v, x) =>
      if k in before then after == before && e.answer == Exists
      else if HasRoom(before, maxItems)
      then after == before[k := Written(v, x, e.from)] && e.answer == Done
      else after == before && e.answer == Full
    case Get(k) =>
      after == before && e.answer == if Live(before, k, e.from) then Found(before[k].value) else Missing
    case HasExpired(k) =>
      after == before && e.answer == Flag(!Live(before, k, e.from))
    case GetExpiration(k) =>
      after == before && e.answer == Duration(Remaining(before, k, e.from, e.to))
    case SetExpiration(k, x) =>
      after == before && e.answer == Done
    case Delete(k) =>
      after == before - {k} && e.answer == Done
    case Clear =>
      after == map[] && e.answer == Done
    case ItemCount =>
      after == before && e.answer == Count(|before|)
    case DeleteExpired =>
      Swept(before, after, e.from, e.to) && e.answer == Done
  }

  /** What SetExpiration is documented to do: the item of the key gets the new deadline. */
  function WithDeadline(items: Items, k: Key, deadline: int): Items {
    if k in items then items[k := items[k].(expiration := deadline)] else items
  }

  /** The two maps give the same answers to a Get of k at any time from now on. */
  ghost predicate SameGets(maxItems: int, items: Items, others: Items, k: Key, now: int) {
    forall t, answer :: t >= now ==>
      (Step(maxItems, items, Event(Get(k), t, t, answer), items) <==>
       Step(maxItems, others, Event(Get(k), t, t, answer), others))
  }

  /** Neither deadline, or both, have passed for good, or never will, or they are one. */
  predicate SameFrom(deadline: int, other: int, now: int) {
    || deadline == other
    || (deadline <= 0 && other <= 0)
    || (0 < deadline < now && 0 < other < now)
  }

  /**
   SetExpiration changes a copy of the item. Later Gets answer as documented exactly when the key is
   missing or the old and the new deadline make no difference any more: both never pass, both have
   passed already, or they are equal.
   */
  lemma SetExpirationKeepsItsPromise(maxItems: int, before: Items, k: Key, x: int, now: int, after: Items)
    requires Step(maxItems, before, Event(SetExpiration(k, x), now, now, Done), after)
    ensures SameGets(maxItems, after, WithDeadline(before, k, Wrap64(now + x)), k, now) <==>
            k !in before || SameFrom(before[k].expiration, Wrap64(now + x), now)
  {
    if k in before {
      var deadline, documented := Wrap64(now + x), WithDeadline(before, k, Wrap64(now + x));
      hide Wrap64;
      if !SameFrom(before[k].expiration, deadline, now) {
        var t := TellingTime(before[k].expiration, deadline, now);
        assert Expired(before[k], t) <==> !Expired(documented[k], t);
        var answer := if Live(after, k, t) then Found(after[k].value) else Missing;
        assert Step(maxItems, after, Event(Get(k), t, t, answer), after);
        assert !Step(maxItems, documented, Event(Get(k), t, t, answer), documented);
      }
    }
  }

  /** A time from now on at which one of two deadlines has passed and the other has not. */
  lemma TellingTime(deadline: int, other: int, now: int) returns (t: int)
    requires !SameFrom(deadline, other, now)
    ensures t >= now && (0 < deadline < t <==> !(0 < other < t))
  {
    var first, last := if deadline < other then deadline else other, if deadline < other then other else deadline;
    t := if first >= now && first > 0 then first + 1
         else if first > 0 || last < now then now
         else last + 1;
  }

  /**
   The lifetime of a written item, for 64-bit times: forever for a non-positive expiration and for
   a deadline beyond 64 bits, else up to and including the deadline.
   */
  lemma WrittenLifetime(value: Value, expiration: int, now: int, t: int)
    requires 0 < now < 0x8000_0000_0000_0000 && expiration < 0x8000_0000_0000_0000
    ensures !Expired(Written(value, expiration, now), t) <==>
            expiration <= 0 || now + expiration >= 0x8000_0000_0000_0000 || t <= now + expiration
    ensures Written(value, expiration, now).value == value
  {
  }

  /**
   What GetExpiration answers. It is documented to be zero for a missing or expired item, and is; but
   it is zero at the very deadline too, and negative for an item that never expires, or that expires
   between the two clock readings. Only for a wrapped deadline the subtraction wraps back.
   */
  lemma RemainingMeaning(items: Items, k: Key, from: int, to: int)
    requires 0 < from <= to < 0x8000_0000_0000_0000
    requires k in items ==> -0x8000_0000_0000_0000 <= items[k].expiration < 0x8000_0000_0000_0000
    ensures Remaining(items, k, from, to) == 0 <==> !Live(items, k, from) || items[k].expiration == to
    ensures Live(items, k, from) ==>
              var wraps := items[k].expiration < to - 0x8000_0000_0000_0000;
              Remaining(items, k, from, to) ==
              items[k].expiration - to + if wraps then 0x1_0000_0000_0000_0000 else 0
    ensures Remaining(items, k, from, to) < 0 <==>
            Live(items, k, from) && to - 0x8000_0000_0000_0000 <= items[k].expiration < to
  {
  }

  /**
   For an item as written: minus the clock without a deadline; else the time to the deadline asked
   for, even when that is beyond 64 bits and the stored one is negative, until it has passed.
   */
  lemma RemainingOfWritten(items: Items, k: Key, value: Value, expiration: int, now: int, from: int, to: int)
    requires 0 < now <= from <= to < 0x8000_0000_0000_0000 && expiration < 0x8000_0000_0000_0000
    requires k in items && items[k] == Written(value, expiration, now)
    ensures Remaining(items, k, from, to) ==
            if expiration <= 0 then -to
            else if from <= now + expiration then now + expiration - to
            else 0
  {
    hide Wrap64;
    var sum := now + expiration;
    WrapSmall(-to);
    WrapSmall(sum - to);
    if expiration > 0 {
      if sum < 0x8000_0000_0000_0000 {
        WrapSmall(sum);
      } else {
        WrapLarge(sum);
        WrapLarge(sum - to);
      }
    }
  }

  lemma WrapSmall(x: int)
    ensures -0x8000_0000_0000_0000 <= x < 0x8000_0000_0000_0000 ==> Wrap64(x) == x
  {
  }

  lemma WrapLarge(x: int)
    ensures Wrap64(x - 0x1_0000_0000_0000_0000) == Wrap64(x)
    ensures 0x8000_0000_0000_0000 <= x < 0x1_8000_0000_0000_0000 ==> Wrap64(x) == x - 0x1_0000_0000_0000_0000
  {
  }
}
