/**
 * One key/value tier with expiry, keys in insertion order. An expired entry is deleted when an operation meets it, and
 * not before.
 */
module MemoryTier {
  import opened Options

  datatype Entry = Entry(value: string, expiresAt: Option<int>)

  /** A JavaScript Map: its entries, and its keys in the order of their insertion. */
  datatype Data = Data(entries: map<string, Entry>, order: seq<string>)

  const EMPTY: Data := Data(map[], [])

  /** `String(n)` and `Number(s)` on the values `incr` handles. */
  datatype Numerals = Numerals(show: int -> string, parse: string -> Option<int>)

  predicate Expired(e: Entry, now: int) {
    e.expiresAt.Some? && e.expiresAt.value <= now
  }

  // Insertion order

  predicate Distinct<K(==)>(order: seq<K>) {
    forall i, j :: 0 <= i < j < |order| ==> order[i] != order[j]
  }

  predicate WellFormed(d: Data) {
    && Distinct(d.order)
    && (forall k :: k in d.order ==> k in d.entries)
    && (forall k :: k in d.entries ==> k in d.order)
  }

  /** The keys of a set, in order. */
  function Restrict<K(==)>(order: seq<K>, keys: set<K>): seq<K> {
    if order == [] then []
    else (if order[0] in keys then [order[0]] else []) + Restrict(order[1..], keys)
  }

  /** `Map.set`: a key that is present keeps its place, a new one goes to the end. */
  function Put(d: Data, key: string, e: Entry): Data {
    Data(d.entries[key := e], if key in d.entries then d.order else d.order + [key])
  }

  /** `Map.delete` */
  function Drop(d: Data, key: string): Data {
    Data(d.entries - {key}, Restrict(d.order, d.entries.Keys - {key}))
  }

  lemma {:induction false} RestrictHas<K>(order: seq<K>, keys: set<K>)
    ensures forall k :: k in Restrict(order, keys) <==> k in order && k in keys
    ensures Distinct(order) ==> Distinct(Restrict(order, keys))
  {
    if order != [] {
      RestrictHas(order[1..], keys);
      assert order == [order[0]] + order[1..];
      if Distinct(order) {
        assert order[0] !in order[1..];
      }
    }
  }

  lemma {:induction false} RestrictTwice<K>(order: seq<K>, some: set<K>, fewer: set<K>)
    ensures Restrict(Restrict(order, some), fewer) == Restrict(order, some * fewer)
  {
    if order != [] {
      RestrictTwice(order[1..], some, fewer);
      var rest := Restrict(order[1..], some);
      if order[0] in some {
        assert ([order[0]] + rest)[1..] == rest;
      } else {
        assert [] + rest == rest;
      }
    }
  }

  lemma {:induction false} RestrictAppends<K>(order: seq<K>, more: seq<K>, keys: set<K>)
    ensures Restrict(order + more, keys) == Restrict(order, keys) + Restrict(more, keys)
  {
    if order == [] {
      assert order + more == more;
    } else {
      RestrictAppends(order[1..], more, keys);
      assert (order + more)[1..] == order[1..] + more;
    }
  }

  lemma {:induction false} RestrictAll<K>(order: seq<K>, keys: set<K>)
    requires forall k :: k in order ==> k in keys
    ensures Restrict(order, keys) == order
  {
    if order != [] {
      assert order[0] in order;
      assert forall k :: k in order[1..] ==> k in order;
      RestrictAll(order[1..], keys);
    }
  }

  /** Only membership of the keys that occur matters. */
  lemma {:induction false} RestrictSame<K>(order: seq<K>, a: set<K>, b: set<K>)
    requires forall k :: k in order ==> (k in a <==> k in b)
    ensures Restrict(order, a) == Restrict(order, b)
  {
    if order != [] {
      assert order[0] in order;
      assert forall k :: k in order[1..] ==> k in order;
      RestrictSame(order[1..], a, b);
    }
  }

  lemma PutKeepsForm(d: Data, key: string, e: Entry)
    requires WellFormed(d)
    ensures WellFormed(Put(d, key, e))
  {
  }

  lemma DropKeepsForm(d: Data, key: string)
    requires WellFormed(d)
    ensures WellFormed(Drop(d, key))
  {
    RestrictHas(d.order, d.entries.Keys - {key});
  }

  // Requests and answers. Each request carries the clock reading of its moment.

  datatype Request =
    | Get(key: string)
    | Set(key: string, value: string, ttlMs: Option<int>)
    | Del(key: string)
    | Incr(key: string, delta: int)
    | Expire(key: string, forMs: int)
    | Ttl(key: string)
    | Keys(matches: string -> bool)
    | Flush

  datatype Answer =
    | Nothing
    | Text(text: Option<string>)
    | Flag(flag: bool)
    | Number(number: int)
    | NotAnInteger
    | Names(keys: seq<string>)

  function ExpiryOf(ttlMs: Option<int>, now: int): Option<int> {
    if ttlMs.Some? && ttlMs.value > 0 then Some(now + ttlMs.value) else None
  }

  class Tier {
    const numerals: Numerals
    var entries: map<string, Entry>
    var order: seq<string>

    ghost function Current(): Data
      reads this
    {
      Data(entries, order)
    }

    ghost predicate Valid()
      reads this
    {
      WellFormed(Current())
    }

    constructor (numerals: Numerals)
      ensures Valid() && Current() == EMPTY && this.numerals == numerals
    {
      this.numerals := numerals;
      entries, order := map[], [];
    }

    method Store(key: string, e: Entry)
      requires Valid()
      modifies this
      ensures Valid() && Current() == Put(old(Current()), key, e)
    {
      PutKeepsForm(Current(), key, e);
      if key !in entries {
        order := order + [key];
      }
      entries := entries[key := e];
    }

    method Erase(key: string)
      requires Valid()
      modifies this
      ensures Valid() && Current() == Drop(old(Current()), key)
    {
      DropKeepsForm(Current(), key);
      order := Restrict(order, entries.Keys - {key});
      entries := entries - {key};
    }

    /** `live`: the entry if it has not expired; an expired one is deleted on the way. */
    method Live(key: string, now: int) returns (entry: Option<Entry>)
      requires Valid()
      modifies this
      ensures Valid() && Current() == Touched(old(Current()), key, now) && entry == Find(Current(), key)
    {
      if key !in entries {
        return None;
      }
      if Expired(entries[key], now) {
        Erase(key);
        return None;
      }
      return Some(entries[key]);
    }

    method Get(key: string, now: int) returns (value: Option<string>)
      requires Valid()
      modifies this
      ensures Valid() && (Current(), Text(value)) == Lazy(numerals, old(Current()), Request.Get(key), now)
    {
      var entry := Live(key, now);
      value := if entry.Some? then Some(entry.value.value) else None;
    }

    method Set(key: string, value: string, ttlMs: Option<int>, now: int)
      requires Valid()
      modifies this
      ensures Valid() && (Current(), Nothing) == Lazy(numerals, old(Current()), Request.Set(key, value, ttlMs), now)
    {
      var entry := Entry(value, None);
      if ttlMs.Some? && ttlMs.value > 0 {
        entry := entry.(expiresAt := Some(now + ttlMs.value));
      }
      Store(key, entry);
    }

    method Del(key: string, now: int) returns (deleted: bool)
      requires Valid()
      modifies this
      ensures Valid() && (Current(), Flag(deleted)) == Lazy(numerals, old(Current()), Request.Del(key), now)
    {
      deleted := key in entries;
      Erase(key);
    }

    method Incr(key: string, delta: int, now: int) returns (next: Option<int>)
      requires Valid()
      modifies this
      ensures Valid()
      ensures (Current(), if next.Some? then Number(next.value) else NotAnInteger)
           == Lazy(numerals, old(Current()), Request.Incr(key, delta), now)
    {
      var current := Live(key, now);
      var base := if current.Some? then numerals.parse(current.value.value) else Some(0);
      if base.None? {
        return None;
      }
      next := Some(base.value + delta);
      Store(key, Entry(numerals.show(next.value), if current.Some? then current.value.expiresAt else None));
    }

    method Expire(key: string, ttlMs: int, now: int) returns (found: bool)
      requires Valid()
      modifies this
      ensures Valid() && (Current(), Flag(found)) == Lazy(numerals, old(Current()), Request.Expire(key, ttlMs), now)
    {
      var entry := Live(key, now);
      found := entry.Some?;
      if found {
        Store(key, entry.value.(expiresAt := Some(now + ttlMs)));
      }
    }

    method Ttl(key: string, now: int) returns (ms: int)
      requires Valid()
      modifies this
      ensures Valid() && (Current(), Number(ms)) == Lazy(numerals, old(Current()), Request.Ttl(key), now)
    {
      var entry := Live(key, now);
      if entry.None? {
        return -2;
      }
      if entry.value.expiresAt.None? {
        return -1;
      }
      var left := entry.value.expiresAt.value - now;
      ms := if left > 0 then left else 0;
    }

    /** `keys`: visit every stored key, deleting the expired ones and collecting the live ones that match. */
    method Keys(matches: string -> bool, now: int) returns (out: seq<string>)
      requires Valid()
      modifies this
      ensures Valid() && (Current(), Names(out)) == Lazy(numerals, old(Current()), Request.Keys(matches), now)
    {
      hide WellFormed, Touched, Swept, LiveKeys, MatchingKeys;
      ghost var was := Current();
      var names := order;
      out := [];
      for i := 0 to |names|
        invariant Valid() && Current() == TouchedAll(was, names[..i], now)
        invariant out == Restrict(names[..i], MatchingKeys(was.entries, now, matches))
      {
        assert names[..i + 1] == names[..i] + [names[i]];
        TouchedSnoc(was, names[..i], names[i], now);
        RestrictAppends(names[..i], [names[i]], MatchingKeys(was.entries, now, matches));
        NextKey(was, i, now, matches);
        var entry := Live(names[i], now);
        if entry.Some? && matches(names[i]) {
          out := out + [names[i]];
        }
      }
      assert names[..|names|] == names;
      TouchedAllIsSwept(was, now);
    }

    method Flush(now: int)
      requires Valid()
      modifies this
      ensures Valid() && (Current(), Nothing) == Lazy(numerals, old(Current()), Request.Flush, now)
    {
      entries, order := map[], [];
    }
  }

  // The lazy store as a function

  function Find(d: Data, key: string): Option<Entry> {
    if key in d.entries then Some(d.entries[key]) else None
  }

  function Touched(d: Data, key: string, now: int): Data {
    if key in d.entries && Expired(d.entries[key], now) then Drop(d, key) else d
  }

  function LiveKeys(entries: map<string, Entry>, now: int): set<string> {
    set k | k in entries && !Expired(entries[k], now)
  }

  function MatchingKeys(entries: map<string, Entry>, now: int, matches: string -> bool): set<string> {
    set k | k in entries && !Expired(entries[k], now) && matches(k)
  }

  /** The entries still alive at a moment. */
  function Alive(entries: map<string, Entry>, now: int): map<string, Entry> {
    map k | k in entries && !Expired(entries[k], now) :: entries[k]
  }

  function Swept(d: Data, now: int): Data {
    Data(Alive(d.entries, now), Restrict(d.order, LiveKeys(d.entries, now)))
  }

  function Lazy(n: Numerals, d: Data, r: Request, now: int): (Data, Answer) {
    match r
    case Get(key) =>
      var t := Touched(d, key, now);
      (t, Text(if key in t.entries then Some(t.entries[key].value) else None))
    case Set(key, value, ttlMs) => (Put(d, key, Entry(value, ExpiryOf(ttlMs, now))), Nothing)
    case Del(key) => (Drop(d, key), Flag(key in d.entries))
    case Incr(key, delta) =>
      var t := Touched(d, key, now);
      var base := if key in t.entries then n.parse(t.entries[key].value) else Some(0);
      if base.None? then (t, NotAnInteger)
      else
        (Put(t, key, Entry(n.show(base.value + delta), if key in t.entries then t.entries[key].expiresAt else None)),
         Number(base.value + delta))
    case Expire(key, ttlMs) =>
      var t := Touched(d, key, now);
      if key in t.entries then (Put(t, key, t.entries[key].(expiresAt := Some(now + ttlMs))), Flag(true))
      else (t, Flag(false))
    case Ttl(key) =>
      var t := Touched(d, key, now);
      (t, Number(if key !in t.entries then -2
                 else if t.entries[key].expiresAt.None? then -1
                 else if t.entries[key].expiresAt.value > now then t.entries[key].expiresAt.value - now else 0))
    case Keys(matches) => (Swept(d, now), Names(Restrict(d.order, MatchingKeys(d.entries, now, matches))))
    case Flush => (EMPTY, Nothing)
  }

  // The loop of `keys`

  function TouchedAll(d: Data, names: seq<string>, now: int): Data
    decreases |names|
  {
    if names == [] then d else TouchedAll(Touched(d, names[0], now), names[1..], now)
  }

  lemma {:induction false} TouchedSnoc(d: Data, names: seq<string>, last: string, now: int)
    ensures TouchedAll(d, names + [last], now) == Touched(TouchedAll(d, names, now), last, now)
    decreases |names|
  {
    if names == [] {
      assert names + [last] == [last];
      assert TouchedAll(d, [last], now) == TouchedAll(Touched(d, last, now), [], now);
    } else {
      TouchedSnoc(Touched(d, names[0], now), names[1..], last, now);
      assert (names + [last])[1..] == names[1..] + [last];
    }
  }

  /** What is left of a store when only some of its keys are. */
  function Keep(d: Data, keys: set<string>): Data {
    Data(map k | k in d.entries && k in keys :: d.entries[k], Restrict(d.order, keys))
  }

  lemma KeepTwice(d: Data, some: set<string>, fewer: set<string>)
    ensures Keep(Keep(d, some), fewer) == Keep(d, some * fewer)
  {
    RestrictTwice(d.order, some, fewer);
  }

  /** The keys that touching `names` leaves. */
  function Untouched(d: Data, names: seq<string>, now: int): set<string> {
    set k | k in d.entries && !(k in names && Expired(d.entries[k], now))
  }

  lemma TouchedIs(d: Data, key: string, now: int)
    requires WellFormed(d)
    ensures Touched(d, key, now) == Keep(d, Untouched(d, [key], now)) && WellFormed(Touched(d, key, now))
  {
    hide WellFormed;
    if key in d.entries && Expired(d.entries[key], now) {
      DropKeepsForm(d, key);
      DropIs(d, key);
      assert Untouched(d, [key], now) == d.entries.Keys - {key};
    } else {
      assert Untouched(d, [key], now) == d.entries.Keys;
      KeepAll(d);
    }
  }

  lemma DropIs(d: Data, key: string)
    ensures Drop(d, key) == Keep(d, d.entries.Keys - {key})
  {
    assert d.entries - {key} == map k | k in d.entries && k in d.entries.Keys - {key} :: d.entries[k];
  }

  lemma KeepAll(d: Data)
    requires WellFormed(d)
    ensures Keep(d, d.entries.Keys) == d
  {
    RestrictAll(d.order, d.entries.Keys);
    assert d.entries == map k | k in d.entries && k in d.entries.Keys :: d.entries[k];
  }

  lemma UntouchedTwice(d: Data, names: seq<string>, now: int)
    requires names != []
    ensures var first := Untouched(d, [names[0]], now);
            first * Untouched(Keep(d, first), names[1..], now) == Untouched(d, names, now)
  {
    assert names == [names[0]] + names[1..];
  }

  /** Touching some keys removes the expired ones among them, and nothing else. */
  lemma {:induction false} TouchedAllIs(d: Data, names: seq<string>, now: int)
    requires WellFormed(d)
    ensures TouchedAll(d, names, now) == Keep(d, Untouched(d, names, now))
    decreases |names|
  {
    hide WellFormed, Touched, Untouched, Keep;
    if names == [] {
      NothingTouched(d, now);
    } else {
      TouchedIs(d, names[0], now);
      var first := Untouched(d, [names[0]], now);
      TouchedAllIs(Touched(d, names[0], now), names[1..], now);
      KeepTwice(d, first, Untouched(Keep(d, first), names[1..], now));
      UntouchedTwice(d, names, now);
    }
  }

  lemma NothingTouched(d: Data, now: int)
    requires WellFormed(d)
    ensures Keep(d, Untouched(d, [], now)) == d
  {
    assert Untouched(d, [], now) == d.entries.Keys;
    KeepAll(d);
  }

  lemma TouchedAllIsSwept(d: Data, now: int)
    requires WellFormed(d)
    ensures TouchedAll(d, d.order, now) == Swept(d, now)
  {
    TouchedAllIs(d, d.order, now);
    assert Untouched(d, d.order, now) == LiveKeys(d.entries, now);
  }

  /** When the loop comes to a key, it is stored as it was at the start. */
  lemma NextKey(d: Data, i: nat, now: int, matches: string -> bool)
    requires WellFormed(d) && i < |d.order|
    ensures var key, t := d.order[i], TouchedAll(d, d.order[..i], now);
            && key in d.entries && Find(t, key) == Some(d.entries[key])
            && (key in MatchingKeys(d.entries, now, matches) <==> !Expired(d.entries[key], now) && matches(key))
            && (Find(Touched(t, key, now), key) == if Expired(d.entries[key], now) then None else Find(t, key))
  {
    TouchedAllIs(d, d.order[..i], now);
    assert d.order[i] in d.order && d.order[i] !in d.order[..i];
  }

  /** `ttl` tells of exactly the keys `get` finds, which are those alive. */
  lemma TtlMatchesGet(n: Numerals, d: Data, key: string, now: int)
    ensures Lazy(n, d, Ttl(key), now).1 == Number(-2) <==> Lazy(n, d, Get(key), now).1 == Text(None)
    ensures Lazy(n, d, Get(key), now).1 == Text(None) <==> key !in Alive(d.entries, now)
  {
    hide Restrict;
  }

  /** Incrementing keeps the expiry of a living entry, and starts a missing or expired one afresh without any. */
  lemma IncrKeepsExpiry(n: Numerals, d: Data, key: string, delta: int, now: int)
    requires Lazy(n, d, Incr(key, delta), now).1.Number?
    ensures var after := Lazy(n, d, Incr(key, delta), now).0.entries;
            && key in after
            && after[key].expiresAt == (if key in Alive(d.entries, now) then d.entries[key].expiresAt else None)
  {
    hide Restrict;
  }
}
