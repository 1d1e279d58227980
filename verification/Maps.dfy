/** The bounded u64-to-u64 maps that programs and host share. */
module Maps {
  import opened Words

  /** A map's value: its entries and its capacity. */
  datatype MapState = MapState(entries: map<u64, u64>, maxEntries: int)

  function U64(x: int): u64 { x % TWO64 }

  lemma U64Small(x: int)
    requires 0 <= x < TWO64
    ensures U64(x) == x
  {
  }

  function GetOr0(m: MapState, key: u64): u64 {
    if key in m.entries then m.entries[key] else 0
  }

  /** A new key is refused once the map is full; a present key can always be written. */
  predicate Refuses(m: MapState, key: u64) {
    key !in m.entries && |m.entries| >= m.maxEntries
  }

  function Put(m: MapState, key: u64, value: int): MapState {
    if Refuses(m, key) then m else m.(entries := m.entries[key := U64(value)])
  }

  function Plus(m: MapState, key: u64, delta: int): MapState {
    Put(m, key, GetOr0(m, key) + delta)
  }

  class EbpfMap {
    const maxEntries: int
    var data: map<u64, u64>

    ghost function Value(): MapState
      reads this
    {
      MapState(data, maxEntries)
    }

    constructor (maxEntries: int)
      ensures Value() == MapState(map[], maxEntries)
    {
      this.maxEntries := maxEntries;
      data := map[];
    }

    method Get(key: int) returns (value: u64, found: bool)
      ensures found <==> key % TWO64 in data
      ensures value == (if found then data[key % TWO64] else 0) == GetOr0(Value(), U64(key))
    {
      var k := U64(key);
      found := k in data;
      value := if found then data[k] else 0;
    }

    method Set(key: int, value: int) returns (ok: bool)
      modifies this
      ensures ok <==> key % TWO64 in old(data) || |old(data)| < maxEntries
      ensures data == if ok then old(data)[key % TWO64 := value % TWO64] else old(data)
      ensures ok == !Refuses(old(Value()), U64(key))
      ensures Value() == Put(old(Value()), U64(key), value)
    {
      var k := U64(key);
      if k !in data && |data| >= maxEntries {
        return false;
      }
      data := data[k := U64(value)];
      return true;
    }

    method Add(key: int, delta: int) returns (ok: bool)
      modifies this
      ensures ok <==> key % TWO64 in old(data) || |old(data)| < maxEntries
      ensures var held := if key % TWO64 in old(data) then old(data)[key % TWO64] else 0;
              data == if ok then old(data)[key % TWO64 := (held + delta) % TWO64] else old(data)
      ensures ok == !Refuses(old(Value()), U64(key))
      ensures Value() == Plus(old(Value()), U64(key), delta)
    {
      var k := U64(key);
      if k !in data && |data| >= maxEntries {
        return false;
      }
      var current := if k in data then data[k] else 0;
      data := data[k := U64(current + delta)];
      return true;
    }

    method Delete(key: int) returns (present: bool)
      modifies this
      ensures present <==> U64(key) in old(data)
      ensures Value() == old(Value()).(entries := old(data) - {U64(key)})
    {
      present := U64(key) in data;
      data := data - {U64(key)};
    }
  }

  // Counting with Add

  function Count<T(==)>(history: seq<T>, x: T): nat {
    if history == [] then 0 else (if history[0] == x then 1 else 0) + Count(history[1..], x)
  }

  /** A map after one `add(key, 1)` per element of the history. */
  function Tally(m: MapState, history: seq<u64>): MapState
    decreases |history|
  {
    if history == [] then m else Tally(Plus(m, history[0], 1), history[1..])
  }

  /**
   * A counted key holds its exact number of occurrences modulo 2^64; a key that occurred but is not counted was turned
   * away by a full map. Keys already present keep counting on top of what they held.
   */
  lemma {:induction false} TallyCounts(m: MapState, history: seq<u64>, key: u64)
    ensures var t := Tally(m, history);
            key in t.entries ==> t.entries[key] == U64(GetOr0(m, key) + Count(history, key))
    ensures var t := Tally(m, history);
            key !in t.entries && key in history ==> |t.entries| >= t.maxEntries
    ensures key in m.entries ==> key in Tally(m, history).entries
    decreases |history|
  {
    hide Put, Plus, U64;
    if history == [] {
      U64Small(GetOr0(m, key));
    } else if Refuses(m, key) {
      FullStaysFull(m, history, key);
    } else {
      PlusOne(m, history[0], key);
      TallyCounts(Plus(m, history[0], 1), history[1..], key);
      U64Adds(GetOr0(m, key) + (if history[0] == key then 1 else 0), Count(history[1..], key));
    }
  }

  lemma U64Adds(a: int, b: int)
    ensures U64(U64(a) + b) == U64(a + b)
  {
  }

  lemma PlusOne(m: MapState, added: u64, key: u64)
    requires !Refuses(m, key)
    ensures var m1 := Plus(m, added, 1);
            && GetOr0(m1, key) == U64(GetOr0(m, key) + if added == key then 1 else 0)
            && (added == key || key in m.entries ==> key in m1.entries)
  {
  }

  lemma {:induction false} FullStaysFull(m: MapState, history: seq<u64>, key: u64)
    requires key !in m.entries && |m.entries| >= m.maxEntries
    ensures var t := Tally(m, history);
            key !in t.entries && |t.entries| >= t.maxEntries
    decreases |history|
  {
    if history == [] {
    } else {
      FullStaysFull(Plus(m, history[0], 1), history[1..], key);
    }
  }
}
