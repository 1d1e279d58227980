/**
 * The tier beside a store that drops every entry the moment it expires. Clients can tell them apart in two ways, stated
 * exactly below: by the boolean of `del`, and by the order of `keys` once an expired key was set again in its old
 * place.
 */
module EagerTier {
  import opened Options
  import opened MemoryTier

  // The reference store: no expired entry is ever in it

  /** Operations of a store without expiry of its own: plain map operations on the living entries. */
  function Plain(n: Numerals, live: Data, r: Request, now: int): (Data, Answer) {
    match r
    case Get(key) => (live, Text(if key in live.entries then Some(live.entries[key].value) else None))
    case Set(key, value, ttlMs) => (Put(live, key, Entry(value, ExpiryOf(ttlMs, now))), Nothing)
    case Del(key) => (Drop(live, key), Flag(key in live.entries))
    case Incr(key, delta) =>
      if key !in live.entries then (Put(live, key, Entry(n.show(delta), None)), Number(delta))
      else
        (match n.parse(live.entries[key].value)
         case None => (live, NotAnInteger)
         case Some(b) => (Put(live, key, live.entries[key].(value := n.show(b + delta))), Number(b + delta)))
    case Expire(key, ttlMs) =>
      if key in live.entries then (Put(live, key, live.entries[key].(expiresAt := Some(now + ttlMs))), Flag(true))
      else (live, Flag(false))
    case Ttl(key) =>
      (live, Number(if key !in live.entries then -2
                    else if live.entries[key].expiresAt.None? then -1
                    else live.entries[key].expiresAt.value - now))
    case Keys(matches) => (live, Names(Restrict(live.order, set k | k in live.entries && matches(k))))
    case Flush => (EMPTY, Nothing)
  }

  /** At each moment first drop what has expired, then operate, then drop what the operation itself made expire. */
  function Eager(n: Numerals, live: Data, r: Request, now: int): (Data, Answer) {
    var (after, answer) := Plain(n, Swept(live, now), r, now);
    (Swept(after, now), answer)
  }

  // Entries

  lemma AliveTwice(m: map<string, Entry>, t: int, u: int)
    requires t <= u
    ensures Alive(Alive(m, t), u) == Alive(m, u)
  {
  }

  lemma EntriesFollow(n: Numerals, d: Data, live: Data, r: Request, now: int)
    requires Alive(live.entries, now) == Alive(d.entries, now)
    ensures Alive(Lazy(n, d, r, now).0.entries, now) == Eager(n, live, r, now).0.entries
  {
    if r.Incr? {
      CountsFollow(n, d, live, r.key, r.delta, now);
    } else {
      OthersFollow(n, d, live, r, now);
    }
  }

  lemma CountsFollow(n: Numerals, d: Data, live: Data, key: string, delta: int, now: int)
    requires Alive(live.entries, now) == Alive(d.entries, now)
    ensures Alive(Lazy(n, d, Incr(key, delta), now).0.entries, now) == Eager(n, live, Incr(key, delta), now).0.entries
  {
    hide Restrict;
  }

  lemma OthersFollow(n: Numerals, d: Data, live: Data, r: Request, now: int)
    requires Alive(live.entries, now) == Alive(d.entries, now) && !r.Incr?
    ensures Alive(Lazy(n, d, r, now).0.entries, now) == Eager(n, live, r, now).0.entries
  {
    hide Restrict;
  }

  /** `del` reports an expired entry it finds as deleted. */
  predicate DeletesExpired(d: Data, r: Request, now: int) {
    r.Del? && r.key in d.entries && Expired(d.entries[r.key], now)
  }

  lemma AnswersAgree(n: Numerals, d: Data, live: Data, r: Request, now: int)
    requires Alive(live.entries, now) == Alive(d.entries, now) && !r.Keys?
    ensures Lazy(n, d, r, now).1 == Eager(n, live, r, now).1 <==> !DeletesExpired(d, r, now)
  {
    hide Restrict;
  }

  // Order. The ledger says at which request a key last came to life.

  type Ledger = map<string, nat>

  /** The request gives a key a new life: it sets or counts up one that is not alive. */
  predicate BringsToLife(d: Data, r: Request, now: int) {
    (r.Set? || r.Incr?) && r.key !in LiveKeys(d.entries, now)
  }

  function Noted(d: Data, ledger: Ledger, r: Request, now: int, at: nat): Ledger {
    if BringsToLife(d, r, now) then ledger[r.key := at] else ledger
  }

  /** The keys stand in the order in which they came to life. */
  predicate ByAge<K(==)>(order: seq<K>, ledger: map<K, nat>) {
    && (forall k :: k in order ==> k in ledger)
    && (forall i, j :: 0 <= i < j < |order| ==> ledger[order[i]] < ledger[order[j]])
  }

  ghost predicate Before(order: seq<string>, ledger: Ledger, at: nat) {
    forall k :: k in order ==> k in ledger && ledger[k] < at
  }

  lemma {:induction false} RestrictByAge<K>(order: seq<K>, keys: set<K>, ledger: map<K, nat>)
    requires ByAge(order, ledger)
    ensures ByAge(Restrict(order, keys), ledger)
  {
    if order != [] {
      assert order == [order[0]] + order[1..];
      assert ByAge(order[1..], ledger);
      RestrictByAge(order[1..], keys, ledger);
      RestrictHas(order[1..], keys);
      var rest := Restrict(order[1..], keys);
      forall k | k in rest
        ensures k in ledger && ledger[order[0]] < ledger[k]
      {
        var i :| 0 <= i < |order[1..]| && order[1..][i] == k;
        assert order[i + 1] == k;
      }
    }
  }

  /** Two lists of the same keys, both by age, are the same list. */
  lemma {:induction false} OneOrder<K>(a: seq<K>, b: seq<K>, ledger: map<K, nat>)
    requires ByAge(a, ledger) && ByAge(b, ledger)
    requires forall k :: k in a <==> k in b
    ensures a == b
    decreases |a|
  {
    if a == [] {
      assert forall i :: 0 <= i < |b| ==> b[i] in b;
    } else {
      assert a[0] in b;
      assert b[0] in a;
      var i :| 0 <= i < |b| && b[i] == a[0];
      var j :| 0 <= j < |a| && a[j] == b[0];
      assert i == 0 && j == 0;
      forall k
        ensures k in a[1..] <==> k in b[1..]
      {
        if k in a[1..] {
          var m :| 0 <= m < |a[1..]| && a[1..][m] == k;
          assert a[m + 1] == k && k in a && k in b && k != a[0];
          assert k in b[1..];
        }
        if k in b[1..] {
          var m :| 0 <= m < |b[1..]| && b[1..][m] == k;
          assert b[m + 1] == k && k in b && k in a && k != b[0];
          assert k in a[1..];
        }
      }
      OneOrder(a[1..], b[1..], ledger);
    }
  }

  /** A store whose keys stand by age, all born before request `at`. */
  ghost predicate Aged(d: Data, ledger: Ledger, at: nat) {
    WellFormed(d) && ByAge(d.order, ledger) && Before(d.order, ledger, at)
  }

  lemma PutAged(d: Data, key: string, e: Entry, ledger: Ledger, at: nat)
    requires Aged(d, ledger, at)
    ensures Aged(Put(d, key, e), if key in d.entries then ledger else ledger[key := at], at + 1)
  {
    PutKeepsForm(d, key, e);
  }

  lemma DropAged(d: Data, key: string, ledger: Ledger, at: nat)
    requires Aged(d, ledger, at)
    ensures Aged(Drop(d, key), ledger, at + 1)
  {
    DropKeepsForm(d, key);
    RestrictHas(d.order, d.entries.Keys - {key});
    RestrictByAge(d.order, d.entries.Keys - {key}, ledger);
  }

  lemma SweptKeepsForm(d: Data, now: int)
    requires WellFormed(d)
    ensures WellFormed(Swept(d, now))
  {
    RestrictHas(d.order, LiveKeys(d.entries, now));
  }

  lemma SweptAged(d: Data, now: int, ledger: Ledger, at: nat)
    requires Aged(d, ledger, at)
    ensures Aged(Swept(d, now), ledger, at)
  {
    SweptKeepsForm(d, now);
    RestrictHas(d.order, LiveKeys(d.entries, now));
    RestrictByAge(d.order, LiveKeys(d.entries, now), ledger);
  }

  /** The reference store keeps its keys by age, as the ledger notes them. */
  lemma EagerStaysAged(n: Numerals, d: Data, live: Data, ledger: Ledger, r: Request, now: int, at: nat)
    requires Aged(live, ledger, at) && Alive(live.entries, now) == Alive(d.entries, now)
    ensures Aged(Eager(n, live, r, now).0, Noted(d, ledger, r, now, at), at + 1)
  {
    hide Aged, Restrict, Put, Drop, Swept;
    var s := Swept(live, now);
    SweptAged(live, now, ledger, at);
    PlainStaysAged(n, s, ledger, r, now, at);
    SameLife(d, live, r, now);
    SweptAged(Plain(n, s, r, now).0, now, Noted(d, ledger, r, now, at), at + 1);
  }

  lemma SameLife(d: Data, live: Data, r: Request, now: int)
    requires Alive(live.entries, now) == Alive(d.entries, now)
    ensures BringsToLife(d, r, now) <==> (r.Set? || r.Incr?) && r.key !in Swept(live, now).entries
  {
    hide Restrict;
    assert LiveKeys(d.entries, now) == Alive(d.entries, now).Keys;
  }

  lemma PlainStaysAged(n: Numerals, s: Data, ledger: Ledger, r: Request, now: int, at: nat)
    requires Aged(s, ledger, at)
    ensures Aged(Plain(n, s, r, now).0,
                 if (r.Set? || r.Incr?) && r.key !in s.entries then ledger[r.key := at] else ledger, at + 1)
  {
    hide Restrict, Put, Drop;
    match r {
      case Set(key, value, ttlMs) => PutAged(s, key, Entry(value, ExpiryOf(ttlMs, now)), ledger, at);
      case Del(key) => DropAged(s, key, ledger, at);
      case Incr(key, delta) =>
        if key !in s.entries {
          PutAged(s, key, Entry(n.show(delta), None), ledger, at);
        } else if n.parse(s.entries[key].value).Some? {
          PutAged(s, key, s.entries[key].(value := n.show(n.parse(s.entries[key].value).value + delta)), ledger, at);
        }
      case Expire(key, ttlMs) =>
        if key in s.entries {
          PutAged(s, key, s.entries[key].(expiresAt := Some(now + ttlMs)), ledger, at);
        }
      case _ =>
    }
  }

  // One request

  lemma LazyKeepsForm(n: Numerals, d: Data, r: Request, now: int)
    requires WellFormed(d)
    ensures WellFormed(Lazy(n, d, r, now).0)
  {
    hide WellFormed, Restrict;
    if !r.Keys? && !r.Flush? {
      DropKeepsForm(d, r.key);
      var t := Touched(d, r.key, now);
      forall e: Entry, x: Data | x == d || x == t
        ensures WellFormed(Put(x, r.key, e))
      {
        PutKeepsForm(x, r.key, e);
      }
    }
    SweptKeepsForm(d, now);
    assert WellFormed(EMPTY) by { EmptyIsWellFormed(); }
  }

  lemma EmptyIsWellFormed()
    ensures WellFormed(EMPTY)
  {
  }

  /**
   * Where the two part: `del` of an expired entry that is still stored, and `keys` when two living keys that match
   * stand in the store against the order in which they came to life. A client that remembers its requests can tell.
   */
  predicate Parts(d: Data, ledger: Ledger, r: Request, now: int) {
    || DeletesExpired(d, r, now)
    || (r.Keys? && !ByAge(Restrict(d.order, MatchingKeys(d.entries, now, r.matches)), ledger))
  }

  lemma KeysAgree(d: Data, live: Data, ledger: Ledger, matches: string -> bool, now: int, at: nat)
    requires WellFormed(d) && Aged(live, ledger, at) && Alive(live.entries, now) == Alive(d.entries, now)
    ensures var s := Swept(live, now);
            var mine := Restrict(d.order, MatchingKeys(d.entries, now, matches));
            mine == Restrict(s.order, set k | k in s.entries && matches(k)) <==> ByAge(mine, ledger)
  {
    hide Restrict;
    var s := Swept(live, now);
    var matching := MatchingKeys(d.entries, now, matches);
    assert (set k | k in s.entries && matches(k)) == matching by {
      assert s.entries == Alive(d.entries, now);
    }
    var mine, theirs := Restrict(d.order, matching), Restrict(s.order, matching);
    SweptAged(live, now, ledger, at);
    RestrictHas(d.order, matching);
    RestrictHas(s.order, matching);
    RestrictByAge(s.order, matching, ledger);
    if ByAge(mine, ledger) {
      OneOrder(mine, theirs, ledger);
    }
  }

  /** One request: the same living entries after it, and the same answer exactly when the two do not part there. */
  lemma LazyStepIsEager(n: Numerals, d: Data, live: Data, ledger: Ledger, r: Request, now: int, at: nat)
    requires WellFormed(d) && Aged(live, ledger, at) && Alive(live.entries, now) == Alive(d.entries, now)
    ensures Alive(Lazy(n, d, r, now).0.entries, now) == Eager(n, live, r, now).0.entries
    ensures Lazy(n, d, r, now).1 == Eager(n, live, r, now).1 <==> !Parts(d, ledger, r, now)
  {
    hide Restrict, Aged, WellFormed;
    EntriesFollow(n, d, live, r, now);
    if r.Keys? {
      KeysAgree(d, live, ledger, r.matches, now, at);
    } else {
      AnswersAgree(n, d, live, r, now);
    }
  }

  // Whole sessions

  datatype Timed = Timed(at: int, request: Request)

  ghost predicate Monotone(session: seq<Timed>, from: int) {
    session == [] || (from <= session[0].at && Monotone(session[1..], session[0].at))
  }

  function LazyAnswers(n: Numerals, d: Data, session: seq<Timed>): seq<Answer>
    decreases |session|
  {
    if session == [] then []
    else
      var (after, answer) := Lazy(n, d, session[0].request, session[0].at);
      [answer] + LazyAnswers(n, after, session[1..])
  }

  function EagerAnswers(n: Numerals, live: Data, session: seq<Timed>): seq<Answer>
    decreases |session|
  {
    if session == [] then []
    else
      var (after, answer) := Eager(n, live, session[0].request, session[0].at);
      [answer] + EagerAnswers(n, after, session[1..])
  }

  /** For each request of a session, whether the two stores part there; `at` is the number of the first. */
  function Partings(n: Numerals, d: Data, ledger: Ledger, session: seq<Timed>, at: nat): (b: seq<bool>)
    ensures |b| == |session|
    decreases |session|
  {
    if session == [] then []
    else
      var r, now := session[0].request, session[0].at;
      [Parts(d, ledger, r, now)]
      + Partings(n, Lazy(n, d, r, now).0, Noted(d, ledger, r, now, at), session[1..], at + 1)
  }

  /**
   * Any session under a clock that does not go backwards: request by request, the two stores give the same answer if
   * and only if they do not part there.
   */
  lemma {:induction false} LazyRefinesEager(n: Numerals, d: Data, live: Data, ledger: Ledger, session: seq<Timed>,
                                            from: int, at: nat)
    requires Monotone(session, from) && Alive(live.entries, from) == Alive(d.entries, from)
    requires WellFormed(d) && Aged(live, ledger, at)
    ensures |LazyAnswers(n, d, session)| == |EagerAnswers(n, live, session)| == |session|
    ensures forall i :: 0 <= i < |session| ==>
              (LazyAnswers(n, d, session)[i] == EagerAnswers(n, live, session)[i]
               <==> !Partings(n, d, ledger, session, at)[i])
    decreases |session|
  {
    hide Lazy, Eager, Parts, Noted, Aged, WellFormed, Alive;
    if session != [] {
      var r, now := session[0].request, session[0].at;
      AliveTwice(live.entries, from, now);
      AliveTwice(d.entries, from, now);
      LazyStepIsEager(n, d, live, ledger, r, now, at);
      LazyKeepsForm(n, d, r, now);
      EagerStaysAged(n, d, live, ledger, r, now, at);
      var d', live' := Lazy(n, d, r, now).0, Eager(n, live, r, now).0;
      EagerIsAlive(n, live, r, now);
      LazyRefinesEager(n, d', live', Noted(d, ledger, r, now, at), session[1..], now, at + 1);
    }
  }

  lemma EagerIsAlive(n: Numerals, live: Data, r: Request, now: int)
    ensures var m := Eager(n, live, r, now).0.entries;
            Alive(m, now) == m
  {
    hide Restrict;
    AliveTwice(Plain(n, Swept(live, now), r, now).0.entries, now, now);
  }

  // How the order comes apart

  /** An expired entry is still stored, with a living one behind it. */
  predicate Displaces(d: Data, key: string, now: int) {
    && key in d.entries && Expired(d.entries[key], now)
    && exists i, j :: 0 <= i < j < |d.order| && d.order[i] == key && d.order[j] in LiveKeys(d.entries, now)
  }

  /** Setting a key keeps the two orders together if and only if it does not give such an entry a new life. */
  lemma SetInPlaceExactly(d: Data, key: string, e: Entry, now: int)
    requires WellFormed(d) && !Expired(e, now)
    ensures Swept(Put(d, key, e), now) == Put(Swept(d, now), key, e) <==> !Displaces(d, key, now)
  {
    hide Restrict;
    assert Alive(d.entries[key := e], now) == Alive(d.entries, now)[key := e];
    var living := LiveKeys(d.entries, now);
    assert LiveKeys(d.entries[key := e], now) == living + {key};
    if key !in d.entries {
      RestrictAppends(d.order, [key], living + {key});
      RestrictSame(d.order, living, living + {key});
      RestrictAll([key], living + {key});
    } else if key in living {
      assert living + {key} == living;
    } else {
      ExpiredInPlace(d, key, living);
      assert Displaces(d, key, now) <==> BeforeLiving(d.order, key, living);
    }
  }

  predicate BeforeLiving<K(==)>(order: seq<K>, key: K, living: set<K>) {
    exists i, j :: 0 <= i < j < |order| && order[i] == key && order[j] in living
  }

  lemma ExpiredInPlace(d: Data, key: string, living: set<string>)
    requires WellFormed(d) && key in d.entries && key !in living
    ensures Restrict(d.order, living + {key}) == Restrict(d.order, living) + [key]
            <==> !BeforeLiving(d.order, key, living)
  {
    hide Restrict;
    var i :| 0 <= i < |d.order| && d.order[i] == key;
    var pre, post := d.order[..i], d.order[i + 1..];
    assert d.order == pre + [key] + post;
    Revived(pre, key, post, living);
    BehindKey(pre, key, post, living);
  }

  lemma BehindKey<K>(pre: seq<K>, key: K, post: seq<K>, living: set<K>)
    requires key !in pre && key !in post
    ensures BeforeLiving(pre + [key] + post, key, living) <==> exists k :: k in post && k in living
  {
    var all, i := pre + [key] + post, |pre|;
    assert all[i] == key && forall j :: i < j < |all| ==> all[j] == post[j - i - 1];
    if BeforeLiving(all, key, living) {
      var a, b :| 0 <= a < b < |all| && all[a] == key && all[b] in living;
      assert a == i;
      assert post[b - i - 1] in post;
    }
    if k :| k in post && k in living {
      var j :| 0 <= j < |post| && post[j] == k;
      assert all[i + 1 + j] in living;
    }
  }

  /** In the one store the key is back in its place, in the other it goes to the end. */
  lemma Revived<K>(pre: seq<K>, key: K, post: seq<K>, living: set<K>)
    requires key !in pre && key !in post && key !in living
    ensures Restrict(pre + [key] + post, living + {key}) == Restrict(pre + [key] + post, living) + [key]
            <==> forall k :: k in post ==> k !in living
  {
    hide Restrict;
    var front, back := Restrict(pre, living), Restrict(post, living);
    Parted(pre, key, post, living);
    Parted(pre, key, post, living + {key});
    RestrictSame(pre, living, living + {key});
    RestrictSame(post, living, living + {key});
    RestrictOne(key, living);
    RestrictOne(key, living + {key});
    assert front + [] + back == front + back;
    RestrictHas(post, living);
    MovedToEnd(front, key, back);
    NoneIn(back, post, living);
  }

  lemma RestrictOne<K>(key: K, keys: set<K>)
    ensures Restrict([key], keys) == if key in keys then [key] else []
  {
  }

  lemma NoneIn<K>(back: seq<K>, post: seq<K>, living: set<K>)
    requires forall k :: k in back <==> k in post && k in living
    ensures back == [] <==> forall k :: k in post ==> k !in living
  {
    if back != [] {
      assert back[0] in back;
    }
  }

  lemma Parted<K>(pre: seq<K>, key: K, post: seq<K>, keys: set<K>)
    ensures Restrict(pre + [key] + post, keys) == Restrict(pre, keys) + Restrict([key], keys) + Restrict(post, keys)
  {
    RestrictAppends(pre + [key], post, keys);
    RestrictAppends(pre, [key], keys);
  }

  lemma MovedToEnd<K>(front: seq<K>, key: K, back: seq<K>)
    requires key !in back
    ensures front + [key] + back == front + back + [key] <==> back == []
  {
    if back != [] {
      assert (front + [key] + back)[|front|] == key && (front + back + [key])[|front|] == back[0];
    }
  }

  /** No request of a session deletes an expired entry, or sets one with a living entry behind it. */
  ghost predicate Quiet(n: Numerals, d: Data, session: seq<Timed>)
    decreases |session|
  {
    session == [] ||
    (var r, now := session[0].request, session[0].at;
     && !DeletesExpired(d, r, now) && !(r.Set? && Displaces(d, r.key, now))
     && Quiet(n, Lazy(n, d, r, now).0, session[1..]))
  }

  /** Then the two stores are the same, order and all, and give the same answers throughout. */
  lemma {:induction false} QuietSessionsAgree(n: Numerals, d: Data, live: Data, session: seq<Timed>, from: int)
    requires Monotone(session, from) && WellFormed(d) && WellFormed(live) && Swept(live, from) == Swept(d, from)
    requires Quiet(n, d, session)
    ensures LazyAnswers(n, d, session) == EagerAnswers(n, live, session)
    decreases |session|
  {
    hide Lazy, Eager, Swept, WellFormed, Displaces, DeletesExpired;
    if session != [] {
      var r, now := session[0].request, session[0].at;
      SweptTwice(d, from, now);
      SweptTwice(live, from, now);
      QuietStep(n, d, live, r, now);
      LazyKeepsForm(n, d, r, now);
      QuietSessionsAgree(n, Lazy(n, d, r, now).0, Eager(n, live, r, now).0, session[1..], now);
    }
  }

  lemma SweptTwice(d: Data, t: int, u: int)
    requires t <= u
    ensures Swept(Swept(d, t), u) == Swept(d, u)
  {
    AliveTwice(d.entries, t, u);
    RestrictTwice(d.order, LiveKeys(d.entries, t), LiveKeys(Alive(d.entries, t), u));
    assert LiveKeys(d.entries, t) * LiveKeys(Alive(d.entries, t), u) == LiveKeys(d.entries, u);
  }

  /** Putting commutes with sweeping, for a key that is alive or not stored. */
  lemma SweptPut(d: Data, key: string, e: Entry, now: int)
    requires WellFormed(d) && (key in d.entries ==> !Expired(d.entries[key], now))
    ensures Swept(Put(d, key, e), now) == Swept(Put(Swept(d, now), key, e), now)
  {
    hide Restrict;
    var s, living, after := Swept(d, now), LiveKeys(d.entries, now), LiveKeys(d.entries[key := e], now);
    assert Alive(d.entries[key := e], now) == Alive(s.entries[key := e], now);
    assert LiveKeys(s.entries[key := e], now) == after;
    RestrictTwice(d.order, living, after);
    if key in d.entries {
      assert living * after == after;
    } else {
      RestrictAppends(d.order, [key], after);
      RestrictAppends(s.order, [key], after);
      RestrictSame(d.order, living * after, after);
    }
  }

  lemma SweptDrop(d: Data, key: string, now: int)
    ensures Swept(Drop(d, key), now) == Swept(Drop(Swept(d, now), key), now)
  {
    hide Restrict;
    var s, living := Swept(d, now), LiveKeys(d.entries, now);
    assert Alive(d.entries - {key}, now) == Alive(s.entries - {key}, now);
    var after := LiveKeys(d.entries - {key}, now);
    assert LiveKeys(s.entries - {key}, now) == after;
    RestrictTwice(d.order, d.entries.Keys - {key}, after);
    RestrictTwice(d.order, living, s.entries.Keys - {key});
    RestrictTwice(d.order, living * (s.entries.Keys - {key}), after);
    assert (d.entries.Keys - {key}) * after == living * (s.entries.Keys - {key}) * after;
  }

  lemma SweptTouched(d: Data, key: string, now: int)
    requires WellFormed(d)
    ensures Swept(Touched(d, key, now), now) == Swept(d, now) && WellFormed(Touched(d, key, now))
    ensures var t := Touched(d, key, now);
            (key in t.entries ==> !Expired(t.entries[key], now)) && Find(t, key) == Find(Swept(d, now), key)
  {
    hide Restrict, WellFormed;
    DropKeepsForm(d, key);
    if key in d.entries && Expired(d.entries[key], now) {
      var after := LiveKeys(d.entries - {key}, now);
      assert Alive(d.entries - {key}, now) == Alive(d.entries, now);
      assert after == LiveKeys(d.entries, now);
      RestrictTwice(d.order, d.entries.Keys - {key}, after);
      assert (d.entries.Keys - {key}) * after == after;
    }
  }

  lemma QuietStep(n: Numerals, d: Data, live: Data, r: Request, now: int)
    requires WellFormed(d) && WellFormed(live) && Swept(live, now) == Swept(d, now)
    requires !DeletesExpired(d, r, now) && !(r.Set? && Displaces(d, r.key, now))
    ensures Lazy(n, d, r, now).1 == Eager(n, live, r, now).1
    ensures Swept(Eager(n, live, r, now).0, now) == Swept(Lazy(n, d, r, now).0, now)
    ensures WellFormed(Eager(n, live, r, now).0)
  {
    hide Restrict, WellFormed, Put, Drop, Swept, Displaces;
    var s := Swept(d, now);
    QuietAnswer(n, d, live, r, now);
    SweptKeepsForm(d, now);
    SweptTwice(d, now, now);
    PlainKeepsForm(n, s, r, now);
    SweptKeepsForm(Plain(n, s, r, now).0, now);
    SweptTwice(Plain(n, s, r, now).0, now, now);
    match r {
      case Set(key, value, ttlMs) => SetQuietly(d, key, Entry(value, ExpiryOf(ttlMs, now)), now);
      case Del(key) => SweptDrop(d, key, now);
      case Incr(key, delta) => CountedAlike(n, d, key, delta, now);
      case Expire(key, ttlMs) =>
        var t := Touched(d, key, now);
        SweptTouched(d, key, now);
        if key in t.entries {
          SweptPut(t, key, t.entries[key].(expiresAt := Some(now + ttlMs)), now);
        }
      case Get(key) => SweptTouched(d, key, now);
      case Ttl(key) => SweptTouched(d, key, now);
      case _ =>
    }
  }

  lemma CountedAlike(n: Numerals, d: Data, key: string, delta: int, now: int)
    requires WellFormed(d)
    ensures Swept(Lazy(n, d, Incr(key, delta), now).0, now)
         == Swept(Plain(n, Swept(d, now), Incr(key, delta), now).0, now)
  {
    hide Restrict, WellFormed, Put, Drop, Swept;
    var t := Touched(d, key, now);
    SweptTouched(d, key, now);
    SweptTwice(d, now, now);
    if key !in t.entries {
      SweptPut(t, key, Entry(n.show(delta), None), now);
    } else if n.parse(t.entries[key].value).Some? {
      SweptPut(t, key, t.entries[key].(value := n.show(n.parse(t.entries[key].value).value + delta)), now);
    }
  }

  lemma SetQuietly(d: Data, key: string, e: Entry, now: int)
    requires WellFormed(d) && !Expired(e, now) && !Displaces(d, key, now)
    ensures Swept(Put(d, key, e), now) == Swept(Put(Swept(d, now), key, e), now)
  {
    hide Restrict, WellFormed, Displaces;
    var s := Swept(d, now);
    SetInPlaceExactly(d, key, e, now);
    SweptKeepsForm(d, now);
    PutKeepsForm(s, key, e);
    NothingToSweep(Put(s, key, e), now);
  }

  /** Sweeping leaves a store in which nothing has expired. */
  lemma NothingToSweep(d: Data, now: int)
    requires WellFormed(d) && forall k :: k in d.entries ==> !Expired(d.entries[k], now)
    ensures Swept(d, now) == d
  {
    hide Restrict;
    RestrictAll(d.order, LiveKeys(d.entries, now));
    assert Alive(d.entries, now) == d.entries;
  }

  lemma PlainKeepsForm(n: Numerals, s: Data, r: Request, now: int)
    requires WellFormed(s)
    ensures WellFormed(Plain(n, s, r, now).0)
  {
    hide WellFormed, Put, Drop;
    EmptyIsWellFormed();
    if !r.Keys? && !r.Flush? {
      DropKeepsForm(s, r.key);
      forall e: Entry
        ensures WellFormed(Put(s, r.key, e))
      {
        PutKeepsForm(s, r.key, e);
      }
    }
  }

  lemma QuietAnswer(n: Numerals, d: Data, live: Data, r: Request, now: int)
    requires Swept(live, now) == Swept(d, now) && !DeletesExpired(d, r, now)
    ensures Lazy(n, d, r, now).1 == Eager(n, live, r, now).1
  {
    hide Restrict;
    if r.Keys? {
      var s := Swept(d, now);
      var matching := set k | k in s.entries && r.matches(k);
      RestrictTwice(d.order, LiveKeys(d.entries, now), matching);
      assert LiveKeys(d.entries, now) * matching == MatchingKeys(d.entries, now, r.matches);
    } else {
      AnswersAgree(n, d, live, r, now);
    }
  }

  // The shortest parting over `keys`

  const EVERY: string -> bool := _ => true

  /** x is set to live for 10, then y for good; at 20 x is set again, and the keys are listed. */
  function Revival(x: string, y: string): seq<Timed> {
    [Timed(0, Set(x, "1", Some(10))), Timed(0, Set(y, "2", None)), Timed(20, Set(x, "3", None)), Timed(20, Keys(EVERY))]
  }

  function One(x: string, e: Entry): Data {
    Data(map[x := e], [x])
  }

  function Two(x: string, e: Entry, y: string, f: Entry): Data {
    Data(map[x := e, y := f], [x, y])
  }

  lemma OneTwo(x: string, e: Entry, y: string, f: Entry)
    requires x != y
    ensures Put(EMPTY, x, e) == One(x, e) && Put(One(x, e), y, f) == Two(x, e, y, f)
    ensures WellFormed(One(x, e)) && WellFormed(Two(x, e, y, f))
  {
    assert EMPTY.order + [x] == [x] && [x] + [y] == [x, y];
  }

  lemma LazyFour(n: Numerals, d: Data, q: seq<Timed>, d1: Data, d2: Data, d3: Data, names: Answer)
    requires |q| == 4
    requires Lazy(n, d, q[0].request, q[0].at) == (d1, Nothing) && Lazy(n, d1, q[1].request, q[1].at) == (d2, Nothing)
    requires Lazy(n, d2, q[2].request, q[2].at) == (d3, Nothing) && Lazy(n, d3, q[3].request, q[3].at).1 == names
    ensures LazyAnswers(n, d, q) == [Nothing, Nothing, Nothing, names]
  {
    hide Lazy;
    assert q[1..][1..] == q[2..] && q[2..][1..] == q[3..] && q[3..][1..] == [];
    assert LazyAnswers(n, d3, q[3..]) == [names];
    assert LazyAnswers(n, d2, q[2..]) == [Nothing] + LazyAnswers(n, d3, q[3..]);
    assert LazyAnswers(n, d1, q[1..]) == [Nothing] + LazyAnswers(n, d2, q[2..]);
  }

  lemma EagerFour(n: Numerals, d: Data, q: seq<Timed>, d1: Data, d2: Data, d3: Data, names: Answer)
    requires |q| == 4
    requires Eager(n, d, q[0].request, q[0].at) == (d1, Nothing) && Eager(n, d1, q[1].request, q[1].at) == (d2, Nothing)
    requires Eager(n, d2, q[2].request, q[2].at) == (d3, Nothing) && Eager(n, d3, q[3].request, q[3].at).1 == names
    ensures EagerAnswers(n, d, q) == [Nothing, Nothing, Nothing, names]
  {
    hide Eager;
    assert q[1..][1..] == q[2..] && q[2..][1..] == q[3..] && q[3..][1..] == [];
    assert EagerAnswers(n, d3, q[3..]) == [names];
    assert EagerAnswers(n, d2, q[2..]) == [Nothing] + EagerAnswers(n, d3, q[3..]);
    assert EagerAnswers(n, d1, q[1..]) == [Nothing] + EagerAnswers(n, d2, q[2..]);
  }

  lemma FirstExpires(x: string, e: Entry, y: string, f: Entry)
    requires x != y && e.expiresAt == Some(10) && f.expiresAt == None
    ensures Swept(Two(x, e, y, f), 20) == One(y, f)
  {
    var m := Two(x, e, y, f).entries;
    assert Alive(m, 20) == map[y := f];
    assert LiveKeys(m, 20) == {y};
    assert [x, y][1..] == [y] && [y][1..] == [];
    assert Restrict([y], {y}) == [y];
  }

  lemma Listed(n: Numerals, x: string, e: Entry, y: string, f: Entry)
    requires x != y && e.expiresAt == f.expiresAt == None
    ensures Lazy(n, Two(x, e, y, f), Keys(EVERY), 20).1 == Names([x, y])
    ensures Eager(n, Two(x, e, y, f), Keys(EVERY), 20).1 == Names([x, y])
  {
    hide Restrict, WellFormed;
    var d := Two(x, e, y, f);
    OneTwo(x, e, y, f);
    NothingToSweep(d, 20);
    RestrictAll(d.order, MatchingKeys(d.entries, 20, EVERY));
    RestrictAll(d.order, set k | k in d.entries && EVERY(k));
  }

  /** An eager set into a store that is all alive, before and after. */
  lemma EagerSets(n: Numerals, live: Data, key: string, value: string, ttlMs: Option<int>, now: int)
    requires var after := Put(Swept(live, now), key, Entry(value, ExpiryOf(ttlMs, now)));
             WellFormed(after) && forall k :: k in after.entries ==> !Expired(after.entries[k], now)
    ensures Eager(n, live, Request.Set(key, value, ttlMs), now)
         == (Put(Swept(live, now), key, Entry(value, ExpiryOf(ttlMs, now))), Nothing)
  {
    hide Restrict, WellFormed, Put, Swept;
    NothingToSweep(Put(Swept(live, now), key, Entry(value, ExpiryOf(ttlMs, now))), now);
  }

  lemma LazyRevival(n: Numerals, x: string, y: string)
    requires x != y
    ensures LazyAnswers(n, EMPTY, Revival(x, y)) == [Nothing, Nothing, Nothing, Names([x, y])]
  {
    hide Restrict, WellFormed;
    var e, f, g := Entry("1", Some(10)), Entry("2", None), Entry("3", None);
    OneTwo(x, e, y, f);
    Listed(n, x, g, y, f);
    assert Two(x, e, y, f).entries[x := g] == Two(x, g, y, f).entries;
    LazyFour(n, EMPTY, Revival(x, y), One(x, e), Two(x, e, y, f), Two(x, g, y, f), Names([x, y]));
  }

  lemma EagerRevival(n: Numerals, x: string, y: string)
    requires x != y
    ensures EagerAnswers(n, EMPTY, Revival(x, y)) == [Nothing, Nothing, Nothing, Names([y, x])]
  {
    hide Restrict, WellFormed, Put, Swept, Eager;
    var e, f, g := Entry("1", Some(10)), Entry("2", None), Entry("3", None);
    OneTwo(x, e, y, f);
    OneTwo(y, f, x, g);
    EmptyIsWellFormed();
    NothingToSweep(EMPTY, 0);
    NothingToSweep(One(x, e), 0);
    FirstExpires(x, e, y, f);
    EagerSets(n, EMPTY, x, "1", Some(10), 0);
    EagerSets(n, One(x, e), y, "2", None, 0);
    EagerSets(n, Two(x, e, y, f), x, "3", None, 20);
    Listed(n, y, f, x, g);
    EagerFour(n, EMPTY, Revival(x, y), One(x, e), Two(x, e, y, f), Two(y, f, x, g), Names([y, x]));
  }

  /** For any two keys: x is still listed first, where a store that had dropped it would list it last. */
  lemma RevivedKeyKeepsItsPlace(n: Numerals, x: string, y: string)
    requires x != y
    ensures Monotone(Revival(x, y), 0)
    ensures LazyAnswers(n, EMPTY, Revival(x, y)) == [Nothing, Nothing, Nothing, Names([x, y])]
    ensures EagerAnswers(n, EMPTY, Revival(x, y)) == [Nothing, Nothing, Nothing, Names([y, x])]
    ensures Partings(n, EMPTY, map[], Revival(x, y), 0) == [false, false, false, true]
  {
    hide LazyAnswers, EagerAnswers, Partings, WellFormed, Aged;
    var q := Revival(x, y);
    LazyRevival(n, x, y);
    EagerRevival(n, x, y);
    EmptyIsWellFormed();
    EmptyIsAged();
    RevivalIsMonotone(x, y);
    LazyRefinesEager(n, EMPTY, EMPTY, map[], q, 0, 0);
    var l, e := LazyAnswers(n, EMPTY, q), EagerAnswers(n, EMPTY, q);
    assert l[0] == e[0] && l[1] == e[1] && l[2] == e[2] && [x, y][0] != [y, x][0];
  }

  lemma RevivalIsMonotone(x: string, y: string)
    ensures Monotone(Revival(x, y), 0)
  {
    var q := Revival(x, y);
    assert q[1..][1..] == q[2..] && q[2..][1..] == q[3..] && q[3..][1..] == [];
    assert Monotone(q[3..], 20);
    assert Monotone(q[2..], 0);
    assert Monotone(q[1..], 0);
  }

  lemma EmptyIsAged()
    ensures Aged(EMPTY, map[], 0)
  {
  }
}
