/** How long entries of the memory tier live, by the lifetimes asked for, whatever happens to other keys meanwhile. */
module Lifetimes {
  import opened Options
  import opened MemoryTier
  import opened EagerTier

  function After(n: Numerals, d: Data, session: seq<Timed>): Data
    decreases |session|
  {
    if session == [] then d else After(n, Lazy(n, d, session[0].request, session[0].at).0, session[1..])
  }

  /** No request writes the key; it may be read, tested and listed. */
  predicate Spares(session: seq<Timed>, key: string) {
    forall i :: 0 <= i < |session| ==>
      match session[i].request
      case Set(k, _, _) => k != key
      case Del(k) => k != key
      case Incr(k, _) => k != key
      case Expire(k, _) => k != key
      case Flush => false
      case _ => true
  }

  predicate AllBy(session: seq<Timed>, until: int) {
    forall i :: 0 <= i < |session| ==> session[i].at <= until
  }

  /** The entry is there as it was, or it has expired by then and is not. */
  ghost predicate KeptOrExpired(d: Data, key: string, e: Entry, until: int) {
    if key in d.entries then d.entries[key] == e else e.expiresAt.Some? && e.expiresAt.value <= until
  }

  lemma StepKeeps(n: Numerals, d: Data, r: Timed, key: string, e: Entry, until: int)
    requires Spares([r], key) && r.at <= until && KeptOrExpired(d, key, e, until)
    ensures KeptOrExpired(Lazy(n, d, r.request, r.at).0, key, e, until) || key !in d.entries
    ensures key !in d.entries ==> key !in Lazy(n, d, r.request, r.at).0.entries
  {
    hide Restrict;
    assert [r][0] == r;
  }

  lemma {:induction false} SessionKeeps(n: Numerals, d: Data, session: seq<Timed>, key: string, e: Entry, until: int)
    requires Spares(session, key) && AllBy(session, until) && KeptOrExpired(d, key, e, until)
    ensures KeptOrExpired(After(n, d, session), key, e, until)
    decreases |session|
  {
    hide Lazy;
    if session != [] {
      assert [session[0]][0] == session[0];
      StepKeeps(n, d, session[0], key, e, until);
      SessionKeeps(n, Lazy(n, d, session[0].request, session[0].at).0, session[1..], key, e, until);
    }
  }

  /** A key that is not there stays away. */
  lemma {:induction false} SessionStaysWithout(n: Numerals, d: Data, session: seq<Timed>, key: string)
    requires Spares(session, key) && key !in d.entries
    ensures key !in After(n, d, session).entries
    decreases |session|
  {
    hide Lazy;
    if session != [] {
      var r := session[0];
      assert [r][0] == r;
      StepKeeps(n, d, r, key, Entry("", Some(r.at)), r.at);
      SessionStaysWithout(n, Lazy(n, d, r.request, r.at).0, session[1..], key);
    }
  }

  lemma Answers(n: Numerals, d: Data, key: string, e: Entry, until: int)
    requires KeptOrExpired(d, key, e, until)
    ensures var living := e.expiresAt.Some? ==> until < e.expiresAt.value;
            && Lazy(n, d, Get(key), until).1 == Text(if living then Some(e.value) else None)
            && Lazy(n, d, Ttl(key), until).1
               == Number(if !living then -2 else if e.expiresAt.None? then -1 else e.expiresAt.value - until)
  {
    hide Restrict;
  }

  /**
   * A key that was set is found with its value until the lifetime asked for has passed, to the millisecond, and for
   * good if none or none above 0 was asked for.
   */
  lemma SetLivesExactly(n: Numerals, d: Data, key: string, value: string, ttlMs: Option<int>, at: int,
                        session: seq<Timed>, until: int)
    requires Spares(session, key) && AllBy(session, until)
    ensures var later := After(n, Lazy(n, d, Set(key, value, ttlMs), at).0, session);
            var forGood := ttlMs.None? || ttlMs.value <= 0;
            && Lazy(n, later, Get(key), until).1
               == Text(if forGood || until < at + ttlMs.value then Some(value) else None)
            && Lazy(n, later, Ttl(key), until).1
               == Number(if forGood then -1 else if until < at + ttlMs.value then at + ttlMs.value - until else -2)
  {
    hide Restrict, After;
    var d' := Lazy(n, d, Set(key, value, ttlMs), at).0;
    var e := d'.entries[key];
    SessionKeeps(n, d', session, key, e, until);
    Answers(n, After(n, d', session), key, e, until);
  }

  /** `expire` gives a living key the lifetime asked for, none at all if that is not above 0. */
  lemma ExpireLivesExactly(n: Numerals, d: Data, key: string, ttlMs: int, at: int, session: seq<Timed>, until: int)
    requires Spares(session, key) && AllBy(session, until)
    requires key in d.entries && (d.entries[key].expiresAt.Some? ==> at < d.entries[key].expiresAt.value)
    ensures var (d', found) := Lazy(n, d, Expire(key, ttlMs), at);
            var later := After(n, d', session);
            && found == Flag(true)
            && Lazy(n, later, Get(key), until).1
               == Text(if until < at + ttlMs then Some(d.entries[key].value) else None)
            && Lazy(n, later, Ttl(key), until).1 == Number(if until < at + ttlMs then at + ttlMs - until else -2)
  {
    hide Restrict, After;
    var d' := Lazy(n, d, Expire(key, ttlMs), at).0;
    var e := Entry(d.entries[key].value, Some(at + ttlMs));
    SessionKeeps(n, d', session, key, e, until);
    Answers(n, After(n, d', session), key, e, until);
  }

  /** A living number that is counted up is found as the sum, as long as it would have lived. */
  lemma IncrLivesExactly(n: Numerals, d: Data, key: string, delta: int, at: int, session: seq<Timed>, until: int)
    requires Spares(session, key) && AllBy(session, until)
    requires key in d.entries && (d.entries[key].expiresAt.Some? ==> at < d.entries[key].expiresAt.value)
    requires n.parse(d.entries[key].value).Some?
    ensures var (d', answer) := Lazy(n, d, Incr(key, delta), at);
            var sum, expiry := n.parse(d.entries[key].value).value + delta, d.entries[key].expiresAt;
            && answer == Number(sum)
            && Lazy(n, After(n, d', session), Get(key), until).1
               == Text(if expiry.None? || until < expiry.value then Some(n.show(sum)) else None)
  {
    hide Restrict, After;
    var d' := Lazy(n, d, Incr(key, delta), at).0;
    var e := Entry(n.show(n.parse(d.entries[key].value).value + delta), d.entries[key].expiresAt);
    SessionKeeps(n, d', session, key, e, until);
    Answers(n, After(n, d', session), key, e, until);
  }

  /** What was deleted, or flushed, is not found again. */
  lemma DeletedIsGone(n: Numerals, d: Data, key: string, r: Request, at: int, session: seq<Timed>, until: int)
    requires (r == Del(key) || r == Flush) && Spares(session, key)
    ensures Lazy(n, After(n, Lazy(n, d, r, at).0, session), Get(key), until).1 == Text(None)
  {
    hide Restrict, After;
    SessionStaysWithout(n, Lazy(n, d, r, at).0, session, key);
  }
}
