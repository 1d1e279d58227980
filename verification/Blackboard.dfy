/**
 * Phases of agents over a shared blackboard. Every agent of a phase takes its snapshot before any of them finishes;
 * each then finishes at some later moment and, if it succeeded, its writes are applied in one go. The order in which
 * agents finish is not under the orchestrator's control.
 */
module Blackboard {
  import opened Options

  type Board = map<string, string>
  type Reading = map<string, Option<string>>

  datatype Pattern = Exact(key: string) | Glob(pattern: string)

  /** What a guest's run comes to: a failure, or writes (already stored as strings) and an output. */
  datatype RunResult<+Output> = Failed(error: string) | Succeeded(writes: Board, output: Output)

  /** An agent: what it asks to read, and its guest as a deterministic function of what it was handed. */
  datatype Agent<!Output> = Agent(name: string, wanted: seq<Pattern>, guest: Reading -> RunResult<Output>)

  datatype AgentRun<+Output> = AgentRun(name: string, reading: Reading, result: RunResult<Output>)

  function Lookup(board: Board, key: string): Option<string> {
    if key in board then Some(board[key]) else None
  }

  function ExactKeys(wanted: seq<Pattern>): set<string> {
    set p | p in wanted && p.Exact? :: p.key
  }

  function MatchingKeys(board: Board, pattern: string, matches: (string, string) -> bool): set<string> {
    set k | k in board && matches(pattern, k)
  }

  function GlobKeys(board: Board, wanted: seq<Pattern>, matches: (string, string) -> bool): set<string> {
    set k, p | p in wanted && p.Glob? && k in MatchingKeys(board, p.pattern, matches) :: k
  }

  /** The slice of the board an agent is handed. */
  function SnapshotOf(board: Board, wanted: seq<Pattern>, matches: (string, string) -> bool): Reading {
    map k | k in ExactKeys(wanted) + GlobKeys(board, wanted, matches) :: Lookup(board, k)
  }

  function WritesOf<Output>(r: RunResult<Output>): Board {
    if r.Succeeded? then r.writes else map[]
  }

  // What a reading shows, told without building it

  /** The key is asked for by name, or by a glob that matches it. */
  ghost predicate AskedFor(wanted: seq<Pattern>, key: string, matches: (string, string) -> bool) {
    Exact(key) in wanted || exists g :: Glob(g) in wanted && matches(g, key)
  }

  /**
   * The keys asked for by name, and those on the board that a glob matches; each with its value, null where the board
   * has none.
   */
  ghost predicate ShowsExactly(reading: Reading, board: Board, wanted: seq<Pattern>,
                               matches: (string, string) -> bool) {
    && (forall k :: k in reading <==>
          Exact(k) in wanted || (k in board && exists g :: Glob(g) in wanted && matches(g, k)))
    && (forall k :: k in reading ==> reading[k] == if k in board then Some(board[k]) else None)
  }

  lemma SnapshotShowsExactly(board: Board, wanted: seq<Pattern>, matches: (string, string) -> bool)
    ensures ShowsExactly(SnapshotOf(board, wanted, matches), board, wanted, matches)
  {
    var reading := SnapshotOf(board, wanted, matches);
    forall k
      ensures k in reading <==> Exact(k) in wanted || (k in board && exists g :: Glob(g) in wanted && matches(g, k))
    {
      assert k in ExactKeys(wanted) <==> Exact(k) in wanted by {
        assert forall p: Pattern :: p.Exact? && p.key == k ==> p == Exact(k);
      }
      if k in GlobKeys(board, wanted, matches) {
        var p :| p in wanted && p.Glob? && k in MatchingKeys(board, p.pattern, matches);
        assert p == Glob(p.pattern);
      }
      if g :| Glob(g) in wanted && matches(g, k) && k in board {
        assert k in MatchingKeys(board, Glob(g).pattern, matches);
      }
    }
  }

  lemma EmptySnapshot(board: Board, matches: (string, string) -> bool)
    ensures SnapshotOf(board, [], matches) == map[]
  {
  }

  lemma SnapshotSnoc(board: Board, wanted: seq<Pattern>, last: Pattern, matches: (string, string) -> bool)
    ensures var s := SnapshotOf(board, wanted, matches);
            && (forall k :: k in s ==> s[k] == Lookup(board, k))
            && SnapshotOf(board, wanted + [last], matches)
               == match last
                  case Exact(key) => s[key := Lookup(board, key)]
                  case Glob(g) => map k | k in s.Keys + MatchingKeys(board, g, matches) :: Lookup(board, k)
  {
    var all := wanted + [last];
    match last {
      case Exact(key) =>
        assert ExactKeys(all) == ExactKeys(wanted) + {key};
        assert GlobKeys(board, all, matches) == GlobKeys(board, wanted, matches);
      case Glob(g) =>
        assert ExactKeys(all) == ExactKeys(wanted);
        assert GlobKeys(board, all, matches) == GlobKeys(board, wanted, matches) + MatchingKeys(board, g, matches);
    }
  }

  class Orchestrator<Output> {
    var board: Board
    const matches: (string, string) -> bool

    constructor (matches: (string, string) -> bool)
      ensures board == map[] && this.matches == matches
    {
      this.matches := matches;
      board := map[];
    }

    method CopyKeys(from: Reading, keys: set<string>) returns (out: Reading)
      requires forall k :: k in from ==> from[k] == Lookup(board, k)
      ensures out == map k | k in from.Keys + keys :: Lookup(board, k)
    {
      out := from;
      var rest := keys;
      while rest != {}
        invariant rest <= keys
        invariant out == map k | k in from.Keys + (keys - rest) :: Lookup(board, k)
        decreases rest
      {
        var k :| k in rest;
        out := out[k := Lookup(board, k)];
        rest := rest - {k};
      }
      assert keys - {} == keys;
    }

    /** `snapshot` */
    method Snapshot(wanted: seq<Pattern>) returns (out: Reading)
      ensures ShowsExactly(out, board, wanted, matches) && out == SnapshotOf(board, wanted, matches)
    {
      hide SnapshotOf, MatchingKeys, ShowsExactly;
      out := map[];
      EmptySnapshot(board, matches);
      for i := 0 to |wanted|
        invariant out == SnapshotOf(board, wanted[..i], matches)
      {
        assert wanted[..i + 1] == wanted[..i] + [wanted[i]];
        SnapshotSnoc(board, wanted[..i], wanted[i], matches);
        match wanted[i] {
          case Exact(key) => out := out[key := Lookup(board, key)];
          case Glob(pattern) => out := CopyKeys(out, MatchingKeys(board, pattern, matches));
        }
      }
      assert wanted[..|wanted|] == wanted;
      SnapshotShowsExactly(board, wanted, matches);
    }

    /** The loop of `runAgent` that applies the writes, key by key, without an await in between. */
    method ApplyWrites(writes: Board)
      modifies this
      ensures board == old(board) + writes
    {
      var keys := writes.Keys;
      while keys != {}
        invariant keys <= writes.Keys
        invariant board == old(board) + map k | k in writes.Keys - keys :: writes[k]
        decreases keys
      {
        var k :| k in keys;
        board := board[k := writes[k]];
        keys := keys - {k};
      }
    }

    /** The first turn of `runPhase`: every agent is started, so every snapshot is of the board as it stands. */
    method BeginPhase(agents: seq<Agent<Output>>) returns (readings: seq<Reading>)
      ensures |readings| == |agents|
      ensures forall i :: 0 <= i < |agents| ==>
                && ShowsExactly(readings[i], board, agents[i].wanted, matches)
                && readings[i] == SnapshotOf(board, agents[i].wanted, matches)
    {
      hide SnapshotOf, ShowsExactly;
      readings := [];
      for i := 0 to |agents|
        invariant |readings| == i
        invariant forall k :: 0 <= k < i ==> ShowsExactly(readings[k], board, agents[k].wanted, matches)
        invariant forall k :: 0 <= k < i ==> readings[k] == SnapshotOf(board, agents[k].wanted, matches)
      {
        var r := Snapshot(agents[i].wanted);
        readings := readings + [r];
      }
    }

    /** The turn in which one agent's guest has finished. */
    method FinishAgent(agent: Agent<Output>, reading: Reading) returns (run: AgentRun<Output>)
      modifies this
      ensures run == AgentRun(agent.name, reading, agent.guest(reading))
      ensures board == old(board) + WritesOf(agent.guest(reading))
    {
      var result := agent.guest(reading);
      run := AgentRun(agent.name, reading, result);
      if result.Succeeded? {
        ApplyWrites(result.writes);
      }
    }

    /** A whole phase, with the agents finishing in the given order. */
    method RunPhase(agents: seq<Agent<Output>>, order: seq<nat>) returns (runs: seq<AgentRun<Output>>)
      requires IsOrder(order, |agents|)
      modifies this
      ensures |runs| == |agents|
      ensures forall i :: 0 <= i < |agents| ==> FaithfulRun(runs[i], old(board), agents[i], matches)
      ensures AppliedInOrder(old(board), runs, order, board)
      ensures runs == Runs(old(board), agents, matches)
      ensures board == Settled(old(board), WriteSets(old(board), agents, matches), order)
    {
      hide SnapshotOf, WritesOf, ShowsExactly, FaithfulRun, AppliedInOrder;
      var readings := BeginPhase(agents);
      ghost var before := board;
      ghost var sets := WriteSets(before, agents, matches);
      var finished: map<nat, AgentRun<Output>> := map[];
      for i := 0 to |order|
        invariant Within(order[i..], |sets|) && Settled(board, sets, order[i..]) == Settled(before, sets, order)
        invariant finished.Keys == set k | k in order[..i]
        invariant forall k :: k in finished ==> k < |agents| && finished[k] == Runs(before, agents, matches)[k]
      {
        label Turn:
        var k := order[i];
        assert order[i..][0] == k && order[i..][1..] == order[i + 1..];
        assert order[..i + 1] == order[..i] + [k];
        var run := FinishAgent(agents[k], readings[k]);
        assert board == old@Turn(board) + sets[k];
        finished := finished[k := run];
      }
      assert order[..|order|] == order;
      RunsAreFaithful(before, agents, matches);
      SettledApplies(before, sets, Runs(before, agents, matches), order);
      runs := seq(|agents|, k requires 0 <= k < |agents| && k in finished => finished[k]);
      assert runs == Runs(before, agents, matches);
    }
  }

  // Orders of completion

  predicate Within(order: seq<nat>, n: nat) {
    forall i :: 0 <= i < |order| ==> order[i] < n
  }

  /** Each of 0..n-1 exactly once. */
  ghost predicate IsOrder(order: seq<nat>, n: nat) {
    && Within(order, n)
    && (forall k :: 0 <= k < n ==> k in order)
    && (forall i, j :: 0 <= i < j < |order| ==> order[i] != order[j])
  }

  function Runs<Output>(board: Board, agents: seq<Agent<Output>>, matches: (string, string) -> bool)
    : (r: seq<AgentRun<Output>>)
    ensures |r| == |agents|
  {
    seq(|agents|, k requires 0 <= k < |agents| =>
      var reading := SnapshotOf(board, agents[k].wanted, matches);
      AgentRun(agents[k].name, reading, agents[k].guest(reading)))
  }

  function WriteSets<Output>(board: Board, agents: seq<Agent<Output>>, matches: (string, string) -> bool)
    : (w: seq<Board>)
    ensures |w| == |agents|
  {
    seq(|agents|, k requires 0 <= k < |agents| =>
      WritesOf(agents[k].guest(SnapshotOf(board, agents[k].wanted, matches))))
  }

  /** The board after the write sets named by `order` were applied one after the other. */
  function Settled(board: Board, sets: seq<Board>, order: seq<nat>): Board
    requires Within(order, |sets|)
    decreases |order|
  {
    if order == [] then board else Settled(board + sets[order[0]], sets, order[1..])
  }

  // What a phase comes to, told from its runs

  /** The run is the agent's, on what the board showed it. */
  ghost predicate FaithfulRun<Output>(run: AgentRun<Output>, board: Board, agent: Agent<Output>,
                                      matches: (string, string) -> bool) {
    && run.name == agent.name && ShowsExactly(run.reading, board, agent.wanted, matches)
    && run.result == agent.guest(run.reading)
  }

  lemma RunsAreFaithful<Output>(board: Board, agents: seq<Agent<Output>>, matches: (string, string) -> bool)
    ensures var runs := Runs(board, agents, matches);
            forall i :: 0 <= i < |agents| ==> FaithfulRun(runs[i], board, agents[i], matches)
  {
    hide SnapshotOf, ShowsExactly;
    forall i | 0 <= i < |agents|
      ensures ShowsExactly(SnapshotOf(board, agents[i].wanted, matches), board, agents[i].wanted, matches)
    {
      SnapshotShowsExactly(board, agents[i].wanted, matches);
    }
  }

  /** The run succeeded and writes the key. */
  predicate Writes<Output>(run: AgentRun<Output>, key: string) {
    run.result.Succeeded? && key in run.result.writes
  }

  ghost predicate LastWrite<Output>(runs: seq<AgentRun<Output>>, order: seq<nat>, p: nat, key: string)
    requires Within(order, |runs|)
  {
    && p < |order| && Writes(runs[order[p]], key)
    && forall q :: p < q < |order| ==> !Writes(runs[order[q]], key)
  }

  /** A key holds what the last successful run to finish that writes it wrote; one that none writes is as it was. */
  ghost predicate AppliedInOrder<Output>(before: Board, runs: seq<AgentRun<Output>>, order: seq<nat>, after: Board)
    requires Within(order, |runs|)
  {
    && (forall p: nat, key :: LastWrite(runs, order, p, key) ==>
          key in after && after[key] == runs[order[p]].result.writes[key])
    && (forall key :: (forall p :: 0 <= p < |order| ==> !Writes(runs[order[p]], key)) ==>
          Lookup(after, key) == Lookup(before, key))
  }

  lemma {:induction false} SettledApplies<Output>(board: Board, sets: seq<Board>, runs: seq<AgentRun<Output>>,
                                                  order: seq<nat>)
    requires |sets| == |runs| && Within(order, |sets|)
    requires forall i :: 0 <= i < |sets| ==> sets[i] == WritesOf(runs[i].result)
    ensures AppliedInOrder(board, runs, order, Settled(board, sets, order))
    decreases |order|
  {
    if order != [] {
      var mid, after := board + sets[order[0]], Settled(board, sets, order);
      SettledApplies(mid, sets, runs, order[1..]);
      forall p: nat, key | LastWrite(runs, order, p, key)
        ensures key in after && after[key] == runs[order[p]].result.writes[key]
      {
        if p > 0 {
          assert LastWrite(runs, order[1..], p - 1, key);
        } else {
          assert forall q :: 0 <= q < |order[1..]| ==> !Writes(runs[order[1..][q]], key);
          assert Lookup(after, key) == Lookup(mid, key);
        }
      }
      forall key | forall p :: 0 <= p < |order| ==> !Writes(runs[order[p]], key)
        ensures Lookup(after, key) == Lookup(board, key)
      {
        assert !Writes(runs[order[0]], key);
        assert forall q :: 0 <= q < |order[1..]| ==> !Writes(runs[order[1..][q]], key);
        assert Lookup(after, key) == Lookup(mid, key);
      }
    }
  }

  // Isolation

  /** Boards that agree on every key an agent asks for show it the same, and so come to the same run. */
  lemma OnlyWhatIsAskedFor<Output>(a: Board, b: Board, agent: Agent<Output>, matches: (string, string) -> bool)
    requires forall k :: AskedFor(agent.wanted, k, matches) ==> Lookup(a, k) == Lookup(b, k)
    ensures SnapshotOf(a, agent.wanted, matches) == SnapshotOf(b, agent.wanted, matches)
    ensures Runs(a, [agent], matches) == Runs(b, [agent], matches)
  {
    hide SnapshotOf;
    var x, y := SnapshotOf(a, agent.wanted, matches), SnapshotOf(b, agent.wanted, matches);
    SnapshotShowsExactly(a, agent.wanted, matches);
    SnapshotShowsExactly(b, agent.wanted, matches);
    forall k
      ensures (k in x <==> k in y) && (k in x ==> x[k] == y[k])
    {
      if k in x || k in y {
        assert AskedFor(agent.wanted, k, matches);
        assert Lookup(a, k) == Lookup(b, k);
      }
    }
    assert x == y;
  }

  // Confluence

  ghost predicate Agree(a: Board, b: Board) {
    forall k :: k in a && k in b ==> a[k] == b[k]
  }

  ghost predicate AllAgree(sets: seq<Board>) {
    forall i, j :: 0 <= i < |sets| && 0 <= j < |sets| ==> Agree(sets[i], sets[j])
  }

  /** A key no agent in the order writes keeps its value; one that is written holds a value some agent wrote. */
  lemma {:induction false} SettledAt(board: Board, sets: seq<Board>, order: seq<nat>, key: string)
    requires Within(order, |sets|)
    ensures var b := Settled(board, sets, order);
            if exists i :: i in order && key in sets[i]
            then exists i :: i in order && key in sets[i] && key in b && b[key] == sets[i][key]
            else Lookup(b, key) == Lookup(board, key)
    decreases |order|
  {
    if order != [] {
      var first, rest := order[0], order[1..];
      SettledAt(board + sets[first], sets, rest, key);
      assert order == [first] + rest;
    }
  }

  /** When write sets agree where they overlap, every order of completion leaves the same board. */
  lemma AgreementIsConfluent(board: Board, sets: seq<Board>, p: seq<nat>, q: seq<nat>)
    requires AllAgree(sets) && IsOrder(p, |sets|) && IsOrder(q, |sets|)
    ensures Settled(board, sets, p) == Settled(board, sets, q)
  {
    var bp, bq := Settled(board, sets, p), Settled(board, sets, q);
    forall key
      ensures Lookup(bp, key) == Lookup(bq, key)
    {
      SettledAt(board, sets, p, key);
      SettledAt(board, sets, q, key);
      if exists i :: i in p && key in sets[i] {
        var i :| i in p && key in sets[i] && key in bp && bp[key] == sets[i][key];
        assert i in q;
        var j :| j in q && key in sets[j] && key in bq && bq[key] == sets[j][key];
        assert Agree(sets[i], sets[j]);
      } else {
        assert forall i :: i in q ==> i in p;
      }
    }
    SameLookups(bp, bq);
  }

  lemma SameLookups(a: Board, b: Board)
    requires forall key :: Lookup(a, key) == Lookup(b, key)
    ensures a == b
  {
    forall key
      ensures key in a <==> key in b
      ensures key in a ==> a[key] == b[key]
    {
      assert Lookup(a, key) == Lookup(b, key);
    }
  }

  /** 0..n-1 without i, then i. */
  function LastOf(n: nat, i: nat): seq<nat>
    requires i < n
  {
    UpTo(n, i) + [i]
  }

  function UpTo(n: nat, skip: nat): (s: seq<nat>)
    ensures forall i :: 0 <= i < |s| ==> s[i] < n && s[i] != skip
    ensures forall k: nat :: k < n && k != skip ==> k in s
    ensures forall a, b :: 0 <= a < b < |s| ==> s[a] < s[b]
  {
    if n == 0 then [] else if n - 1 == skip then UpTo(n - 1, skip) else UpTo(n - 1, skip) + [n - 1]
  }

  lemma {:induction false} SettledSnoc(board: Board, sets: seq<Board>, order: seq<nat>, last: nat)
    requires Within(order, |sets|) && last < |sets|
    ensures Settled(board, sets, order + [last]) == Settled(board, sets, order) + sets[last]
    decreases |order|
  {
    if order == [] {
      assert order + [last] == [last];
      assert Settled(board, sets, [last]) == Settled(board + sets[last], sets, []);
    } else {
      SettledSnoc(board + sets[order[0]], sets, order[1..], last);
      assert (order + [last])[1..] == order[1..] + [last];
    }
  }

  /** Whoever finishes last has the last word. */
  lemma LastWins(board: Board, sets: seq<Board>, i: nat, key: string)
    requires i < |sets| && key in sets[i]
    ensures IsOrder(LastOf(|sets|, i), |sets|)
    ensures var b := Settled(board, sets, LastOf(|sets|, i));
            key in b && b[key] == sets[i][key]
  {
    var front := UpTo(|sets|, i);
    forall k | 0 <= k < |sets|
      ensures k in LastOf(|sets|, i)
    {
      if k != i {
        assert k in front;
      }
    }
    SettledSnoc(board, sets, front, i);
  }

  ghost predicate Confluent(board: Board, sets: seq<Board>) {
    forall p, q :: IsOrder(p, |sets|) && IsOrder(q, |sets|) ==> Settled(board, sets, p) == Settled(board, sets, q)
  }

  /** The board a phase leaves is independent of the order of completion exactly when the write sets agree pairwise. */
  lemma ConfluentExactly(board: Board, sets: seq<Board>)
    ensures Confluent(board, sets) <==> AllAgree(sets)
  {
    if AllAgree(sets) {
      forall p, q | IsOrder(p, |sets|) && IsOrder(q, |sets|)
        ensures Settled(board, sets, p) == Settled(board, sets, q)
      {
        AgreementIsConfluent(board, sets, p, q);
      }
    }
    if Confluent(board, sets) {
      forall i, j, key | 0 <= i < |sets| && 0 <= j < |sets| && key in sets[i] && key in sets[j]
        ensures sets[i][key] == sets[j][key]
      {
        LastWins(board, sets, i, key);
        LastWins(board, sets, j, key);
        assert Settled(board, sets, LastOf(|sets|, i)) == Settled(board, sets, LastOf(|sets|, j));
      }
    }
  }

  // Runs of several phases

  datatype Phase<!Output> = Phase(agents: seq<Agent<Output>>)

  function AfterPhases<Output>(board: Board, phases: seq<Phase<Output>>, orders: seq<seq<nat>>,
                               matches: (string, string) -> bool): Option<Board>
    decreases |phases|
  {
    if phases == [] then Some(board)
    else if orders == [] || !Within(orders[0], |phases[0].agents|) then None
    else
      AfterPhases(Settled(board, WriteSets(board, phases[0].agents, matches), orders[0]),
                  phases[1..], orders[1..], matches)
  }

  ghost predicate Orders<Output>(orders: seq<seq<nat>>, phases: seq<Phase<Output>>) {
    |orders| == |phases| && forall i :: 0 <= i < |phases| ==> IsOrder(orders[i], |phases[i].agents|)
  }

  /** Each phase's write sets agree, at the board the phases before it leave. */
  ghost predicate PhasesAgree<Output>(board: Board, phases: seq<Phase<Output>>, matches: (string, string) -> bool)
    decreases |phases|
  {
    phases == [] ||
    (var sets := WriteSets(board, phases[0].agents, matches);
     AllAgree(sets) && PhasesAgree(Settled(board, sets, UpTo(|sets|, |sets|)), phases[1..], matches))
  }

  lemma InSequence(n: nat)
    ensures IsOrder(UpTo(n, n), n)
  {
  }

  /** Then the final board does not depend on how any of the phases was interleaved. */
  lemma {:induction false} PhasesAreConfluent<Output>(board: Board, phases: seq<Phase<Output>>, p: seq<seq<nat>>,
                                                     q: seq<seq<nat>>, matches: (string, string) -> bool)
    requires PhasesAgree(board, phases, matches) && Orders(p, phases) && Orders(q, phases)
    ensures AfterPhases(board, phases, p, matches).Some?
    ensures AfterPhases(board, phases, p, matches) == AfterPhases(board, phases, q, matches)
    decreases |phases|
  {
    if phases != [] {
      var sets := WriteSets(board, phases[0].agents, matches);
      InSequence(|sets|);
      AgreementIsConfluent(board, sets, p[0], UpTo(|sets|, |sets|));
      AgreementIsConfluent(board, sets, q[0], UpTo(|sets|, |sets|));
      PhasesAreConfluent(Settled(board, sets, p[0]), phases[1..], p[1..], q[1..], matches);
    }
  }
}
