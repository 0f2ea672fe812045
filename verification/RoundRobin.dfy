/** The round robin policy of internal/network/sharding.go, whose index is read and written without
    a lock. */
module RoundRobin {
  import opened Collections
  import opened Wrappers

  // ---------- calls that do not overlap ----------

  /** How often c was selected. */
  function Times(selected: seq<nat>, c: nat): (n: nat)
    ensures n <= |selected|
  {
    if selected == [] then 0
    else Times(selected[..|selected| - 1], c) + (if selected[|selected| - 1] == c then 1 else 0)
  }

  /** RoundRobinShardedClient over m clients, for calls that do not overlap. */
  class RoundRobinShardedClient {
    const m: nat
    var rrIdx: nat
    ghost var selected: seq<nat>

    /** The k-th call went to client k mod m, and the index says where the next one goes. */
    ghost predicate Valid()
      reads this
    {
      && m > 0
      && rrIdx == |selected| % m
      && (forall k :: 0 <= k < |selected| ==> selected[k] == k % m)
    }

    constructor (m: nat)
      requires m > 0
      ensures Valid() && this.m == m && selected == []
    {
      this.m := m;
      rrIdx := 0;
      selected := [];
    }

    /** Select the next client; the index moves on whether the client delivers or not. */
    method Conn(ok: bool) returns (r: Option<nat>)
      requires Valid()
      modifies this
      ensures Valid() && selected == old(selected) + [old(rrIdx)]
      ensures r == if ok then Some(|old(selected)| % m) else None
    {
      r := if ok then Some(rrIdx) else None;
      selected := selected + [rrIdx];
      NextIndex(|selected| - 1, m);
      rrIdx := (rrIdx + 1) % m;
    }
  }

  /** Counting on from n, modulo m. */
  lemma CountOn(n: nat, m: nat)
    requires m > 0
    ensures if n % m + 1 < m then (n + 1) / m == n / m && (n + 1) % m == n % m + 1
            else (n + 1) / m == n / m + 1 && (n + 1) % m == 0
  {
    var q, r := n / m, n % m;
    if r + 1 < m {
      Quotient(n + 1, m, q, r + 1);
    } else {
      assert (q + 1) * m == q * m + m;
      Quotient(n + 1, m, q + 1, 0);
    }
  }

  lemma NextIndex(n: nat, m: nat)
    requires m > 0
    ensures (n % m + 1) % m == (n + 1) % m
  {
    CountOn(n, m);
    var r := n % m;
    if r + 1 < m {
      Quotient(r + 1, m, 0, r + 1);
    } else {
      Quotient(r + 1, m, 1, 0);
    }
  }

  /** Quotient and remainder are what they should be. */
  lemma Quotient(n: int, m: int, q: int, r: int)
    requires m > 0 && 0 <= r < m && n == q * m + r
    ensures n / m == q && n % m == r
  {
    var d := n / m - q;
    assert d * m == r - n % m;
    assert d >= 1 ==> d * m >= m;
    assert d <= -1 ==> d * m <= -m;
  }

  /** After n calls each of m clients was selected floor(n/m) or ceil(n/m) times: client c exactly
      once for every call number that is c modulo m. */
  lemma {:induction false} RoundRobinFair(selected: seq<nat>, m: nat, c: nat)
    requires c < m && forall k :: 0 <= k < |selected| ==> selected[k] == k % m
    ensures Times(selected, c) == |selected| / m + (if c < |selected| % m then 1 else 0)
    ensures |selected| / m <= Times(selected, c) <= (|selected| + m - 1) / m
    decreases |selected|
  {
    var n := |selected|;
    CeilAtLeast(n, m);
    if n == 0 {
      Quotient(0, m, 0, 0);
    } else {
      RoundRobinFair(selected[..n - 1], m, c);
      CountOn(n - 1, m);
    }
  }

  lemma CeilAtLeast(n: nat, m: nat)
    requires m > 0
    ensures (n + m - 1) / m == n / m + (if n % m > 0 then 1 else 0)
  {
    var q, r := n / m, n % m;
    if r == 0 {
      Quotient(n + m - 1, m, q, m - 1);
    } else {
      assert (q + 1) * m == q * m + m;
      Quotient(n + m - 1, m, q + 1, r - 1);
    }
  }

  // ---------- calls that overlap ----------

  /** A call between its three accesses to the unguarded index: it has read the client to use, or
      it has read the index again in order to advance it. */
  datatype Call = Using(client: nat) | Advancing(loaded: nat)

  datatype State = State(m: nat, rrIdx: nat, calls: map<nat, Call>, selected: seq<nat>)

  datatype Action = Select(id: nat) | Load(id: nat) | Store(id: nat)

  function NewState(m: nat): State {
    State(m, 0, map[], [])
  }

  ghost predicate Enabled(overlap: nat, s: State, a: Action) {
    match a
    case Select(id) => id !in s.calls && |s.calls| < overlap
    case Load(id) => id in s.calls && s.calls[id].Using?
    case Store(id) => id in s.calls && s.calls[id].Advancing?
  }

  ghost function Apply(overlap: nat, s: State, a: Action): State
    requires s.m > 0 && Enabled(overlap, s, a)
  {
    match a
    case Select(id) => s.(calls := s.calls[id := Using(s.rrIdx)], selected := s.selected + [s.rrIdx])
    case Load(id) => s.(calls := s.calls[id := Advancing(s.rrIdx)])
    case Store(id) => s.(rrIdx := (s.calls[id].loaded + 1) % s.m, calls := s.calls - {id})
  }

  /** The actions lead from s to t. */
  ghost predicate Runs(overlap: nat, s: State, run: seq<Action>, t: State)
    requires s.m > 0
    decreases |run|
  {
    if run == [] then t == s
    else Enabled(overlap, s, run[0]) && Runs(overlap, Apply(overlap, s, run[0]), run[1..], t)
  }

  /** Where at most overlap calls at a time can take a new client over m others. */
  ghost predicate CanReach(overlap: nat, m: nat, t: State) {
    m > 0 && exists run :: Runs(overlap, NewState(m), run, t)
  }

  ghost predicate InRange(s: State) {
    s.m > 0 && s.rrIdx < s.m && forall c :: c in s.selected ==> c < s.m
  }

  /** However reads and writes of the index interleave, it stays in range and so does every client
      that is selected. */
  lemma {:induction false} IndexStaysInRange(overlap: nat, s: State, run: seq<Action>, t: State)
    requires InRange(s) && Runs(overlap, s, run, t)
    ensures InRange(t) && t.m == s.m
    decreases |run|
  {
    if run != [] {
      IndexStaysInRange(overlap, Apply(overlap, s, run[0]), run[1..], t);
    }
  }

  /** Each client was selected floor(n/m) or ceil(n/m) times in n calls. */
  ghost predicate Fair(m: nat, selected: seq<nat>)
    requires m > 0
  {
    forall c: nat :: c < m ==> |selected| / m <= Times(selected, c) <= (|selected| + m - 1) / m
  }

  /** Calls went to the clients in turn, and the index is where the next call, or the one in
      progress, finds it. */
  ghost predicate InTurn(s: State) {
    && s.m > 0
    && |s.calls| <= 1
    && (forall k :: 0 <= k < |s.selected| ==> s.selected[k] == k % s.m)
    && (s.calls == map[] ==> s.rrIdx == |s.selected| % s.m)
    && (s.calls != map[] ==> |s.selected| > 0 && s.rrIdx == (|s.selected| - 1) % s.m)
    && (forall id :: id in s.calls && s.calls[id].Advancing? ==> s.calls[id].loaded == s.rrIdx)
  }

  lemma OnlyCall(s: State, id: nat)
    requires |s.calls| <= 1 && id in s.calls
    ensures s.calls == map[id := s.calls[id]]
  {
    SubsetSize({id}, s.calls.Keys);
    assert s.calls.Keys == {id} + (s.calls.Keys - {id});
    assert |s.calls.Keys - {id}| == 0;
  }

  lemma InTurnStep(overlap: nat, s: State, a: Action)
    requires InTurn(s) && Enabled(overlap, s, a) && overlap <= 1
    ensures InTurn(Apply(overlap, s, a))
  {
    if a.Select? {
      assert s.calls == map[];
      assert s.calls[a.id := Using(s.rrIdx)] == map[a.id := Using(s.rrIdx)];
    } else {
      OnlyCall(s, a.id);
      NextIndex(|s.selected| - 1, s.m);
      assert s.calls - {a.id} == map[];
    }
  }

  lemma {:induction false} InTurnRun(overlap: nat, s: State, run: seq<Action>, t: State)
    requires InTurn(s) && Runs(overlap, s, run, t) && overlap <= 1
    ensures InTurn(t) && t.m == s.m
    decreases |run|
  {
    if run != [] {
      InTurnStep(overlap, s, run[0]);
      InTurnRun(overlap, Apply(overlap, s, run[0]), run[1..], t);
    }
  }

  lemma SerialIsFair(overlap: nat, m: nat, t: State)
    requires CanReach(overlap, m, t) && overlap <= 1
    ensures Fair(m, t.selected)
  {
    var run :| Runs(overlap, NewState(m), run, t);
    Quotient(0, m, 0, 0);
    InTurnRun(overlap, NewState(m), run, t);
    forall c: nat | c < m
      ensures |t.selected| / m <= Times(t.selected, c) <= (|t.selected| + m - 1) / m
    {
      RoundRobinFair(t.selected, m, c);
    }
  }

  lemma {:induction false} AllToOne(selected: seq<nat>)
    requires forall c :: c in selected ==> c == 0
    ensures Times(selected, 0) == |selected|
    decreases |selected|
  {
    if selected != [] {
      var front := selected[..|selected| - 1];
      assert forall c :: c in front ==> c in selected;
      AllToOne(front);
      assert selected[|selected| - 1] in selected;
    }
  }

  lemma OneClientIsFair(overlap: nat, t: State)
    requires CanReach(overlap, 1, t)
    ensures Fair(1, t.selected)
  {
    var run :| Runs(overlap, NewState(1), run, t);
    IndexStaysInRange(overlap, NewState(1), run, t);
    AllToOne(t.selected);
  }

  // ---------- starvation ----------

  lemma {:induction false} RunOneMore(overlap: nat, s: State, run: seq<Action>, t: State, a: Action)
    requires s.m > 0 && Runs(overlap, s, run, t) && t.m > 0 && Enabled(overlap, t, a)
    ensures Runs(overlap, s, run + [a], Apply(overlap, t, a))
    decreases |run|
  {
    if run == [] {
      assert run + [a] == [a] && [a][1..] == [];
    } else {
      RunOneMore(overlap, Apply(overlap, s, run[0]), run[1..], t, a);
      TailAppend(run, a);
    }
  }

  /** One more action, whose result is given. */
  lemma Take(overlap: nat, m: nat, s: State, a: Action, t: State)
    requires CanReach(overlap, m, s) && s.m == m && Enabled(overlap, s, a) && t == Apply(overlap, s, a)
    ensures CanReach(overlap, m, t)
  {
    var run :| Runs(overlap, NewState(m), run, s);
    RunOneMore(overlap, NewState(m), run, s, a);
  }

  /** No call is in progress, the index is i and selected is who was selected. */
  function Resting(m: nat, i: nat, selected: seq<nat>): State {
    State(m, i, map[], selected)
  }

  /** A call that has selected advances the index by one from wherever it finds it. */
  lemma Advance(overlap: nat, s: State, id: nat, j: nat)
    requires s.m > 0 && CanReach(overlap, s.m, s) && id in s.calls && s.calls[id].Using? && j == (s.rrIdx + 1) % s.m
    ensures CanReach(overlap, s.m, s.(rrIdx := j, calls := s.calls - {id}))
  {
    var t := s.(calls := s.calls[id := Advancing(s.rrIdx)]);
    Take(overlap, s.m, s, Load(id), t);
    StoreIndex(overlap, t, id, j);
    assert t.calls - {id} == s.calls - {id};
  }

  lemma StoreIndex(overlap: nat, t: State, id: nat, j: nat)
    requires t.m > 0 && CanReach(overlap, t.m, t) && id in t.calls && t.calls[id].Advancing?
    requires j == (t.calls[id].loaded + 1) % t.m
    ensures CanReach(overlap, t.m, t.(rrIdx := j, calls := t.calls - {id}))
  {
    Take(overlap, t.m, t, Store(id), t.(rrIdx := j, calls := t.calls - {id}));
  }

  /** One call on its own. */
  lemma Alone(overlap: nat, m: nat, i: nat, selected: seq<nat>)
    requires overlap >= 1 && CanReach(overlap, m, Resting(m, i, selected))
    ensures CanReach(overlap, m, Resting(m, (i + 1) % m, selected + [i]))
  {
    var s := State(m, i, map[0 := Using(i)], selected + [i]);
    Take(overlap, m, Resting(m, i, selected), Select(0), s);
    Advance(overlap, s, 0, (i + 1) % m);
    assert s.calls - {0} == map[];
  }

  /** Two calls that both select before either advances the index skip the next client. */
  lemma Pair(overlap: nat, m: nat, i: nat, j: nat, selected: seq<nat>)
    requires overlap >= 2 && CanReach(overlap, m, Resting(m, i, selected)) && j == (i + 1) % m
    ensures CanReach(overlap, m, Resting(m, (j + 1) % m, selected + [i, i]))
  {
    var s1 := State(m, i, map[0 := Using(i)], selected + [i]);
    Take(overlap, m, Resting(m, i, selected), Select(0), s1);
    var s2 := State(m, i, map[0 := Using(i), 1 := Using(i)], selected + [i, i]);
    assert selected + [i] + [i] == selected + [i, i] && s1.calls[1 := Using(i)] == s2.calls;
    Take(overlap, m, s1, Select(1), s2);
    PairEnds(overlap, m, i, j, selected + [i, i]);
  }

  lemma PairEnds(overlap: nat, m: nat, i: nat, j: nat, selected: seq<nat>)
    requires CanReach(overlap, m, State(m, i, map[0 := Using(i), 1 := Using(i)], selected)) && j == (i + 1) % m
    ensures CanReach(overlap, m, Resting(m, (j + 1) % m, selected))
  {
    var s := State(m, i, map[0 := Using(i), 1 := Using(i)], selected);
    Advance(overlap, s, 0, j);
    var t := State(m, j, map[1 := Using(i)], selected);
    assert s.calls - {0} == t.calls;
    Advance(overlap, t, 1, (j + 1) % m);
    assert t.calls - {1} == map[];
  }

  lemma TimesAppend(selected: seq<nat>, x: nat, c: nat)
    ensures Times(selected + [x], c) == Times(selected, c) + (if x == c then 1 else 0)
  {
    assert (selected + [x])[..|selected|] == selected;
  }

  /** From index i on, one call at a time up to the last client. */
  lemma {:induction false} ToTheEnd(overlap: nat, m: nat, i: nat, selected: seq<nat>) returns (after: seq<nat>)
    requires overlap >= 1 && 2 <= i < m && CanReach(overlap, m, Resting(m, i, selected))
    ensures CanReach(overlap, m, Resting(m, 0, after))
    ensures Times(after, 0) == Times(selected, 0) && Times(after, 1) == Times(selected, 1)
    ensures |after| == |selected| + m - i
    decreases m - i
  {
    Alone(overlap, m, i, selected);
    TimesAppend(selected, i, 0);
    TimesAppend(selected, i, 1);
    after := selected + [i];
    if i + 1 < m {
      Quotient(i + 1, m, 0, i + 1);
      after := ToTheEnd(overlap, m, i + 1, after);
    } else {
      Quotient(i + 1, m, 1, 0);
    }
  }

  /** One round: a pair at the first client, then one call at a time from the third on. */
  lemma UnfairRound(overlap: nat, m: nat, before: seq<nat>) returns (selected: seq<nat>)
    requires overlap >= 2 && m >= 2 && CanReach(overlap, m, Resting(m, 0, before))
    ensures CanReach(overlap, m, Resting(m, 0, selected)) && |selected| == |before| + m
    ensures Times(selected, 0) == Times(before, 0) + 2 && Times(selected, 1) == Times(before, 1)
  {
    Quotient(1, m, 0, 1);
    Pair(overlap, m, 0, 1, before);
    selected := before + [0, 0];
    assert selected == before + [0] + [0];
    TimesAppend(before, 0, 0);
    TimesAppend(before, 0, 1);
    TimesAppend(before + [0], 0, 0);
    TimesAppend(before + [0], 0, 1);
    if m > 2 {
      Quotient(2, m, 0, 2);
      selected := ToTheEnd(overlap, m, 2, selected);
    }
  }

  /** Two calls that overlap once per round are enough to starve a client: after any number of
      rounds it was never selected, and another client twice per round. */
  lemma {:induction false} OverlapStarves(overlap: nat, m: nat, rounds: nat) returns (selected: seq<nat>)
    requires overlap >= 2 && m >= 2
    ensures CanReach(overlap, m, Resting(m, 0, selected))
    ensures |selected| == rounds * m && Times(selected, 0) == 2 * rounds && Times(selected, 1) == 0
  {
    if rounds == 0 {
      selected := [];
      assert Runs(overlap, NewState(m), [], Resting(m, 0, []));
    } else {
      var before := OverlapStarves(overlap, m, rounds - 1);
      selected := UnfairRound(overlap, m, before);
      assert rounds * m == (rounds - 1) * m + m;
    }
  }

  lemma OverlapIsUnfair(overlap: nat, m: nat) returns (t: State)
    requires overlap >= 2 && m >= 2
    ensures CanReach(overlap, m, t) && !Fair(m, t.selected)
  {
    var selected := OverlapStarves(overlap, m, 1);
    t := Resting(m, 0, selected);
    Quotient(m, m, 1, 0);
  }

  /** Round robin over m clients is fair in every run with at most overlap calls at a time if and
      only if there is one client or calls do not overlap. */
  lemma FairnessCondition(overlap: nat, m: nat)
    requires m > 0
    ensures (forall t :: CanReach(overlap, m, t) ==> Fair(m, t.selected)) <==> m == 1 || overlap <= 1
  {
    if m == 1 || overlap <= 1 {
      forall t | CanReach(overlap, m, t)
        ensures Fair(m, t.selected)
      {
        if m == 1 {
          OneClientIsFair(overlap, t);
        } else {
          SerialIsFair(overlap, m, t);
        }
      }
    } else {
      var t := OverlapIsUnfair(overlap, m);
      assert CanReach(overlap, m, t);
    }
  }
}
