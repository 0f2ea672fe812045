/** The historical-connections policy of internal/network/sharding.go over TLS clients whose stats
    are updated later, by a goroutine of their own (internal/network/client.go). A call
    reads a candidate's count and then its own client's, each under a lock of its own, while other
    calls are recorded. Calls that select by another policy take the client they like. */
module Historical {
  import opened Collections
  import opened Wrappers

  type CallId = nat

  /** A call goes through the candidates, next is the one it looks at next; while it compares it
      has read that candidate's count but not yet its client's. Then it dials, and then its outcome
      waits to be recorded. */
  datatype Progress =
    | Scanning(next: nat)
    | Comparing(next: nat, count: nat)
    | Running
    | Succeeded
    | Failed

  /** A call and its client, which is the best candidate so far while it scans. */
  datatype Call = Call(client: nat, progress: Progress)

  /** Recorded stats per client, the true counts of what each delivered and refused, and the calls
      not yet in the stats. */
  datatype State = State(
    successful: seq<nat>,
    failed: seq<nat>,
    delivered: seq<nat>,
    refused: seq<nat>,
    finished: nat,
    calls: map<CallId, Call>)

  datatype Action =
    | Select(id: CallId, client: nat)
    | Start(id: CallId)
    | Read(id: CallId)
    | Compare(id: CallId)
    | Dial(id: CallId)
    | Finish(id: CallId, ok: bool)
    | Record(id: CallId)

  function NewState(m: nat): State {
    State(seq(m, _ => 0), seq(m, _ => 0), seq(m, _ => 0), seq(m, _ => 0), 0, map[])
  }

  /** The first client with the fewest recorded successes. */
  ghost predicate IsFewest(counts: seq<nat>, i: nat) {
    && i < |counts|
    && (forall d :: 0 <= d < |counts| ==> counts[i] <= counts[d])
    && (forall d :: 0 <= d < i ==> counts[i] < counts[d])
  }

  /** The selection loop: a running minimum that only a strictly smaller count replaces. */
  method SelectFewest(counts: seq<nat>) returns (client: nat)
    requires |counts| > 0
    ensures IsFewest(counts, client)
  {
    client := 0;
    for i := 0 to |counts|
      invariant client < |counts| && (i == 0 ==> client == 0) && (i > 0 ==> client < i)
      invariant forall d :: 0 <= d < i ==> counts[client] <= counts[d]
      invariant forall d :: 0 <= d < client ==> counts[client] < counts[d]
    {
      if counts[i] < counts[client] {
        client := i;
      }
    }
  }

  /** The same counts over the same number of clients, and calls that go through them. */
  ghost predicate WellFormed(s: State) {
    && 0 < |s.successful| == |s.failed| == |s.delivered| == |s.refused|
    && (forall id :: id in s.calls ==> WellFormedCall(s.successful, s.calls[id]))
  }

  /** A call's client is one that it has seen, and a count it has read can only have grown. */
  predicate WellFormedCall(counts: seq<nat>, call: Call) {
    && call.client < Seen(|counts|, call) <= |counts|
    && (call.progress.Comparing? ==> call.progress.next < |counts| && call.progress.count <= counts[call.progress.next])
  }

  /** How many of m candidates the call is done with. */
  function Seen(m: nat, call: Call): nat {
    if call.progress.Scanning? || call.progress.Comparing? then call.progress.next else m
  }

  predicate Over(call: Call) {
    call.progress.Succeeded? || call.progress.Failed?
  }

  ghost predicate Enabled(limit: nat, s: State, a: Action) {
    match a
    case Select(id, client) => id !in s.calls && |s.calls| < limit && client < |s.successful|
    case Start(id) => id !in s.calls && |s.calls| < limit
    case Read(id) => id in s.calls && s.calls[id].progress.Scanning? && s.calls[id].progress.next < |s.successful|
    case Compare(id) => id in s.calls && s.calls[id].progress.Comparing?
    case Dial(id) => id in s.calls && s.calls[id].progress == Scanning(|s.successful|)
    case Finish(id, _) => id in s.calls && s.calls[id].progress.Running?
    case Record(id) => id in s.calls && Over(s.calls[id])
  }

  ghost function Apply(limit: nat, s: State, a: Action): State
    requires WellFormed(s) && Enabled(limit, s, a)
  {
    match a
    case Select(id, client) => s.(calls := s.calls[id := Call(client, Running)])
    case Start(id) => s.(calls := s.calls[id := Call(0, Scanning(1))])
    case Read(id) =>
      var c, i := s.calls[id].client, s.calls[id].progress.next;
      s.(calls := s.calls[id := Call(c, Comparing(i, s.successful[i]))])
    case Compare(id) =>
      assert WellFormedCall(s.successful, s.calls[id]);
      var c, i, count := s.calls[id].client, s.calls[id].progress.next, s.calls[id].progress.count;
      s.(calls := s.calls[id := Call(if count < s.successful[c] then i else c, Scanning(i + 1))])
    case Dial(id) => s.(calls := s.calls[id := Call(s.calls[id].client, Running)])
    case Finish(id, ok) =>
      assert WellFormedCall(s.successful, s.calls[id]);
      var c := s.calls[id].client;
      if ok then
        s.(delivered := s.delivered[c := s.delivered[c] + 1], finished := s.finished + 1,
           calls := s.calls[id := Call(c, Succeeded)])
      else
        s.(refused := s.refused[c := s.refused[c] + 1], finished := s.finished + 1,
           calls := s.calls[id := Call(c, Failed)])
    case Record(id) =>
      assert WellFormedCall(s.successful, s.calls[id]);
      var c := s.calls[id].client;
      if s.calls[id].progress.Succeeded? then
        s.(successful := s.successful[c := s.successful[c] + 1], calls := s.calls - {id})
      else
        s.(failed := s.failed[c := s.failed[c] + 1], calls := s.calls - {id})
  }

  lemma WellFormedStep(limit: nat, s: State, a: Action)
    requires WellFormed(s) && Enabled(limit, s, a)
    ensures WellFormed(Apply(limit, s, a)) && |Apply(limit, s, a).successful| == |s.successful|
  {
    var t := Apply(limit, s, a);
    forall id | id in t.calls
      ensures WellFormedCall(t.successful, t.calls[id])
    {
      if id in s.calls {
        assert WellFormedCall(s.successful, s.calls[id]);
      }
    }
  }

  ghost predicate Legal(limit: nat, s: State, run: seq<Action>)
    requires WellFormed(s)
    decreases |run|
  {
    run == [] ||
    (Enabled(limit, s, run[0]) && (WellFormedStep(limit, s, run[0]); Legal(limit, Apply(limit, s, run[0]), run[1..])))
  }

  ghost function After(limit: nat, s: State, run: seq<Action>): (t: State)
    requires WellFormed(s) && Legal(limit, s, run)
    ensures WellFormed(t) && |t.successful| == |s.successful|
    decreases |run|
  {
    if run == [] then s else (WellFormedStep(limit, s, run[0]); After(limit, Apply(limit, s, run[0]), run[1..]))
  }

  /** No action of the run selects a client in another way. */
  predicate ByPolicy(run: seq<Action>) {
    forall i :: 0 <= i < |run| ==> !run[i].Select?
  }

  // ---------- where calls are counted ----------

  /** Calls on c that delivered and are not yet recorded. */
  ghost function DeliveredOn(s: State, c: nat): set<CallId> {
    set id | id in s.calls && s.calls[id].client == c && s.calls[id].progress.Succeeded?
  }

  /** Calls on c that failed and are not yet recorded. */
  ghost function RefusedOn(s: State, c: nat): set<CallId> {
    set id | id in s.calls && s.calls[id].client == c && s.calls[id].progress.Failed?
  }

  /** Calls that are over and not yet recorded. */
  ghost function Unrecorded(s: State): set<CallId> {
    set id | id in s.calls && Over(s.calls[id])
  }

  function Total(counts: seq<nat>): nat {
    if counts == [] then 0 else Total(counts[..|counts| - 1]) + counts[|counts| - 1]
  }

  /** What holds whichever clients are selected. */
  ghost predicate Inv(limit: nat, s: State) {
    && WellFormed(s)
    && |s.calls| <= limit
    && (forall c :: 0 <= c < |s.delivered| ==> s.delivered[c] == s.successful[c] + |DeliveredOn(s, c)|)
    && (forall c :: 0 <= c < |s.refused| ==> s.refused[c] == s.failed[c] + |RefusedOn(s, c)|)
    && Total(s.successful) + Total(s.failed) + |Unrecorded(s)| == s.finished
  }

  lemma {:induction false} TotalUp(counts: seq<nat>, c: nat)
    requires c < |counts|
    ensures Total(counts[c := counts[c] + 1]) == Total(counts) + 1
    decreases |counts|
  {
    var n := |counts| - 1;
    var next := counts[c := counts[c] + 1];
    if c == n {
      assert next[..n] == counts[..n];
    } else {
      TotalUp(counts[..n], c);
      assert next[..n] == counts[..n][c := counts[..n][c] + 1];
    }
  }

  lemma {:induction false} TotalZero(counts: seq<nat>)
    requires forall i :: 0 <= i < |counts| ==> counts[i] == 0
    ensures Total(counts) == 0
    decreases |counts|
  {
    if counts != [] {
      TotalZero(counts[..|counts| - 1]);
    }
  }

  /** How the sets of calls change with an action. */
  lemma DeliveredAfter(limit: nat, s: State, a: Action, c: nat)
    requires WellFormed(s) && Enabled(limit, s, a)
    ensures var t := Apply(limit, s, a);
            match a
            case Finish(id, ok) =>
              && id !in DeliveredOn(s, c)
              && DeliveredOn(t, c) == DeliveredOn(s, c) + (if ok && c == s.calls[id].client then {id} else {})
            case Record(id) =>
              && DeliveredOn(t, c) == DeliveredOn(s, c) - {id}
              && (id in DeliveredOn(s, c) <==> s.calls[id].client == c && s.calls[id].progress.Succeeded?)
            case _ => DeliveredOn(t, c) == DeliveredOn(s, c)
  {
  }

  lemma RefusedAfter(limit: nat, s: State, a: Action, c: nat)
    requires WellFormed(s) && Enabled(limit, s, a)
    ensures var t := Apply(limit, s, a);
            match a
            case Finish(id, ok) =>
              && id !in RefusedOn(s, c)
              && RefusedOn(t, c) == RefusedOn(s, c) + (if !ok && c == s.calls[id].client then {id} else {})
            case Record(id) =>
              && RefusedOn(t, c) == RefusedOn(s, c) - {id}
              && (id in RefusedOn(s, c) <==> s.calls[id].client == c && s.calls[id].progress.Failed?)
            case _ => RefusedOn(t, c) == RefusedOn(s, c)
  {
  }

  lemma UnrecordedAfter(limit: nat, s: State, a: Action)
    requires WellFormed(s) && Enabled(limit, s, a)
    ensures var t := Apply(limit, s, a);
            match a
            case Finish(id, _) => id !in Unrecorded(s) && Unrecorded(t) == Unrecorded(s) + {id}
            case Record(id) => id in Unrecorded(s) && Unrecorded(t) == Unrecorded(s) - {id}
            case _ => Unrecorded(t) == Unrecorded(s)
  {
  }

  lemma OverlapStep(limit: nat, s: State, a: Action)
    requires WellFormed(s) && |s.calls| <= limit && Enabled(limit, s, a)
    ensures |Apply(limit, s, a).calls| <= limit
  {
    var t := Apply(limit, s, a);
    if a.Select? || a.Start? {
      assert t.calls.Keys == s.calls.Keys + {a.id};
      assert |t.calls.Keys| == |s.calls.Keys| + 1;
    } else {
      SubsetSize(t.calls.Keys, s.calls.Keys);
    }
  }

  lemma FinishedStep(limit: nat, s: State, a: Action)
    requires Inv(limit, s) && Enabled(limit, s, a)
    ensures var t := Apply(limit, s, a); Total(t.successful) + Total(t.failed) + |Unrecorded(t)| == t.finished
  {
    UnrecordedAfter(limit, s, a);
    if a.Record? {
      RecordedTotals(limit, s, a);
    }
  }

  lemma RecordedTotals(limit: nat, s: State, a: Action)
    requires WellFormed(s) && Enabled(limit, s, a) && a.Record?
    ensures var t := Apply(limit, s, a);
            Total(t.successful) + Total(t.failed) == Total(s.successful) + Total(s.failed) + 1
  {
    if s.calls[a.id].progress.Succeeded? {
      TotalUp(s.successful, s.calls[a.id].client);
    } else {
      TotalUp(s.failed, s.calls[a.id].client);
    }
  }

  lemma DeliveredStep(limit: nat, s: State, a: Action, c: nat)
    requires Inv(limit, s) && Enabled(limit, s, a) && c < |s.delivered|
    ensures var t := Apply(limit, s, a);
            |t.delivered| == |s.delivered| && t.delivered[c] == t.successful[c] + |DeliveredOn(t, c)|
  {
    DeliveredAfter(limit, s, a, c);
  }

  lemma RefusedStep(limit: nat, s: State, a: Action, c: nat)
    requires Inv(limit, s) && Enabled(limit, s, a) && c < |s.refused|
    ensures var t := Apply(limit, s, a);
            |t.refused| == |s.refused| == |t.failed| && t.refused[c] == t.failed[c] + |RefusedOn(t, c)|
  {
    RefusedAfter(limit, s, a, c);
  }

  lemma InvStep(limit: nat, s: State, a: Action)
    requires Inv(limit, s) && Enabled(limit, s, a)
    ensures Inv(limit, Apply(limit, s, a))
  {
    var t := Apply(limit, s, a);
    WellFormedStep(limit, s, a);
    OverlapStep(limit, s, a);
    FinishedStep(limit, s, a);
    forall c: nat | c < |s.delivered|
      ensures t.delivered[c] == t.successful[c] + |DeliveredOn(t, c)|
    {
      DeliveredStep(limit, s, a, c);
    }
    forall c: nat | c < |s.refused|
      ensures t.refused[c] == t.failed[c] + |RefusedOn(t, c)|
    {
      RefusedStep(limit, s, a, c);
    }
  }

  lemma {:induction false} InvRun(limit: nat, s: State, run: seq<Action>)
    requires Inv(limit, s) && Legal(limit, s, run)
    ensures Inv(limit, After(limit, s, run))
    decreases |run|
  {
    if run != [] {
      InvStep(limit, s, run[0]);
      InvRun(limit, Apply(limit, s, run[0]), run[1..]);
    }
  }

  ghost predicate Reaches(limit: nat, m: nat, run: seq<Action>, s: State) {
    WellFormed(NewState(m)) && Legal(limit, NewState(m), run) && s == After(limit, NewState(m), run)
  }

  lemma InitialInv(limit: nat, m: nat)
    requires m > 0
    ensures Inv(limit, NewState(m))
  {
    var s0 := NewState(m);
    TotalZero(s0.successful);
    TotalZero(s0.failed);
    assert forall c :: DeliveredOn(s0, c) == {} && RefusedOn(s0, c) == {};
    assert Unrecorded(s0) == {};
  }

  // ---------- stats ----------

  /** Which client call id went for in the run, if another policy selected it. */
  function SelectedIn(run: seq<Action>, id: CallId, before: Option<nat>): Option<nat> {
    if run == [] then before
    else
      SelectedIn(run[1..], id,
                 match run[0]
                 case Select(id', client) => if id' == id then Some(client) else before
                 case Start(id') => if id' == id then None else before
                 case _ => before)
  }

  /** The call is on the client that it was selected for. */
  lemma {:induction false} SelectedIsUsed(limit: nat, s: State, run: seq<Action>, id: CallId, before: Option<nat>)
    requires WellFormed(s) && Legal(limit, s, run)
    requires before.Some? && id in s.calls ==> s.calls[id].client == before.value && Selected(s.calls[id])
    ensures var t, c := After(limit, s, run), SelectedIn(run, id, before);
            c.Some? && id in t.calls ==> t.calls[id].client == c.value && Selected(t.calls[id])
    decreases |run|
  {
    if run != [] {
      WellFormedStep(limit, s, run[0]);
      var next := match run[0]
                  case Select(id', client) => if id' == id then Some(client) else before
                  case Start(id') => if id' == id then None else before
                  case _ => before;
      SelectedIsUsed(limit, Apply(limit, s, run[0]), run[1..], id, next);
    }
  }

  predicate Selected(call: Call) {
    call.progress.Running? || Over(call)
  }

  /** How often client c delivered and refused during the run. */
  ghost function Outcomes(limit: nat, s: State, run: seq<Action>, c: nat, ok: bool): nat
    requires WellFormed(s) && Legal(limit, s, run)
    decreases |run|
  {
    if run == [] then 0
    else
      WellFormedStep(limit, s, run[0]);
      var a := run[0];
      (if a.Finish? && a.ok == ok && a.id in s.calls && s.calls[a.id].client == c then 1 else 0)
      + Outcomes(limit, Apply(limit, s, a), run[1..], c, ok)
  }

  lemma {:induction false} CountsAreOutcomes(limit: nat, s: State, run: seq<Action>, c: nat)
    requires WellFormed(s) && Legal(limit, s, run) && c < |s.successful|
    ensures var t := After(limit, s, run);
            && t.delivered[c] == s.delivered[c] + Outcomes(limit, s, run, c, true)
            && t.refused[c] == s.refused[c] + Outcomes(limit, s, run, c, false)
    decreases |run|
  {
    if run != [] {
      WellFormedStep(limit, s, run[0]);
      CountsAreOutcomes(limit, Apply(limit, s, run[0]), run[1..], c);
    }
  }

  /** Whichever clients are selected, each client's recorded successes and failures are those of its
      own calls in the run, less those still waiting to be recorded; so all finished calls are in
      the stats once, or wait. */
  lemma StatsConservation(limit: nat, m: nat, run: seq<Action>, s: State)
    requires Reaches(limit, m, run, s)
    ensures |s.successful| == |s.failed| == m
    ensures forall c: nat :: c < m ==>
              && s.successful[c] + |DeliveredOn(s, c)| == Outcomes(limit, NewState(m), run, c, true)
              && s.failed[c] + |RefusedOn(s, c)| == Outcomes(limit, NewState(m), run, c, false)
    ensures Total(s.successful) + Total(s.failed) + |Unrecorded(s)| == s.finished
  {
    InitialInv(limit, m);
    InvRun(limit, NewState(m), run);
    forall c: nat | c < m
      ensures s.successful[c] + |DeliveredOn(s, c)| == Outcomes(limit, NewState(m), run, c, true)
      ensures s.failed[c] + |RefusedOn(s, c)| == Outcomes(limit, NewState(m), run, c, false)
    {
      CountsAreOutcomes(limit, NewState(m), run, c);
    }
  }

  // ---------- runs by the policy ----------

  /** Some run by the policy over m clients leads to s. */
  ghost predicate CanReach(limit: nat, m: nat, s: State) {
    exists run :: Reaches(limit, m, run, s) && ByPolicy(run)
  }

  lemma {:induction false} RunOneMore(limit: nat, s: State, run: seq<Action>, a: Action)
    requires WellFormed(s) && Legal(limit, s, run) && Enabled(limit, After(limit, s, run), a)
    ensures Legal(limit, s, run + [a]) && After(limit, s, run + [a]) == Apply(limit, After(limit, s, run), a)
    decreases |run|
  {
    if run == [] {
      assert run + [a] == [a] && [a][1..] == [];
      WellFormedStep(limit, s, a);
    } else {
      WellFormedStep(limit, s, run[0]);
      RunOneMore(limit, Apply(limit, s, run[0]), run[1..], a);
      TailAppend(run, a);
    }
  }

  /** One more action, whose result is given. */
  lemma Take(limit: nat, m: nat, s: State, a: Action, t: State)
    requires CanReach(limit, m, s) && WellFormed(s) && Enabled(limit, s, a) && !a.Select? && t == Apply(limit, s, a)
    ensures CanReach(limit, m, t) && WellFormed(t)
  {
    var run :| Reaches(limit, m, run, s) && ByPolicy(run);
    RunOneMore(limit, NewState(m), run, a);
    WellFormedStep(limit, s, a);
    assert Reaches(limit, m, run + [a], t) && ByPolicy(run + [a]);
  }

  lemma Reached(limit: nat, m: nat, s: State)
    requires CanReach(limit, m, s)
    ensures Inv(limit, s) && |s.successful| == m
  {
    var run :| Reaches(limit, m, run, s) && ByPolicy(run);
    InitialInv(limit, m);
    InvRun(limit, NewState(m), run);
  }

  /** In no run by the policy are a client's true successes more than bound ahead of another's. */
  ghost predicate SpreadWithin(limit: nat, m: nat, bound: nat) {
    forall s, c, d :: CanReach(limit, m, s) && 0 <= c < |s.delivered| && 0 <= d < |s.delivered| ==>
      s.delivered[c] <= s.delivered[d] + bound
  }

  /** The same of the recorded successes. */
  ghost predicate RecordedWithin(limit: nat, m: nat, bound: nat) {
    forall s, c, d :: CanReach(limit, m, s) && 0 <= c < |s.successful| && 0 <= d < |s.successful| ==>
      s.successful[c] <= s.successful[d] + bound
  }

  /** Whatever c has delivered can be recorded before anything else happens. */
  lemma {:induction false} RecordAll(limit: nat, m: nat, s: State, c: nat) returns (t: State)
    requires CanReach(limit, m, s) && Inv(limit, s) && c < |s.successful|
    ensures CanReach(limit, m, t) && |t.successful| == |s.successful| && t.successful[c] == s.delivered[c]
    ensures forall d :: 0 <= d < |s.successful| && d != c ==> t.successful[d] == s.successful[d]
    decreases |DeliveredOn(s, c)|
  {
    t := s;
    if DeliveredOn(s, c) != {} {
      var id :| id in DeliveredOn(s, c);
      var u := Apply(limit, s, Record(id));
      Take(limit, m, s, Record(id), u);
      InvStep(limit, s, Record(id));
      DeliveredAfter(limit, s, Record(id), c);
      t := RecordAll(limit, m, u, c);
    }
  }

  /** So a bound on what is recorded is a bound on the truth. */
  lemma RecordedIsEnough(limit: nat, m: nat, bound: nat)
    requires RecordedWithin(limit, m, bound)
    ensures SpreadWithin(limit, m, bound)
  {
    forall s, c: nat, d: nat | CanReach(limit, m, s) && c < |s.delivered| && d < |s.delivered|
      ensures s.delivered[c] <= s.delivered[d] + bound
    {
      Reached(limit, m, s);
      if c != d {
        var t := RecordAll(limit, m, s, c);
        assert t.successful[c] <= t.successful[d] + bound;
      }
    }
  }

  // ---------- comparisons that are not interrupted ----------

  /** Whenever the run compares, the count it has read of the candidate is still the candidate's
      count; that is so if nothing is recorded between the two reads of a comparison. */
  ghost predicate StillCurrent(limit: nat, s: State, run: seq<Action>)
    requires WellFormed(s) && Legal(limit, s, run)
    decreases |run|
  {
    run == [] ||
    (Current(s, run[0]) && (WellFormedStep(limit, s, run[0]); StillCurrent(limit, Apply(limit, s, run[0]), run[1..])))
  }

  ghost predicate Current(s: State, a: Action)
    requires WellFormed(s)
  {
    a.Compare? && a.id in s.calls && s.calls[a.id].progress.Comparing? ==>
      assert WellFormedCall(s.successful, s.calls[a.id]);
      s.calls[a.id].progress.count == s.successful[s.calls[a.id].progress.next]
  }

  /** Calls done with d whose client is ahead of d by t or more. */
  ghost function Ahead(s: State, d: nat, t: int): set<CallId>
    requires WellFormed(s) && d < |s.successful|
  {
    set id | id in s.calls && IsAhead(s.successful, s.calls[id], d, t)
  }

  predicate IsAhead(counts: seq<nat>, call: Call, d: nat, t: int)
    requires d < |counts|
  {
    d < Seen(|counts|, call) && call.client < |counts| && counts[call.client] >= counts[d] + t
  }

  /** However far calls are ahead of d, there are few enough of them left to get further ahead. */
  ghost predicate Limited(limit: nat, s: State, d: nat, t: int)
    requires WellFormed(s) && d < |s.successful|
  {
    t >= 1 && Ahead(s, d, t) != {} ==> |Ahead(s, d, t)| + t <= limit
  }

  ghost predicate Spread(limit: nat, s: State)
    requires WellFormed(s)
  {
    && (forall d: nat, t: int :: d < |s.successful| ==> Limited(limit, s, d, t))
    && (forall c, d :: 0 <= c < |s.successful| && 0 <= d < |s.successful| ==>
          s.successful[c] <= s.successful[d] + limit)
  }

  /** Scanning takes no call further ahead. */
  lemma AheadElsewhere(limit: nat, s: State, a: Action, d: nat, t: int)
    requires WellFormed(s) && Enabled(limit, s, a) && !a.Select? && !a.Record? && d < |s.successful| && t >= 1
    requires Current(s, a) && WellFormed(Apply(limit, s, a))
    ensures Ahead(Apply(limit, s, a), d, t) <= Ahead(s, d, t)
  {
    var u := Apply(limit, s, a);
    forall id | id in Ahead(u, d, t)
      ensures id in Ahead(s, d, t)
    {
      if id in s.calls {
        assert WellFormedCall(s.successful, s.calls[id]);
      }
    }
  }

  /** A success recorded for c takes the calls on c one further ahead, less the recorded one. */
  lemma AheadAtRecord(limit: nat, s: State, a: Action, d: nat, t: int)
    requires WellFormed(s) && |s.calls| <= limit && Enabled(limit, s, a) && a.Record? && d < |s.successful|
    requires WellFormed(Apply(limit, s, a)) && |Apply(limit, s, a).successful| == |s.successful|
    requires Limited(limit, s, d, t) && Limited(limit, s, d, t - 1)
    ensures Limited(limit, Apply(limit, s, a), d, t)
  {
    var u, c := Apply(limit, s, a), s.calls[a.id].client;
    var before, after := Ahead(s, d, t), Ahead(u, d, t);
    if t >= 1 {
      if after <= before {
        SubsetSize(after, before);
      } else if t == 1 {
        assert after <= s.calls.Keys - {a.id};
        SubsetSize(after, s.calls.Keys - {a.id});
      } else {
        var lower := Ahead(s, d, t - 1);
        assert WellFormedCall(s.successful, s.calls[a.id]);
        assert after <= lower - {a.id} && a.id in lower;
        SubsetSize(after, lower - {a.id});
      }
    }
  }

  lemma LimitedStep(limit: nat, s: State, a: Action, d: nat, t: int)
    requires WellFormed(s) && |s.calls| <= limit && Spread(limit, s) && Enabled(limit, s, a) && !a.Select?
    requires d < |s.successful| && Current(s, a)
    ensures var u := Apply(limit, s, a); WellFormed(u) && d < |u.successful| && Limited(limit, u, d, t)
  {
    assert Limited(limit, s, d, t) && Limited(limit, s, d, t - 1);
    WellFormedStep(limit, s, a);
    if a.Record? {
      AheadAtRecord(limit, s, a, d, t);
    } else if t >= 1 {
      AheadElsewhere(limit, s, a, d, t);
      SubsetSize(Ahead(Apply(limit, s, a), d, t), Ahead(s, d, t));
    }
  }

  /** The count that grows was not ahead by the whole limit. */
  lemma CountsStep(limit: nat, s: State, a: Action, c: nat, d: nat)
    requires WellFormed(s) && |s.calls| <= limit && Spread(limit, s) && Enabled(limit, s, a)
    requires c < |s.successful| && d < |s.successful|
    ensures var t := Apply(limit, s, a);
            c < |t.successful| && d < |t.successful| && t.successful[c] <= t.successful[d] + limit
  {
    if a.Record? && c == s.calls[a.id].client && c != d {
      var t := s.successful[c] as int - s.successful[d] as int;
      SubsetSize({a.id}, s.calls.Keys);
      assert a.id in Ahead(s, d, t);
      assert Limited(limit, s, d, t);
      SubsetSize({a.id}, Ahead(s, d, t));
    }
  }

  lemma SpreadStep(limit: nat, s: State, a: Action)
    requires Inv(limit, s) && Spread(limit, s) && Enabled(limit, s, a) && !a.Select? && Current(s, a)
    ensures WellFormed(Apply(limit, s, a)) && Spread(limit, Apply(limit, s, a))
  {
    var t := Apply(limit, s, a);
    WellFormedStep(limit, s, a);
    forall d: nat, k: int | d < |t.successful|
      ensures Limited(limit, t, d, k)
    {
      LimitedStep(limit, s, a, d, k);
    }
    forall c: nat, d: nat | c < |t.successful| && d < |t.successful|
      ensures t.successful[c] <= t.successful[d] + limit
    {
      CountsStep(limit, s, a, c, d);
    }
  }

  lemma {:induction false} SpreadRun(limit: nat, s: State, run: seq<Action>)
    requires Inv(limit, s) && Spread(limit, s) && Legal(limit, s, run) && ByPolicy(run) && StillCurrent(limit, s, run)
    ensures Inv(limit, After(limit, s, run)) && Spread(limit, After(limit, s, run))
    decreases |run|
  {
    if run != [] {
      InvStep(limit, s, run[0]);
      SpreadStep(limit, s, run[0]);
      SpreadRun(limit, Apply(limit, s, run[0]), run[1..]);
    }
  }

  /** Deliveries that are not recorded yet do not add to the spread. */
  lemma DeliveredSpread(limit: nat, s: State, c: nat, d: nat)
    requires Inv(limit, s) && Spread(limit, s) && c < |s.successful| && d < |s.successful|
    ensures s.delivered[c] <= s.delivered[d] + limit
  {
    var t := s.successful[c] as int - s.successful[d] as int;
    if t >= 1 {
      assert DeliveredOn(s, c) <= Ahead(s, d, t);
      SubsetSize(DeliveredOn(s, c), Ahead(s, d, t));
      assert Limited(limit, s, d, t);
    } else {
      SubsetSize(DeliveredOn(s, c), s.calls.Keys);
    }
  }

  /** If at most limit calls are ever in progress or not yet in the stats, and nothing is recorded
      for a candidate between the two reads of a comparison, the clients' true success counts never
      differ by more than limit, whatever fails and however calls interleave otherwise. */
  lemma UninterruptedSpread(limit: nat, m: nat, run: seq<Action>, s: State, c: nat, d: nat)
    requires Reaches(limit, m, run, s) && ByPolicy(run) && StillCurrent(limit, NewState(m), run)
    requires c < |s.delivered| && d < |s.delivered|
    ensures s.delivered[c] <= s.delivered[d] + limit
  {
    InitialInv(limit, m);
    SpreadRun(limit, NewState(m), run);
    DeliveredSpread(limit, s, c, d);
  }
}
