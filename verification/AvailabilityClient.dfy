/** AvailabilityShardedClient of internal/network/sharding.go as an object, for calls that do not
    overlap. The object carries the state of Availability that it stands for, and a round of Conn
    is shown to take that state through steps of the balancer. */
module AvailabilityClients {
  import opened Time
  import opened Wrappers
  import opened Availability
  import opened AvailabilityBackoff
  import opened AvailabilityExact

  /** One call at a time, which tests each record with the clock reading it was read at. */
  const SERIAL := Limits(1, 0)

  /** Some run of the serial balancer leads from s to t. */
  ghost predicate Steps(s: State, t: State) {
    WellFormed(s) && exists run :: Legal(SERIAL, s, run) && After(SERIAL, s, run) == t
  }

  lemma NoStep(s: State)
    requires WellFormed(s)
    ensures Steps(s, s)
  {
    assert Legal(SERIAL, s, []) && After(SERIAL, s, []) == s;
  }

  /** One more action, whose result is given. */
  lemma OneStep(s0: State, s: State, a: Action, t: State)
    requires Steps(s0, s) && WellFormed(s) && Enabled(SERIAL, s, a) && t == Apply(SERIAL, s, a)
    ensures Steps(s0, t) && WellFormed(t)
  {
    var run :| Legal(SERIAL, s0, run) && After(SERIAL, s0, run) == s;
    WellFormedStep(SERIAL, s, a);
    RunOneMore(SERIAL, s0, run, a);
  }

  lemma StepsReach(s: State, t: State)
    requires CanReach(SERIAL, s) && Steps(s, t)
    ensures CanReach(SERIAL, t)
  {
    var run :| Legal(SERIAL, s, run) && After(SERIAL, s, run) == t;
    RunReaches(s, run);
  }

  lemma {:induction false} RunReaches(s: State, run: seq<Action>)
    requires CanReach(SERIAL, s) && WellFormed(s) && Legal(SERIAL, s, run)
    ensures CanReach(SERIAL, After(SERIAL, s, run))
    decreases |run|
  {
    if run != [] {
      Take(SERIAL, s, run[0], Apply(SERIAL, s, run[0]));
      RunReaches(Apply(SERIAL, s, run[0]), run[1..]);
    }
  }

  /** Call 0 is the only one, and about to scan. */
  ghost predicate Scans(s: State) {
    WellFormed(s) && s.calls.Keys == {0} && Idle(s.calls[0])
  }

  /** The clock does not go back from now to any of the readings. */
  predicate Forward(now: int, readings: seq<int>) {
    && (forall i :: 0 <= i < |readings| ==> now <= readings[i])
    && (forall i, j :: 0 <= i < j < |readings| ==> readings[i] <= readings[j])
  }

  /** What a scan has seen after the first i readings. */
  ghost function ScanOf(s: State, readings: seq<int>, i: nat): seq<Seen>
    requires i <= |readings| == |s.clients| == |s.history|
  {
    seq(i, j requires 0 <= j < i => Seen(j, s.clients[j], |s.history[j]|, readings[j]))
  }

  ghost function Scanned(s: State, readings: seq<int>, i: nat): State
    requires Scans(s) && i <= |readings| == |s.clients|
  {
    s.(now := if i == 0 then s.now else readings[i - 1],
       calls := s.calls[0 := s.calls[0].(tested := ScanOf(s, readings, i))])
  }

  /** The scan is a run of Read and Test, one pair for each client. */
  lemma {:induction false} ScanIsRun(s: State, readings: seq<int>, i: nat)
    requires Scans(s) && i <= |readings| == |s.clients| && Forward(s.now, readings)
    ensures Steps(s, Scanned(s, readings, i)) && WellFormed(Scanned(s, readings, i))
  {
    if i == 0 {
      NoStep(s);
      assert ScanOf(s, readings, 0) == [];
      assert s.calls[0 := s.calls[0].(tested := [])] == s.calls;
    } else {
      ScanIsRun(s, readings, i - 1);
      ReadAndTest(s, readings, i - 1);
    }
  }

  lemma ReadAndTest(s: State, readings: seq<int>, i: nat)
    requires Scans(s) && i < |readings| == |s.clients| && Forward(s.now, readings)
    requires Steps(s, Scanned(s, readings, i)) && WellFormed(Scanned(s, readings, i))
    ensures Steps(s, Scanned(s, readings, i + 1)) && WellFormed(Scanned(s, readings, i + 1))
  {
    var t0, t3 := Scanned(s, readings, i), Scanned(s, readings, i + 1);
    var call := t0.calls[0];
    var t1 := t0.(now := readings[i]);
    OneStep(s, t0, Tick(readings[i] - t0.now), t1);
    var t2 := t1.(calls := t1.calls[0 := call.(phase := Reading(s.clients[i], |s.history[i]|, readings[i]))]);
    OneStep(s, t1, Read(0), t2);
    assert ScanOf(s, readings, i) + [Seen(i, s.clients[i], |s.history[i]|, readings[i])] == ScanOf(s, readings, i + 1);
    OneStep(s, t2, Test(0), t3);
  }

  /** The state after a scan that found nothing. */
  lemma GiveUpIsRun(s: State, readings: seq<int>)
    requires Scans(s) && |readings| == |s.clients| && Forward(s.now, readings)
    requires forall j :: 0 <= j < |s.clients| ==> !Eligible(s.clients[j], readings[j])
    ensures var t := Scanned(s, readings, |readings|).(calls := map[]);
            Steps(s, t) && WellFormed(t)
  {
    var t := Scanned(s, readings, |readings|);
    ScanIsRun(s, readings, |readings|);
    assert t.calls - {0} == map[];
    OneStep(s, t, GiveUp(0), t.(calls := map[]));
  }

  /** The state in which the call dials client j, at the time of the dial's outcome. */
  ghost function DialingAt(s: State, readings: seq<int>, j: nat, since: int): State
    requires Scans(s) && j < |readings| == |s.clients|
  {
    var t := Scanned(s, readings, |readings|);
    t.(now := since, calls := t.calls[0 := t.calls[0].(phase := Dialing(t.calls[0].tested[j]))])
  }

  lemma DialIsRun(s: State, readings: seq<int>, j: nat, since: int)
    requires Scans(s) && j < |readings| == |s.clients| && Forward(s.now, readings + [since])
    requires Eligible(s.clients[j], readings[j])
    ensures Steps(s, DialingAt(s, readings, j, since)) && WellFormed(DialingAt(s, readings, j, since))
  {
    var all := readings + [since];
    assert forall i :: 0 <= i < |readings| ==> all[i] == readings[i];
    assert all[|readings|] == since;
    ScanIsRun(s, readings, |readings|);
    var t := Scanned(s, readings, |readings|);
    var t1 := t.(calls := t.calls[0 := t.calls[0].(phase := Dialing(t.calls[0].tested[j]))]);
    OneStep(s, t, Choose(0, j), t1);
    OneStep(s, t1, Tick(since - t1.now), DialingAt(s, readings, j, since));
  }

  /** No call is in progress, or one that starts over. */
  ghost predicate Between(s: State) {
    WellFormed(s) && (s.calls == map[] || Scans(s))
  }

  /** The client that a round dials: one that passes its test, or none if none does. */
  ghost predicate Chosen(s: State, readings: seq<int>, j: Option<nat>)
    requires |readings| == |s.clients|
  {
    if j.Some? then j.value < |s.clients| && Eligible(s.clients[j.value], readings[j.value])
    else forall i :: 0 <= i < |s.clients| ==> !Eligible(s.clients[i], readings[i])
  }

  /** What a round makes of the records and of the number of failures. */
  ghost predicate RoundOutcome(s: State, j: Option<nat>, dialOk: bool, since: int, now: int, t: State) {
    && |t.clients| == |s.clients| == |t.history| == |s.history|
    && forall i :: 0 <= i < |s.clients| ==>
         var failed := !dialOk && j == Some(i);
         && t.clients[i] == (if failed then RecordError(s.clients[i], since, now) else s.clients[i])
         && |t.history[i]| == |s.history[i]| + (if failed then 1 else 0)
  }

  lemma RoundIsRun(s: State, readings: seq<int>, j: Option<nat>, dialOk: bool, since: int, now: int)
    returns (t: State)
    requires Between(s) && |readings| == |s.clients| && Forward(s.now, readings + [since, now])
    requires Chosen(s, readings, j)
    ensures Steps(s, t) && Between(t) && RoundOutcome(s, j, dialOk, since, now, t)
  {
    NoStep(s);
    if s.calls == map[] {
      var s' := s.(calls := map[0 := Call(s.now, 0, [], Scanning)]);
      OneStep(s, s, Start(0), s');
      t := StartedRound(s', readings, j, dialOk, since, now);
      StepsJoin(s, s', t);
    } else {
      t := StartedRound(s, readings, j, dialOk, since, now);
    }
  }

  lemma StepsJoin(s: State, t: State, u: State)
    requires Steps(s, t) && Steps(t, u)
    ensures Steps(s, u)
  {
    var run :| Legal(SERIAL, t, run) && After(SERIAL, t, run) == u;
    StepsGoOn(s, t, run);
  }

  lemma {:induction false} StepsGoOn(s: State, t: State, run: seq<Action>)
    requires Steps(s, t) && WellFormed(t) && Legal(SERIAL, t, run)
    ensures Steps(s, After(SERIAL, t, run))
    decreases |run|
  {
    if run != [] {
      OneStep(s, t, run[0], Apply(SERIAL, t, run[0]));
      StepsGoOn(s, Apply(SERIAL, t, run[0]), run[1..]);
    }
  }

  lemma StartedRound(s: State, readings: seq<int>, j: Option<nat>, dialOk: bool, since: int, now: int)
    returns (t: State)
    requires Scans(s) && |readings| == |s.clients| && Forward(s.now, readings + [since, now])
    requires Chosen(s, readings, j)
    ensures Steps(s, t) && Between(t) && RoundOutcome(s, j, dialOk, since, now, t)
  {
    var all := readings + [since, now];
    assert readings == all[..|readings|] && readings + [since] == all[..|readings| + 1];
    assert all[|readings|] == since && all[|readings| + 1] == now;
    if j.None? {
      GiveUpIsRun(s, readings);
      t := Scanned(s, readings, |readings|).(calls := map[]);
    } else {
      DialIsRun(s, readings, j.value, since);
      t := DialEnds(s, DialingAt(s, readings, j.value, since), j.value, dialOk, now);
    }
  }

  lemma DialEnds(s: State, d: State, j: nat, dialOk: bool, now: int) returns (t: State)
    requires Steps(s, d) && WellFormed(d) && d.clients == s.clients && d.history == s.history && d.now <= now
    requires d.calls.Keys == {0} && d.calls[0].phase.Dialing? && d.calls[0].phase.seen.client == j
    ensures Steps(s, t) && Between(t) && RoundOutcome(s, Some(j), dialOk, d.now, now, t)
  {
    assert WellFormedCall(d, d.calls[0]);
    if dialOk {
      t := d.(calls := map[]);
      assert d.calls - {0} == map[];
      OneStep(s, d, Succeed(0), t);
    } else {
      t := Apply(SERIAL, d, Fail(0, now - d.now));
      OneStep(s, d, Fail(0, now - d.now), t);
    }
  }

  /** Serial intervals never exceed 51.2 s. */
  lemma SerialCeiling(s: State, j: nat)
    requires CanReach(SERIAL, s) && j < |s.clients|
    ensures s.clients[j].expiry <= 51_200 * MILLISECOND
  {
    var n, now, run :| Reaches(SERIAL, n, now, run, s);
    ClientsKept(SERIAL, NewState(n, now), run);
    OverlapHolds(SERIAL, n, now, run, s, j);
    BackoffCeiling(SERIAL, n, now, run, s, j, 1);
  }

  /** Outcome of one round of Conn; after a failed dial Conn starts over. */
  datatype Round = Connected(client: nat) | DialFailed(client: nat) | NoLiveClients

  class AvailabilityShardedClient {
    const clients: seq<nat>
    var lastError: map<nat, Option<int>>
    var errorExpiry: map<nat, int>
    ghost var model: State

    ghost predicate Valid()
      reads this
    {
      Listed() && (Distinct() ==> Stands(model))
    }

    ghost predicate Listed()
      reads this
    {
      forall c :: c in clients ==> c in lastError && c in errorExpiry
    }

    /** No client is listed twice; a client that is would share one record between its places. */
    ghost predicate Distinct() {
      forall i, j :: 0 <= i < j < |clients| ==> clients[i] != clients[j]
    }

    /** The records are those of a reachable state of the serial balancer, between two rounds. */
    ghost predicate Stands(s: State)
      requires Listed()
      reads this
    {
      && CanReach(SERIAL, s) && Between(s) && |s.clients| == |clients|
      && (forall i :: 0 <= i < |clients| ==> s.clients[i] == Record(clients[i]))
    }

    ghost function Record(c: nat): Backoff
      requires Listed() && c in clients
      reads this
    {
      Backoff(lastError[c], errorExpiry[c])
    }

    constructor (clients: seq<nat>, ghost now: int)
      ensures Valid() && this.clients == clients && model == NewState(|clients|, now)
      ensures forall c :: c in clients ==> Record(c) == NEVER_FAILED
    {
      this.clients := clients;
      var errors: map<nat, Option<int>>, expiries: map<nat, int> := map[], map[];
      for i := 0 to |clients|
        invariant forall c :: c in clients[..i] ==>
                    c in errors && c in expiries && errors[c] == None && expiries[c] == 0
      {
        errors, expiries := errors[clients[i] := None], expiries[clients[i] := 0];
      }
      lastError, errorExpiry := errors, expiries;
      model := NewState(|clients|, now);
      assert Reaches(SERIAL, |clients|, now, [], NewState(|clients|, now));
      assert clients[..|clients|] == clients;
    }

    /** The clients among the first i whose record passes the test at their clock reading. */
    ghost function EligibleAmong(readings: seq<int>, i: nat): seq<nat>
      requires Listed() && i <= |clients| == |readings|
      reads this
    {
      if i == 0 then []
      else EligibleAmong(readings, i - 1) +
           (if Eligible(Record(clients[i - 1]), readings[i - 1]) then [clients[i - 1]] else [])
    }

    /** Pick one of the eligible clients; an error exactly when there is none. */
    method SelectAvailable(readings: seq<int>, pick: nat) returns (r: Option<nat>)
      requires Listed() && |readings| == |clients|
      ensures var eligible := EligibleAmong(readings, |clients|);
              r == if eligible == [] then None else Some(eligible[pick % |eligible|])
    {
      var eligible: seq<nat> := [];
      for i := 0 to |clients|
        invariant eligible == EligibleAmong(readings, i)
      {
        var last, expiry := lastError[clients[i]], errorExpiry[clients[i]];
        if last.None? || readings[i] - last.value > expiry {
          eligible := eligible + [clients[i]];
        }
      }
      if |eligible| == 0 {
        return None;
      }
      return Some(eligible[pick % |eligible|]);
    }

    /** The update under the mutex. */
    method RecordFailure(client: nat, since: int, now: int)
      requires Listed() && client in clients
      modifies this`lastError, this`errorExpiry
      ensures Listed()
      ensures lastError[client] == Some(now)
      ensures var b := old(Record(client));
              errorExpiry[client] ==
              if b.lastError.None? || since - b.lastError.value > 30_000_000_000 then 100_000_000 else 2 * b.expiry
      ensures forall c :: c in clients && c != client ==> Record(c) == old(Record(c))
    {
      if lastError[client].None? || since - lastError[client].value > RESET_WINDOW {
        errorExpiry := errorExpiry[client := INITIAL_BACKOFF];
      } else {
        errorExpiry := errorExpiry[client := errorExpiry[client] * 2];
      }
      lastError := lastError[client := Some(now)];
    }

    /** The code of one round of Conn: select, dial, and record a failed dial. */
    method Attempt(readings: seq<int>, pick: nat, dialOk: bool, since: int, now: int) returns (r: Round)
      requires Listed() && |readings| == |clients|
      modifies this`lastError, this`errorExpiry
      ensures Listed()
      ensures var eligible := old(EligibleAmong(readings, |clients|));
              r == if eligible == [] then NoLiveClients
                   else if dialOk then Connected(eligible[pick % |eligible|])
                   else DialFailed(eligible[pick % |eligible|])
      ensures forall c :: c in clients ==>
                Record(c) == if r == DialFailed(c) then RecordError(old(Record(c)), since, now) else old(Record(c))
    {
      var selected := SelectAvailable(readings, pick);
      if selected.None? {
        return NoLiveClients;
      }
      EligibleIsScan(readings, |clients|, selected.value);
      if dialOk {
        return Connected(selected.value);
      }
      RecordFailure(selected.value, since, now);
      return DialFailed(selected.value);
    }

    /** One round of Conn. Unless a client is listed twice it is a run of the balancer, in which the
        client that failed, and no other, has one more failure. */
    method Try(readings: seq<int>, pick: nat, dialOk: bool, since: int, now: int) returns (r: Round)
      requires Valid() && |readings| == |clients| && Forward(model.now, readings + [since, now])
      modifies this
      ensures Valid()
      ensures var eligible := old(EligibleAmong(readings, |clients|));
              r == if eligible == [] then NoLiveClients
                   else if dialOk then Connected(eligible[pick % |eligible|])
                   else DialFailed(eligible[pick % |eligible|])
      ensures forall c :: c in clients ==>
                Record(c) == if r == DialFailed(c) then RecordError(old(Record(c)), since, now) else old(Record(c))
      ensures Distinct() ==> Steps(old(model), model)
      ensures Distinct() ==> forall i :: 0 <= i < |clients| ==>
                |model.history[i]| == |old(model.history)[i]| + (if r == DialFailed(clients[i]) then 1 else 0)
    {
      ghost var chosen := Position(readings, pick);
      r := Attempt(readings, pick, dialOk, since, now);
      if Distinct() {
        Follow(readings, chosen, r, dialOk, since, now);
      }
    }

    /** The place of the client that the round selects, if it selects one. */
    lemma Position(readings: seq<int>, pick: nat) returns (j: Option<nat>)
      requires Listed() && |readings| == |clients|
      ensures var eligible := EligibleAmong(readings, |clients|);
              if eligible == [] then
                j.None? && forall i :: 0 <= i < |clients| ==> !Eligible(Record(clients[i]), readings[i])
              else
                && j.Some? && j.value < |clients| && clients[j.value] == eligible[pick % |eligible|]
                && Eligible(Record(clients[j.value]), readings[j.value])
    {
      var eligible := EligibleAmong(readings, |clients|);
      NoneEligible(readings);
      j := None;
      if eligible != [] {
        var c := eligible[pick % |eligible|];
        EligibleIsScan(readings, |clients|, c);
        var i :| 0 <= i < |clients| && clients[i] == c && Eligible(Record(clients[i]), readings[i]);
        j := Some(i);
      }
    }

    /** Take the model through the round. */
    ghost method Follow(readings: seq<int>, j: Option<nat>, r: Round, dialOk: bool, since: int, now: int)
      requires Listed() && Distinct() && |readings| == |clients| == |model.clients|
      requires Forward(model.now, readings + [since, now])
      requires CanReach(SERIAL, model) && Between(model) && Chosen(model, readings, j)
      requires r == if j.None? then NoLiveClients
                    else if dialOk then Connected(clients[j.value]) else DialFailed(clients[j.value])
      requires forall i :: 0 <= i < |clients| ==>
                 Record(clients[i]) ==
                 if r == DialFailed(clients[i]) then RecordError(model.clients[i], since, now) else model.clients[i]
      modifies this`model
      ensures Valid() && Steps(old(model), model) && lastError == old(lastError) && errorExpiry == old(errorExpiry)
      ensures forall i :: 0 <= i < |clients| ==>
                |model.history[i]| == |old(model.history)[i]| + (if r == DialFailed(clients[i]) then 1 else 0)
    {
      var t := RoundIsRun(model, readings, j, dialOk, since, now);
      StepsReach(model, t);
      model := t;
    }

    /** A client is among the eligible ones exactly when some position of it passes the test. */
    lemma {:induction false} EligibleIsScan(readings: seq<int>, i: nat, c: nat)
      requires Listed() && i <= |clients| == |readings|
      ensures c in EligibleAmong(readings, i) <==>
              exists j :: 0 <= j < i && clients[j] == c && Eligible(Record(clients[j]), readings[j])
    {
      if i > 0 {
        EligibleIsScan(readings, i - 1, c);
      }
    }

    /** Selection fails exactly when every client is inside its backoff interval. */
    lemma NoneEligible(readings: seq<int>)
      requires Listed() && |readings| == |clients|
      ensures EligibleAmong(readings, |clients|) == [] <==>
              forall j :: 0 <= j < |clients| ==> !Eligible(Record(clients[j]), readings[j])
    {
      var eligible := EligibleAmong(readings, |clients|);
      if eligible != [] {
        EligibleIsScan(readings, |clients|, eligible[0]);
      }
      forall j | 0 <= j < |clients| && eligible == []
        ensures !Eligible(Record(clients[j]), readings[j])
      {
        EligibleIsScan(readings, |clients|, clients[j]);
      }
    }
  }

  /** The object's records are those of a run of the balancer, exactly as the times of the failures
      in that run say. */
  lemma RecordsExact(balancer: AvailabilityShardedClient) returns (start: int, run: seq<Action>)
    requires balancer.Valid() && balancer.Distinct()
    ensures var n := |balancer.clients|;
            && Reaches(SERIAL, n, start, run, balancer.model)
            && forall j: nat :: j < n ==>
                 balancer.Record(balancer.clients[j]) == BackoffAfter(FailureTimes(SERIAL, NewState(n, start), run, j))
  {
    var s := balancer.model;
    var n: nat, start', run' :| Reaches(SERIAL, n, start', run', s);
    start, run := start', run';
    ClientsKept(SERIAL, NewState(n, start), run);
    forall j: nat | j < n
      ensures balancer.Record(balancer.clients[j]) == BackoffAfter(FailureTimes(SERIAL, NewState(n, start), run, j))
    {
      IntervalExact(SERIAL, n, start, run, s, j);
    }
  }

  /** So no client of the object is ever kept away for more than 51.2 s after its last failure. */
  lemma NeverAwayForLong(balancer: AvailabilityShardedClient, c: nat, later: int)
    requires balancer.Valid() && balancer.Distinct() && c in balancer.clients
    requires var b := balancer.Record(c); b.lastError.Some? ==> later - b.lastError.value > 51_200 * MILLISECOND
    ensures Eligible(balancer.Record(c), later)
  {
    var j :| 0 <= j < |balancer.clients| && balancer.clients[j] == c;
    SerialCeiling(balancer.model, j);
  }
}
