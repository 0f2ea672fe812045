/** The bounds on the availability balancer's backoff are exact. The ceiling and the number of
    failures per window are attained for every number of overlapping calls, and the ceiling holds
    for two or more of them exactly as long as a record that was read is tested within 21.2 s. */
module AvailabilityExact {
  import opened Collections
  import opened Time
  import opened Wrappers
  import opened Powers
  import opened Availability
  import opened AvailabilityBackoff
  import opened AvailabilityAttempts

  ghost predicate CanReach(l: Limits, s: State) {
    exists n: nat, now: int, run: seq<Action> :: Reaches(l, n, now, run, s)
  }

  lemma {:induction false} RunOneMore(l: Limits, s: State, run: seq<Action>, a: Action)
    requires WellFormed(s) && Legal(l, s, run) && WellFormed(After(l, s, run)) && Enabled(l, After(l, s, run), a)
    ensures Legal(l, s, run + [a]) && After(l, s, run + [a]) == Apply(l, After(l, s, run), a)
    decreases |run|
  {
    if run == [] {
      assert run + [a] == [a] && [a][1..] == [];
      WellFormedStep(l, s, a);
    } else {
      WellFormedStep(l, s, run[0]);
      RunOneMore(l, Apply(l, s, run[0]), run[1..], a);
      TailAppend(run, a);
    }
  }

  /** One more action, whose result is given. */
  lemma Take(l: Limits, s: State, a: Action, t: State)
    requires CanReach(l, s) && WellFormed(s) && Enabled(l, s, a) && t == Apply(l, s, a)
    ensures CanReach(l, t) && WellFormed(t)
  {
    var n, now, run :| Reaches(l, n, now, run, s);
    WellFormedStep(l, s, a);
    RunOneMore(l, NewState(n, now), run, a);
    assert Reaches(l, n, now, run + [a], t);
  }

  /** One client that has failed, and calls that have tried it in vain. */
  ghost function Tried(now: int, h: seq<Failure>, calls: map<CallId, Call>): State
    requires |h| > 0
  {
    State(now, [BackoffAt(h, |h|)], [h], calls)
  }

  /** Call id scans the one client, finds it eligible and dials it. */
  lemma ScanAndDial(l: Limits, s: State, id: CallId)
    requires CanReach(l, s) && WellFormed(s) && |s.clients| == 1 && Eligible(s.clients[0], s.now)
    requires id in s.calls && s.calls[id].tested == [] && s.calls[id].phase.Scanning?
    ensures var seen := Seen(0, s.clients[0], |s.history[0]|, s.now);
            var t := s.(calls := s.calls[id := s.calls[id].(tested := [seen], phase := Dialing(seen))]);
            CanReach(l, t) && WellFormed(t)
  {
    var call := s.calls[id];
    var seen := Seen(0, s.clients[0], |s.history[0]|, s.now);
    var t1 := s.(calls := s.calls[id := call.(phase := Reading(s.clients[0], |s.history[0]|, s.now))]);
    Take(l, s, Read(id), t1);
    var t2 := t1.(calls := t1.calls[id := call.(tested := [seen], phase := Scanning)]);
    assert [] + [seen] == [seen];
    Take(l, t1, Test(id), t2);
    var t3 := t2.(calls := t2.calls[id := call.(tested := [seen], phase := Dialing(seen))]);
    Take(l, t2, Choose(id, 0), t3);
    assert t3.calls == s.calls[id := call.(tested := [seen], phase := Dialing(seen))];
  }

  /** Call id fails at once, less than a reset window after the last failure. */
  lemma FailNow(l: Limits, s: State, id: CallId)
    requires CanReach(l, s) && WellFormed(s) && |s.clients| == 1 && id in s.calls && s.calls[id].phase.Dialing?
    requires |s.history[0]| > 0 && s.clients[0] == BackoffAt(s.history[0], |s.history[0]|)
    requires s.now - s.clients[0].lastError.value <= RESET_WINDOW
    ensures var call := s.calls[id];
            var f := Failure(s.now, s.now, 2 * s.clients[0].expiry);
            var t := Tried(s.now, s.history[0] + [f], s.calls[id := Call(call.startedAt, call.failures + 1, [], Scanning)]);
            CanReach(l, t) && WellFormed(t)
  {
    assert WellFormedCall(s, s.calls[id]);
    var call := s.calls[id];
    var f := Failure(s.now, s.now, 2 * s.clients[0].expiry);
    var t := Tried(s.now, s.history[0] + [f], s.calls[id := Call(call.startedAt, call.failures + 1, [], Scanning)]);
    assert s.clients[0 := BackoffAt(s.history[0] + [f], |s.history[0]| + 1)] == t.clients;
    assert s.history[0 := s.history[0] + [f]] == t.history;
    Take(l, s, Fail(id, 0), t);
  }

  /** Calls 0 to k - 1 are about to scan. */
  ghost predicate AllIdle(s: State, k: nat) {
    && (forall id: nat :: id in s.calls <==> id < k)
    && (forall id :: id in s.calls ==> Idle(s.calls[id]))
  }

  ghost predicate Idle(call: Call) {
    call.tested == [] && call.phase.Scanning?
  }

  lemma {:induction false} StartAll(l: Limits, k: nat) returns (s: State)
    requires k <= l.overlap
    ensures CanReach(l, s) && WellFormed(s) && AllIdle(s, k) && |s.calls| == k
    ensures s.now == 0 && s.clients == [NEVER_FAILED] && s.history == [[]]
  {
    if k == 0 {
      s := NewState(1, 0);
      assert Reaches(l, 1, 0, [], s);
    } else {
      var s' := StartAll(l, k - 1);
      s := s'.(calls := s'.calls[k - 1 := Call(0, 0, [], Scanning)]);
      Take(l, s', Start(k - 1), s);
    }
  }

  /** The first j of the idle calls find the client eligible and dial it. */
  lemma {:induction false} DialAll(l: Limits, s0: State, k: nat, j: nat) returns (s: State)
    requires CanReach(l, s0) && WellFormed(s0) && AllIdle(s0, k) && j <= k
    requires |s0.clients| == 1 && Eligible(s0.clients[0], s0.now)
    ensures CanReach(l, s) && WellFormed(s) && s == s0.(calls := s.calls)
    ensures forall id: nat :: id in s.calls <==> id < k
    ensures forall id: nat :: id < j ==> s.calls[id].phase.Dialing?
    ensures forall id: nat :: j <= id < k ==> s.calls[id] == s0.calls[id]
    decreases j
  {
    s := s0;
    if j > 0 {
      var s1 := DialAll(l, s0, k, j - 1);
      ScanAndDial(l, s1, j - 1);
      var seen := Seen(0, s1.clients[0], |s1.history[0]|, s1.now);
      s := s1.(calls := s1.calls[j - 1 := s1.calls[j - 1].(tested := [seen], phase := Dialing(seen))]);
    }
  }

  /** Dialing calls from to till - 1 fail at once; each doubles the interval. */
  lemma {:induction false} FailRange(l: Limits, s0: State, from: nat, till: nat) returns (s: State)
    requires CanReach(l, s0) && WellFormed(s0) && from <= till
    requires forall id: nat :: from <= id < till ==> id in s0.calls && s0.calls[id].phase.Dialing?
    requires |s0.clients| == 1 && |s0.history[0]| > 0
    requires s0.clients[0] == BackoffAt(s0.history[0], |s0.history[0]|)
    requires 0 <= s0.now - s0.clients[0].lastError.value <= RESET_WINDOW
    ensures CanReach(l, s) && WellFormed(s) && |s.clients| == 1 && s.now == s0.now
    ensures s.calls.Keys == s0.calls.Keys
    ensures forall id: nat :: from <= id < till ==> Idle(s.calls[id])
    ensures forall id :: id in s.calls && !(from <= id < till) ==> s.calls[id] == s0.calls[id]
    ensures |s.history[0]| == |s0.history[0]| + (till - from) && s.history[0][0] == s0.history[0][0]
    ensures s.clients[0] == BackoffAt(s.history[0], |s.history[0]|)
    ensures s.clients[0].expiry == Doubled(s0.clients[0].expiry, till - from)
    ensures s.clients[0].lastError == if from < till then Some(s0.now) else s0.clients[0].lastError
    decreases till
  {
    s := s0;
    if from < till {
      var s1 := FailRange(l, s0, from, till - 1);
      var id, call := till - 1, s1.calls[till - 1];
      FailNow(l, s1, id);
      DoubledOnceMore(s0.clients[0].expiry, till - 1 - from);
      var f := Failure(s1.now, s1.now, 2 * s1.clients[0].expiry);
      s := Tried(s1.now, s1.history[0] + [f], s1.calls[id := Call(call.startedAt, call.failures + 1, [], Scanning)]);
    }
  }

  /** Calls 0 to k - 1 are idle and the client has just failed, leaving the interval e. */
  ghost predicate Staged(l: Limits, s: State, k: nat, e: int) {
    && CanReach(l, s) && WellFormed(s) && AllIdle(s, k)
    && |s.clients| == 1 && |s.history[0]| > 0 && s.history[0][0].at == 0
    && s.clients[0] == BackoffAt(s.history[0], |s.history[0]|) == Backoff(Some(s.now), e)
  }

  /** The first m of k calls dial a client that never failed, and fail. */
  lemma FirstBurst(l: Limits, k: nat, m: nat) returns (s: State)
    requires 1 <= m <= k <= l.overlap
    ensures Staged(l, s, k, Doubled(INITIAL_BACKOFF, m - 1)) && s.now == 0 && |s.history[0]| == m
  {
    var s0 := StartAll(l, k);
    var s1 := DialAll(l, s0, k, m);
    var s2 := FirstFailure(l, s1);
    s := FailRange(l, s2, 1, m);
  }

  lemma FirstFailure(l: Limits, s: State) returns (t: State)
    requires CanReach(l, s) && WellFormed(s) && s.clients == [NEVER_FAILED] && s.history == [[]]
    requires 0 in s.calls && s.calls[0].phase.Dialing?
    ensures CanReach(l, t) && WellFormed(t) && t.now == s.now && t.calls.Keys == s.calls.Keys
    ensures t.history == [[Failure(s.now, s.now, INITIAL_BACKOFF)]]
    ensures t.clients == [Backoff(Some(s.now), INITIAL_BACKOFF)]
    ensures Idle(t.calls[0]) && forall id :: id in s.calls && id != 0 ==> t.calls[id] == s.calls[id]
  {
    assert WellFormedCall(s, s.calls[0]);
    var h := [Failure(s.now, s.now, INITIAL_BACKOFF)];
    assert s.history[0] == [] && [] + h == h;
    assert s.history[0 := h] == [h] && s.clients[0 := BackoffAt(h, 1)] == [BackoffAt(h, 1)];
    t := Tried(s.now, h, s.calls[0 := Call(s.calls[0].startedAt, s.calls[0].failures + 1, [], Scanning)]);
    Take(l, s, Fail(0, 0), t);
  }

  /** As soon as the interval is over, the first m of k calls dial the client and fail. */
  lemma Burst(l: Limits, s0: State, k: nat, e: int, m: nat) returns (s: State)
    requires Staged(l, s0, k, e) && 0 <= e < RESET_WINDOW && 1 <= m <= k
    ensures Staged(l, s, k, Doubled(e, m)) && s.now == s0.now + e + 1
    ensures |s.history[0]| == |s0.history[0]| + m
  {
    var s1 := s0.(now := s0.now + (e + 1));
    Take(l, s0, Tick(e + 1), s1);
    var s2 := DialAll(l, s1, k, m);
    s := FailRange(l, s2, 0, m);
  }

  /** One of k calls has failed r + 1 times in a row, each time as soon as it could. */
  lemma {:induction false} Ramp(l: Limits, k: nat, r: nat) returns (s: State)
    requires 1 <= k <= l.overlap && r <= 8
    ensures Staged(l, s, k, Doubled(INITIAL_BACKOFF, r)) && |s.history[0]| == r + 1
    ensures 0 <= s.now <= Doubled(INITIAL_BACKOFF, r) - INITIAL_BACKOFF + r
  {
    if r == 0 {
      s := FirstBurst(l, k, 1);
    } else {
      var s' := Ramp(l, k, r - 1);
      var e := Doubled(INITIAL_BACKOFF, r - 1);
      IntervalsInSeconds();
      DoubledMonotone(INITIAL_BACKOFF, INITIAL_BACKOFF, r - 1, 7);
      DoubledOnceMore(INITIAL_BACKOFF, r - 1);
      s := Burst(l, s', k, e, 1);
    }
  }

  // ---------- the bounds are attained ----------

  /** For every number of overlapping calls, even if every record is tested the moment it is read,
      some run gives a client the longest interval that BackoffCeiling allows. */
  lemma CeilingAttained(l: Limits) returns (s: State)
    requires l.overlap >= 1
    ensures CanReach(l, s) && |s.clients| == 1 && s.clients[0].expiry == Ceiling(l.overlap)
  {
    var s1 := Ramp(l, l.overlap, 8);
    IntervalsInSeconds();
    s := Burst(l, s1, l.overlap, KNEE, l.overlap);
  }

  /** For every number of overlapping calls some run makes a client fail as often within 30 s as
      AttemptBound allows. */
  lemma AttemptsAttained(l: Limits) returns (s: State)
    requires l.overlap >= 1
    ensures CanReach(l, s) && |s.history| == 1 && |s.history[0]| == AttemptLimit(l.overlap)
    ensures var h := s.history[0]; h[|h| - 1].at - h[0].at <= RESET_WINDOW
  {
    var k := l.overlap;
    IntervalsInSeconds();
    if k == 1 {
      s := Ramp(l, 1, 8);
    } else if k == 2 {
      s := FivePairs(l);
    } else {
      s := ThreeTriplesAndAll(l);
    }
  }

  /** Two calls fail together after 0, 0.2, 1, 4.2 and 17 s. */
  lemma FivePairs(l: Limits) returns (s: State)
    requires l.overlap == 2
    ensures CanReach(l, s) && |s.history| == 1 && |s.history[0]| == 10
    ensures var h := s.history[0]; h[9].at - h[0].at <= RESET_WINDOW
  {
    var s1 := FirstBurst(l, 2, 2);
    var s2 := Burst(l, s1, 2, 200 * MILLISECOND, 2);
    var s3 := Burst(l, s2, 2, 800 * MILLISECOND, 2);
    var s4 := Burst(l, s3, 2, 3200 * MILLISECOND, 2);
    s := Burst(l, s4, 2, 12800 * MILLISECOND, 2);
  }

  /** Three calls fail together after 0, 0.4 and 3.6 s, and all after 29.2 s. */
  lemma ThreeTriplesAndAll(l: Limits) returns (s: State)
    requires l.overlap >= 3
    ensures CanReach(l, s) && |s.history| == 1 && |s.history[0]| == l.overlap + 9
    ensures var h := s.history[0]; h[|h| - 1].at - h[0].at <= RESET_WINDOW
  {
    var k := l.overlap;
    var s1 := FirstBurst(l, k, 3);
    var s2 := Burst(l, s1, k, 400 * MILLISECOND, 3);
    var s3 := Burst(l, s2, k, 3200 * MILLISECOND, 3);
    s := Burst(l, s3, k, KNEE, k);
  }

  // ---------- the lag that breaks the ceiling ----------

  /** If two or more calls overlap, and one of them tests a record 21.2 s and a nanosecond after
      reading it, a client can get twice the ceiling. */
  lemma LateTestBreaksCeiling(l: Limits) returns (s: State)
    requires l.overlap >= 2 && l.lag > SAFE_LAG
    ensures CanReach(l, s) && |s.clients| == 1 && s.clients[0].expiry == 2 * Ceiling(l.overlap)
  {
    var k := l.overlap;
    var s1 := Ramp(l, k, 8);
    IntervalsInSeconds();
    var s2 := s1.(now := s1.now + (KNEE + 1));
    Take(l, s1, Tick(KNEE + 1), s2);
    var s3 := DialAll(l, s2, k, k);
    s := OneReadsLate(l, s3, k);
  }

  lemma OneReadsLate(l: Limits, s3: State, k: nat) returns (s: State)
    requires k >= 2 && l.lag > SAFE_LAG && CanReach(l, s3) && WellFormed(s3)
    requires forall id: nat :: id < k ==> id in s3.calls && s3.calls[id].phase.Dialing?
    requires |s3.clients| == 1 && |s3.history[0]| > 0
    requires s3.clients[0] == BackoffAt(s3.history[0], |s3.history[0]|)
    requires s3.clients[0] == Backoff(Some(s3.now - (KNEE + 1)), KNEE)
    ensures CanReach(l, s) && |s.clients| == 1 && s.clients[0].expiry == 2 * Ceiling(k)
  {
    // Call 0 fails: 51.2 s. It starts over and reads the record 30 s later.
    var s4 := FailRange(l, s3, 0, 1);
    assert Doubled(KNEE, 1) == 2 * KNEE;
    var s5 := s4.(now := s4.now + RESET_WINDOW);
    Take(l, s4, Tick(RESET_WINDOW), s5);
    s := OthersFail(l, s5, k);
  }

  lemma OthersFail(l: Limits, s5: State, k: nat) returns (s: State)
    requires k >= 2 && l.lag > SAFE_LAG && CanReach(l, s5) && WellFormed(s5) && 0 in s5.calls && Idle(s5.calls[0])
    requires forall id: nat :: 1 <= id < k ==> id in s5.calls && s5.calls[id].phase.Dialing?
    requires |s5.clients| == 1 && |s5.history[0]| > 0
    requires s5.clients[0] == BackoffAt(s5.history[0], |s5.history[0]|)
    requires s5.clients[0] == Backoff(Some(s5.now - RESET_WINDOW), 2 * KNEE)
    ensures CanReach(l, s) && |s.clients| == 1 && s.clients[0].expiry == 2 * Ceiling(k)
  {
    var call := s5.calls[0];
    var s6 := s5.(calls := s5.calls[0 := call.(phase := Reading(s5.clients[0], |s5.history[0]|, s5.now))]);
    Take(l, s5, Read(0), s6);
    // The other calls still dial, and fail: 51.2 s * 2^(k-1).
    var s7 := FailRange(l, s6, 1, k);
    s := OneTestsLate(l, s7, s5.clients[0], call);
  }

  lemma OneTestsLate(l: Limits, s7: State, seen: Backoff, call: Call) returns (s: State)
    requires l.lag > SAFE_LAG && CanReach(l, s7) && WellFormed(s7) && |s7.clients| == 1 && |s7.history[0]| > 0
    requires s7.clients[0] == BackoffAt(s7.history[0], |s7.history[0]|) && s7.clients[0].lastError == Some(s7.now)
    requires seen == Backoff(Some(s7.now - RESET_WINDOW), 2 * KNEE) && Idle(call)
    requires 0 in s7.calls && s7.calls[0].phase.Reading?
    requires s7.calls[0] == call.(phase := Reading(seen, s7.calls[0].phase.epoch, s7.now))
    ensures CanReach(l, s) && |s.clients| == 1 && s.clients[0].expiry == 2 * s7.clients[0].expiry
  {
    // Call 0 tests the record it read: the 51.2 s of that record are over.
    var s8 := s7.(now := s7.now + (SAFE_LAG + 1));
    Take(l, s7, Tick(SAFE_LAG + 1), s8);
    var tested := Seen(0, seen, s7.calls[0].phase.epoch, s8.now);
    var s9 := s8.(calls := s8.calls[0 := call.(tested := [tested])]);
    assert [] + [tested] == [tested];
    Take(l, s8, Test(0), s9);
    var s10 := s9.(calls := s9.calls[0 := call.(tested := [tested], phase := Dialing(tested))]);
    Take(l, s9, Choose(0, 0), s10);
    FailNow(l, s10, 0);
    var h := s10.history[0] + [Failure(s10.now, s10.now, 2 * s10.clients[0].expiry)];
    s := Tried(s10.now, h, s10.calls[0 := Call(call.startedAt, call.failures + 1, [], Scanning)]);
  }

  // ---------- exactly when the ceiling holds ----------

  /** No client that at most k calls ever hold at once goes above the ceiling, whatever else goes on. */
  ghost predicate CeilingHolds(k: nat, lag: nat) {
    forall l: Limits, n: nat, now: int, run: seq<Action>, s: State, c: nat ::
      l.lag == lag && ReachesHeld(l, n, now, run, s, c, k) ==> WithinCeiling(s, c, k)
  }

  /** No client goes above the ceiling while at most k calls overlap. */
  ghost predicate OverlapCeilingHolds(k: nat, lag: nat) {
    forall s: State, c: nat :: CanReach(Limits(k, lag), s) && c < |s.clients| ==> WithinCeiling(s, c, k)
  }

  ghost predicate WithinCeiling(s: State, c: nat, k: nat) {
    c < |s.clients| && s.clients[c].expiry <= Ceiling(k)
  }

  lemma SafeCeiling(k: nat, lag: nat)
    requires k >= 1 && (k == 1 || lag <= SAFE_LAG)
    ensures CeilingHolds(k, lag)
  {
    forall l: Limits, n: nat, now: int, run: seq<Action>, s: State, c: nat |
      l.lag == lag && ReachesHeld(l, n, now, run, s, c, k)
      ensures WithinCeiling(s, c, k)
    {
      BackoffCeiling(l, n, now, run, s, c, k);
      CeilingValue(k);
    }
  }

  lemma CeilingUnderOverlap(k: nat, lag: nat)
    requires k >= 1 && CeilingHolds(k, lag)
    ensures OverlapCeilingHolds(k, lag)
  {
    var l := Limits(k, lag);
    forall s: State, c: nat | CanReach(l, s) && c < |s.clients|
      ensures WithinCeiling(s, c, k)
    {
      var n, now, run :| Reaches(l, n, now, run, s);
      ClientsKept(l, NewState(n, now), run);
      OverlapHolds(l, n, now, run, s, c);
    }
  }

  /** For every number k of calls the ceiling holds, whether k counts the calls that hold the
      client or all calls in progress, if and only if k is 1 or a record that was read is tested
      within 21.2 s. */
  lemma LagThreshold(k: nat, lag: nat)
    requires k >= 1
    ensures CeilingHolds(k, lag) <==> k == 1 || lag <= SAFE_LAG
    ensures OverlapCeilingHolds(k, lag) <==> k == 1 || lag <= SAFE_LAG
  {
    if k == 1 || lag <= SAFE_LAG {
      SafeCeiling(k, lag);
    } else {
      var s := LateTestBreaksCeiling(Limits(k, lag));
      CeilingValue(k);
      DoubledMonotone(KNEE, KNEE, 0, k);
      assert !WithinCeiling(s, 0, k);
    }
    if CeilingHolds(k, lag) {
      CeilingUnderOverlap(k, lag);
    }
  }
}
