/** How often the availability balancer can try clients in vain within one reset window, and what
    its error means. */
module AvailabilityAttempts {
  import opened Time
  import opened Powers
  import opened Availability
  import opened AvailabilityBackoff

  // ---------- failures of one client ----------

  /** Among failures that fit into a reset window, failure i + k comes after the interval of i. */
  lemma PacedGap(h: seq<Failure>, k: nat, i: nat, j: nat)
    requires Paced(h, k) && i + k <= j < |h| && h[j].at - h[i].at <= RESET_WINDOW
    ensures h[j].at - h[i].at > h[i].expiry
  {
  }

  /** The p-th failure since i leaves at least 100 ms * 2^p. */
  lemma IntervalAfter(h: seq<Failure>, i: nat, p: nat)
    requires Chain(h) && i + p < |h| && h[i + p].at - h[i].at <= RESET_WINDOW
    ensures h[i + p].expiry >= Doubled(INITIAL_BACKOFF, p)
  {
    DoublesWithinWindow(h, i, i + p);
    AboveKnee(h, i);
    DoubledMonotone(INITIAL_BACKOFF, h[i].expiry, p, p);
  }

  /** Failures i to j of a client that one call at a time holds take longer than the doubled
      intervals between them: m + 1 failures need more than 100 ms * (2^m - 1). */
  lemma {:induction false} SerialSpread(h: seq<Failure>, i: nat, j: nat)
    requires Chain(h) && Paced(h, 1) && i < j < |h| && h[j].at - h[i].at <= RESET_WINDOW
    ensures Doubled(INITIAL_BACKOFF, j - i) - INITIAL_BACKOFF < h[j].at - h[i].at
    decreases j
  {
    DoublesWithinWindow(h, i, j);
    IntervalAfter(h, i, j - 1 - i);
    PacedGap(h, 1, j - 1, j);
    DoubledOnceMore(INITIAL_BACKOFF, j - 1 - i);
    if i < j - 1 {
      SerialSpread(h, i, j - 1);
    }
  }

  /** How often a client can fail in a reset window while k calls hold it. */
  function AttemptLimit(k: nat): nat {
    if k <= 2 then k + 8 else k + 9
  }

  lemma WindowIndices(h: seq<Failure>, i: nat, j: nat, k: nat)
    requires Chain(h) && Paced(h, k) && k >= 1 && i <= j < |h| && h[j].at - h[i].at <= RESET_WINDOW
    ensures j - i + 1 <= AttemptLimit(k)
  {
    DoublesWithinWindow(h, i, j);
    IntervalsInSeconds();
    if j - i > k + 8 {
      // The interval of failure j - k alone outlasts the window,
      DoubledMonotone(INITIAL_BACKOFF, INITIAL_BACKOFF, 9, j - k - i);
      PacedGap(h, k, j - k, j);
      IntervalAfter(h, i, j - k - i);
    } else if j - i == k + 8 && k <= 2 {
      // or those of failures j - k and j - 2 * k together do.
      PacedGap(h, k, j - k, j);
      PacedGap(h, k, j - 2 * k, j - k);
      IntervalAfter(h, i, 8);
      IntervalAfter(h, i, 8 - k);
    }
  }

  lemma IntervalsInSeconds()
    ensures Doubled(INITIAL_BACKOFF, 6) == 6400 * MILLISECOND
    ensures Doubled(INITIAL_BACKOFF, 7) == 12800 * MILLISECOND
    ensures Doubled(INITIAL_BACKOFF, 8) == KNEE == 25600 * MILLISECOND
    ensures Doubled(INITIAL_BACKOFF, 9) == 51200 * MILLISECOND
  {
    DoubledIsProduct(INITIAL_BACKOFF, 6);
    DoubledOnceMore(INITIAL_BACKOFF, 6);
    DoubledOnceMore(INITIAL_BACKOFF, 7);
    DoubledOnceMore(INITIAL_BACKOFF, 8);
    assert Pow2(6) == 64;
  }

  // ---------- failures within a window ----------

  /** Recorded failures at time t or later. */
  function CountFrom(h: seq<Failure>, t: int): (n: nat)
    ensures n <= |h|
  {
    if h == [] then 0
    else CountFrom(h[..|h| - 1], t) + (if h[|h| - 1].at >= t then 1 else 0)
  }

  /** Failures since t of all clients. */
  function TotalFrom(history: seq<seq<Failure>>, t: int): nat {
    if history == [] then 0
    else TotalFrom(history[..|history| - 1], t) + CountFrom(history[|history| - 1], t)
  }

  /** The counted failures are the last ones. */
  lemma {:induction false} CountedAreLast(h: seq<Failure>, t: int)
    requires Chain(h) && CountFrom(h, t) > 0
    ensures h[|h| - CountFrom(h, t)].at >= t && h[|h| - 1].at >= t
    decreases |h|
  {
    var front := h[..|h| - 1];
    assert Chain(front) by {
      assert forall i :: 0 < i < |front| ==> Linked(h[i - 1], h[i]);
    }
    if CountFrom(front, t) > 0 {
      CountedAreLast(front, t);
      assert Linked(h[|h| - 2], h[|h| - 1]);
    }
  }

  lemma TimesOneMore(m: nat, n: nat)
    ensures m * (n + 1) == m * n + m
  {
  }

  lemma {:induction false} TotalAtMost(history: seq<seq<Failure>>, t: int, most: nat)
    requires forall h :: h in history ==> CountFrom(h, t) <= most
    ensures TotalFrom(history, t) <= most * |history|
    decreases |history|
  {
    if history != [] {
      var front := history[..|history| - 1];
      assert forall h :: h in front ==> h in history;
      TotalAtMost(front, t, most);
      assert history[|history| - 1] in history;
      TimesOneMore(most, |front|);
    }
  }

  lemma {:induction false} TotalWithOneMore(history: seq<seq<Failure>>, c: nat, f: Failure, t: int)
    requires c < |history|
    ensures TotalFrom(history[c := history[c] + [f]], t) == TotalFrom(history, t) + (if f.at >= t then 1 else 0)
    decreases |history|
  {
    var next := history[c := history[c] + [f]];
    var n := |history| - 1;
    if c == n {
      assert next[..n] == history[..n];
      assert (history[c] + [f])[..|history[c]|] == history[c];
    } else {
      TotalWithOneMore(history[..n], c, f, t);
      assert next[..n] == history[..n][c := history[..n][c] + [f]];
    }
  }

  ghost predicate FailuresCounted(s: State) {
    forall id :: id in s.calls ==> s.calls[id].failures <= TotalFrom(s.history, s.calls[id].startedAt)
  }

  lemma FailuresCountedStep(l: Limits, s: State, a: Action)
    requires Recorded(s) && FailuresCounted(s) && Enabled(l, s, a)
    ensures FailuresCounted(Apply(l, s, a))
  {
    var t := Apply(l, s, a);
    forall id | id in t.calls
      ensures t.calls[id].failures <= TotalFrom(t.history, t.calls[id].startedAt)
    {
      if a.Fail? {
        assert WellFormedCall(s, s.calls[a.id]) && CallOk(s, s.calls[id]);
        TotalWithOneMore(s.history, s.calls[a.id].phase.seen.client, NewFailure(s, a), s.calls[id].startedAt);
      } else {
        assert t.history == s.history;
      }
    }
  }

  lemma {:induction false} FailuresCountedRun(l: Limits, s: State, run: seq<Action>)
    requires Recorded(s) && FailuresCounted(s) && Legal(l, s, run)
    ensures Recorded(After(l, s, run)) && FailuresCounted(After(l, s, run))
    decreases |run|
  {
    if run != [] {
      RecordedStep(l, s, run[0]);
      FailuresCountedStep(l, s, run[0]);
      FailuresCountedRun(l, Apply(l, s, run[0]), run[1..]);
    }
  }

  lemma ReachedCounted(l: Limits, n: nat, now: int, run: seq<Action>, s: State)
    requires Reaches(l, n, now, run, s)
    ensures Recorded(s) && FailuresCounted(s) && |s.clients| == n
  {
    InitialRecorded(n, now);
    FailuresCountedRun(l, NewState(n, now), run);
    ClientsKept(l, NewState(n, now), run);
  }

  // ---------- what a call has been through ----------

  /** When a call began, and how often it has failed. */
  datatype Past = Past(startedAt: int, failures: nat)

  /** What the run adds to the past of call id. */
  ghost function PastOf(l: Limits, s: State, run: seq<Action>, id: CallId, past: Past): Past
    requires WellFormed(s) && Legal(l, s, run)
    decreases |run|
  {
    if run == [] then past
    else
      WellFormedStep(l, s, run[0]);
      var next := if run[0] == Start(id) then Past(s.now, 0)
                  else if run[0].Fail? && run[0].id == id then Past(past.startedAt, past.failures + 1)
                  else past;
      PastOf(l, Apply(l, s, run[0]), run[1..], id, next)
  }

  /** A call knows when it started and how many of its dials have failed since. */
  lemma {:induction false} CallKnowsItsPast(l: Limits, s: State, run: seq<Action>, id: CallId, past: Past)
    requires WellFormed(s) && Legal(l, s, run)
    requires id in s.calls ==> past == Past(s.calls[id].startedAt, s.calls[id].failures)
    ensures var t := After(l, s, run);
            id in t.calls ==> Past(t.calls[id].startedAt, t.calls[id].failures) == PastOf(l, s, run, id, past)
    decreases |run|
  {
    if run != [] {
      WellFormedStep(l, s, run[0]);
      var next := if run[0] == Start(id) then Past(s.now, 0)
                  else if run[0].Fail? && run[0].id == id then Past(past.startedAt, past.failures + 1)
                  else past;
      CallKnowsItsPast(l, Apply(l, s, run[0]), run[1..], id, next);
    }
  }

  /** A client that one call at a time holds fails at most 9 times in any 30 s window, and m
      failures need more than 100 ms * (2^(m-1) - 1). */
  lemma SerialAttemptBound(l: Limits, n: nat, now: int, run: seq<Action>, s: State, c: nat, i: nat, j: nat)
    requires ReachesHeld(l, n, now, run, s, c, 1)
    requires |s.history| == n && i < j < |s.history[c]|
    requires s.history[c][j].at - s.history[c][i].at <= RESET_WINDOW
    ensures j - i + 1 <= 9
    ensures INITIAL_BACKOFF * (Pow2(j - i) - 1) < s.history[c][j].at - s.history[c][i].at
  {
    ReachedInv(l, n, now, run, s, c, 1);
    assert ClientOk(s, c);
    SerialSpread(s.history[c], i, j);
    WindowIndices(s.history[c], i, j, 1);
    DoubledIsProduct(INITIAL_BACKOFF, j - i);
  }

  /** A client that at most k calls hold at once fails at most k + 9 times in any 30 s window, and
      at most k + 8 times if k is 1 or 2, however late records are tested. */
  lemma AttemptBound(l: Limits, n: nat, now: int, run: seq<Action>, s: State, c: nat, k: nat, i: nat, j: nat)
    requires ReachesHeld(l, n, now, run, s, c, k)
    requires |s.history| == n && i <= j < |s.history[c]|
    requires s.history[c][j].at - s.history[c][i].at <= RESET_WINDOW
    ensures j - i + 1 <= AttemptLimit(k) <= k + 9 && (k <= 2 ==> j - i + 1 <= k + 8)
  {
    ReachedInv(l, n, now, run, s, c, k);
    assert ClientOk(s, c);
    WindowIndices(s.history[c], i, j, k);
  }

  lemma CountWithinLimit(l: Limits, s: State, c: nat, k: nat, t: int)
    requires Inv(l, s, c, k) && k >= 1 && s.now - t <= RESET_WINDOW
    ensures CountFrom(s.history[c], t) <= AttemptLimit(k)
  {
    var h := s.history[c];
    assert ClientOk(s, c);
    if CountFrom(h, t) > 0 {
      CountedAreLast(h, t);
      WindowIndices(h, |h| - CountFrom(h, t), |h| - 1, k);
    }
  }

  /** A call that has been running for at most 30 s over n clients, none of which more than k calls
      hold at once, has failed at most (k + 9) * n times, and 9 * n times if k is 1: its recursion
      ends or outlasts the window. */
  lemma CallFailureBound(l: Limits, n: nat, now: int, run: seq<Action>, s: State, k: nat, id: CallId)
    requires Reaches(l, n, now, run, s) && id in s.calls && k >= 1
    requires forall c: nat :: c < n ==> ReachesHeld(l, n, now, run, s, c, k)
    requires s.now - s.calls[id].startedAt <= RESET_WINDOW
    ensures s.calls[id].failures <= AttemptLimit(k) * n
    ensures PastOf(l, NewState(n, now), run, id, Past(0, 0)) == Past(s.calls[id].startedAt, s.calls[id].failures)
  {
    CallKnowsItsPast(l, NewState(n, now), run, id, Past(0, 0));
    ReachedCounted(l, n, now, run, s);
    var t := s.calls[id].startedAt;
    forall c: nat | c < n
      ensures CountFrom(s.history[c], t) <= AttemptLimit(k)
    {
      ReachedInv(l, n, now, run, s, c, k);
      CountWithinLimit(l, s, c, k, t);
    }
    TotalAtMost(s.history, t, AttemptLimit(k));
  }

  // ---------- what an error means ----------

  /** The call read c's record during this scan, and at the time of the test c was inside the
      interval left by the failure that record came from. */
  ghost predicate BackedOffWhenTested(s: State, call: Call, c: nat)
    requires c < |call.tested| && c < |s.history|
  {
    var seen := call.tested[c];
    && 0 < seen.epoch <= |s.history[c]|
    && var f := s.history[c][seen.epoch - 1]; f.at <= seen.at <= f.at + f.expiry
  }

  /** Conn gives up only if its last scan found every client inside its backoff interval. */
  lemma ErrorMeaning(l: Limits, n: nat, now: int, run: seq<Action>, s: State, id: CallId)
    requires Reaches(l, n, now, run, s) && id in s.calls && WellFormed(s) && Enabled(l, s, GiveUp(id))
    ensures |s.history| == n == |s.calls[id].tested|
    ensures forall c: nat :: c < n ==> BackedOffWhenTested(s, s.calls[id], c)
  {
    ReachedCounted(l, n, now, run, s);
    assert CallOk(s, s.calls[id]) && WellFormedCall(s, s.calls[id]);
    forall c: nat | c < n
      ensures BackedOffWhenTested(s, s.calls[id], c)
    {
      assert SeenOk(s, s.calls[id].tested[c]) && !Passed(s.calls[id].tested[c]);
    }
  }

  /** A client that is dialed had never failed, or its interval had run out, when the scan tested
      the record it read. */
  lemma DialedWasEligible(l: Limits, n: nat, now: int, run: seq<Action>, s: State, id: CallId)
    requires Reaches(l, n, now, run, s) && id in s.calls && s.calls[id].phase.Dialing?
    ensures var seen := s.calls[id].phase.seen;
            && seen.client < n == |s.history| && seen.epoch <= |s.history[seen.client]|
            && (seen.epoch > 0 ==>
                  var f := s.history[seen.client][seen.epoch - 1]; seen.at > f.at + f.expiry)
  {
    ReachedCounted(l, n, now, run, s);
    assert CallOk(s, s.calls[id]);
  }

  /** A client that at most k calls hold at once is eligible again once more than
      51.2 s * 2^(k-1) have passed since its last failure: after 51.2 s if calls on it do not
      overlap. */
  lemma EligibleAgain(l: Limits, n: nat, now: int, run: seq<Action>, s: State, c: nat, k: nat, later: int)
    requires ReachesHeld(l, n, now, run, s, c, k) && Safe(l, k)
    requires |s.clients| == n
    requires s.clients[c].lastError.Some? ==>
               later - s.clients[c].lastError.value > 51_200 * MILLISECOND * Pow2(k - 1)
    ensures Eligible(s.clients[c], later)
  {
    BackoffCeiling(l, n, now, run, s, c, k);
  }
}
