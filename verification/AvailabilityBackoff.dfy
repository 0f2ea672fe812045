/** How far the availability balancer's backoff can grow, over every run of overlapping calls. */
module AvailabilityBackoff {
  import opened Collections
  import opened Time
  import opened Wrappers
  import opened Powers
  import opened Availability

  // ---------- what the records of a client look like ----------

  /** The record a client has after its first e failures. */
  ghost function BackoffAt(h: seq<Failure>, e: nat): Backoff
    requires e <= |h|
  {
    if e == 0 then NEVER_FAILED else Backoff(Some(h[e - 1].at), h[e - 1].expiry)
  }

  /** Intervals start at the initial backoff. A failure within the reset window of the one before
      doubles the interval, any other starts again. */
  ghost predicate Chain(h: seq<Failure>) {
    && (|h| > 0 ==> h[0].expiry == INITIAL_BACKOFF)
    && (forall i :: 0 < i < |h| ==> Linked(h[i - 1], h[i]))
  }

  ghost predicate Linked(f: Failure, g: Failure) {
    && f.at <= g.since <= g.at
    && g.expiry == if g.since - f.at > RESET_WINDOW then INITIAL_BACKOFF else 2 * f.expiry
  }

  ghost predicate SeenOk(s: State, seen: Seen) {
    && seen.client < |s.history| && seen.epoch <= |s.history[seen.client]|
    && seen.backoff == BackoffAt(s.history[seen.client], seen.epoch)
    && (seen.epoch > 0 ==> s.history[seen.client][seen.epoch - 1].at <= seen.at)
    && seen.at <= s.now
  }

  ghost predicate CallOk(s: State, call: Call) {
    && call.startedAt <= s.now
    && (forall i :: 0 <= i < |call.tested| ==> SeenOk(s, call.tested[i]))
    && (call.phase.Reading? ==> SeenOk(s, Seen(|call.tested|, call.phase.backoff, call.phase.epoch, call.phase.readAt)))
    && (call.phase.Dialing? ==> SeenOk(s, call.phase.seen) && Passed(call.phase.seen))
  }

  ghost predicate ClientOk(s: State, c: nat)
    requires WellFormed(s) && c < |s.clients|
  {
    var h := s.history[c];
    && s.clients[c] == BackoffAt(h, |h|)
    && Chain(h)
    && (|h| > 0 ==> h[|h| - 1].at <= s.now)
  }

  ghost predicate Recorded(s: State) {
    && WellFormed(s)
    && (forall c: nat :: c < |s.clients| ==> ClientOk(s, c))
    && (forall id :: id in s.calls ==> CallOk(s, s.calls[id]))
  }

  /** The failure a Fail action records. */
  ghost function NewFailure(s: State, a: Action): Failure
    requires WellFormed(s) && a.Fail? && a.id in s.calls && s.calls[a.id].phase.Dialing?
  {
    assert WellFormedCall(s, s.calls[a.id]);
    Failure(s.now, s.now + a.delay, RecordError(s.clients[s.calls[a.id].phase.seen.client], s.now, s.now + a.delay).expiry)
  }

  /** Only a failure changes a client's history, by one entry. */
  lemma HistoryAfter(l: Limits, s: State, a: Action, c: nat)
    requires WellFormed(s) && Enabled(l, s, a) && c < |s.clients|
    ensures |Apply(l, s, a).history| == |s.history|
    ensures Apply(l, s, a).history[c] ==
            if a.Fail? && s.calls[a.id].phase.seen.client == c then s.history[c] + [NewFailure(s, a)] else s.history[c]
    ensures s.now <= Apply(l, s, a).now
  {
  }

  lemma SeenKept(l: Limits, s: State, a: Action, seen: Seen)
    requires WellFormed(s) && Enabled(l, s, a) && SeenOk(s, seen)
    ensures SeenOk(Apply(l, s, a), seen)
  {
    HistoryAfter(l, s, a, seen.client);
  }

  lemma ClientStep(l: Limits, s: State, a: Action, c: nat)
    requires Recorded(s) && Enabled(l, s, a) && c < |s.clients| && WellFormed(Apply(l, s, a))
    ensures |Apply(l, s, a).clients| == |s.clients| && ClientOk(Apply(l, s, a), c)
  {
    assert ClientOk(s, c);
    HistoryAfter(l, s, a, c);
    if a.Fail? {
      assert WellFormedCall(s, s.calls[a.id]);
    }
  }

  lemma CallStep(l: Limits, s: State, a: Action, id: CallId)
    requires Recorded(s) && Enabled(l, s, a) && id in Apply(l, s, a).calls
    ensures CallOk(Apply(l, s, a), Apply(l, s, a).calls[id])
  {
    var t := Apply(l, s, a);
    var call := t.calls[id];
    if id in s.calls {
      var old' := s.calls[id];
      assert CallOk(s, old') && WellFormedCall(s, old');
      forall i | 0 <= i < |old'.tested|
        ensures SeenOk(t, old'.tested[i])
      {
        SeenKept(l, s, a, old'.tested[i]);
      }
      if old'.phase.Reading? {
        SeenKept(l, s, a, Seen(|old'.tested|, old'.phase.backoff, old'.phase.epoch, old'.phase.readAt));
      }
      if old'.phase.Dialing? {
        SeenKept(l, s, a, old'.phase.seen);
      }
      if a == Read(id) {
        assert ClientOk(s, |old'.tested|);
      }
    }
  }

  lemma RecordedStep(l: Limits, s: State, a: Action)
    requires Recorded(s) && Enabled(l, s, a)
    ensures Recorded(Apply(l, s, a))
  {
    WellFormedStep(l, s, a);
    var t := Apply(l, s, a);
    forall c: nat | c < |t.clients|
      ensures ClientOk(t, c)
    {
      ClientStep(l, s, a, c);
    }
    forall id | id in t.calls
      ensures CallOk(t, t.calls[id])
    {
      CallStep(l, s, a, id);
    }
  }

  // ---------- intervals are powers of two ----------

  lemma {:induction false} ExpiryForm(h: seq<Failure>, i: nat) returns (j: nat)
    requires Chain(h) && i < |h|
    ensures h[i].expiry == INITIAL_BACKOFF * Pow2(j)
    decreases i
  {
    j := 0;
    if i > 0 {
      assert Linked(h[i - 1], h[i]);
      var k := ExpiryForm(h, i - 1);
      if h[i].expiry != INITIAL_BACKOFF {
        j := k + 1;
      }
    }
  }

  /** The largest interval shorter than the reset window, 25.6 s; the next one is 51.2 s. */
  const KNEE: int := INITIAL_BACKOFF * 256

  lemma AboveKnee(h: seq<Failure>, i: nat)
    requires Chain(h) && i < |h|
    ensures h[i].expiry >= INITIAL_BACKOFF
    ensures h[i].expiry > KNEE ==> h[i].expiry >= 2 * KNEE
  {
    var j := ExpiryForm(h, i);
    if j >= 9 {
      Pow2Monotone(9, j);
      assert Pow2(9) == 512;
    } else {
      Pow2Monotone(j, 8);
      assert Pow2(8) == 256;
    }
  }

  // ---------- the interval, exactly ----------

  /** When a client failed: the reading its age test used, and the one stored. */
  datatype Times = Times(since: int, at: int)

  /** When client c failed during the run. */
  ghost function FailureTimes(l: Limits, s: State, run: seq<Action>, c: nat): seq<Times>
    requires WellFormed(s) && Legal(l, s, run)
    decreases |run|
  {
    if run == [] then []
    else
      WellFormedStep(l, s, run[0]);
      (if FailsOn(s, run[0], c) then [Times(s.now, s.now + run[0].delay)] else [])
      + FailureTimes(l, Apply(l, s, run[0]), run[1..], c)
  }

  /** How many of the failures came in a row, each within 30 s of the one before, up to the last. */
  function Streak(times: seq<Times>): nat
    requires times != []
  {
    var n := |times| - 1;
    if n == 0 || times[n].since - times[n - 1].at > 30_000_000_000 then 0 else Streak(times[..n]) + 1
  }

  /** The record a client should have after failing at these times. */
  function BackoffAfter(times: seq<Times>): Backoff {
    if times == [] then Backoff(None, 0)
    else Backoff(Some(times[|times| - 1].at), 100_000_000 * Pow2(Streak(times)))
  }

  function TimesOf(h: seq<Failure>): (times: seq<Times>)
    ensures |times| == |h| && forall i :: 0 <= i < |h| ==> times[i] == Times(h[i].since, h[i].at)
  {
    seq(|h|, i requires 0 <= i < |h| => Times(h[i].since, h[i].at))
  }

  lemma {:induction false} ChainInterval(h: seq<Failure>, e: nat)
    requires Chain(h) && e <= |h|
    ensures BackoffAt(h, e) == BackoffAfter(TimesOf(h)[..e])
  {
    if e > 0 {
      var times := TimesOf(h)[..e];
      ChainInterval(h, e - 1);
      assert times[..e - 1] == TimesOf(h)[..e - 1];
      if e > 1 {
        assert Linked(h[e - 2], h[e - 1]);
      }
    }
  }

  lemma TimesAfter(l: Limits, s: State, a: Action, c: nat)
    requires WellFormed(s) && Enabled(l, s, a) && c < |s.clients|
    ensures c < |Apply(l, s, a).history|
    ensures TimesOf(Apply(l, s, a).history[c]) ==
            TimesOf(s.history[c]) + (if FailsOn(s, a, c) then [Times(s.now, s.now + a.delay)] else [])
  {
    HistoryAfter(l, s, a, c);
  }

  lemma Concat<T>(a: seq<T>, b: seq<T>, c: seq<T>)
    ensures (a + b) + c == a + (b + c)
  {
  }

  lemma {:induction false} HistoryIsFailureTimes(l: Limits, s: State, run: seq<Action>, c: nat)
    requires WellFormed(s) && Legal(l, s, run) && c < |s.clients|
    ensures c < |After(l, s, run).history|
    ensures TimesOf(After(l, s, run).history[c]) == TimesOf(s.history[c]) + FailureTimes(l, s, run, c)
    decreases |run|
  {
    if run != [] {
      var t, first := Apply(l, s, run[0]), if FailsOn(s, run[0], c) then [Times(s.now, s.now + run[0].delay)] else [];
      WellFormedStep(l, s, run[0]);
      TimesAfter(l, s, run[0], c);
      HistoryIsFailureTimes(l, t, run[1..], c);
      Concat(TimesOf(s.history[c]), first, FailureTimes(l, t, run[1..], c));
    }
  }

  lemma {:induction false} RecordedRun(l: Limits, s: State, run: seq<Action>)
    requires Recorded(s) && Legal(l, s, run)
    ensures Recorded(After(l, s, run))
    decreases |run|
  {
    if run != [] {
      RecordedStep(l, s, run[0]);
      RecordedRun(l, Apply(l, s, run[0]), run[1..]);
    }
  }

  /** In every state that a run can lead to, a client's record is what the times of its failures in
      the run say: the time of the last one, and 100 ms doubled once for each failure since the last
      one that was tested more than 30 s after the one before it. */
  lemma IntervalExact(l: Limits, n: nat, now: int, run: seq<Action>, s: State, c: nat)
    requires Reaches(l, n, now, run, s) && c < n
    ensures |s.clients| == n && s.clients[c] == BackoffAfter(FailureTimes(l, NewState(n, now), run, c))
  {
    InitialRecorded(n, now);
    RecordedRun(l, NewState(n, now), run);
    ClientsKept(l, NewState(n, now), run);
    HistoryIsFailureTimes(l, NewState(n, now), run, c);
    var h := s.history[c];
    assert NewState(n, now).history[c] == [] && ClientOk(s, c);
    ChainInterval(h, |h|);
    assert TimesOf(h)[..|h|] == TimesOf(h) == FailureTimes(l, NewState(n, now), run, c);
  }

  // ---------- attempts that can still fail on old information ----------

  /** The number of failures of c known to the call, if its reading of c may still lead to a dial. */
  ghost function HeldEpoch(l: Limits, call: Call, c: nat): Option<nat> {
    if call.phase.Dialing? then
      if call.phase.seen.client == c then Some(call.phase.seen.epoch) else None
    else if c < |call.tested| then
      if Passed(call.tested[c]) then Some(call.tested[c].epoch) else None
    else if call.phase.Reading? && c == |call.tested| && Eligible(call.phase.backoff, call.phase.readAt + l.lag) then
      Some(call.phase.epoch)
    else
      None
  }

  /** The calls that dial c, or that have read its record and may dial it because of that reading. */
  ghost function Holders(l: Limits, s: State, c: nat): set<CallId> {
    set id | id in s.calls && HeldEpoch(l, s.calls[id], c).Some?
  }

  /** The action records a failure of c. */
  predicate FailsOn(s: State, a: Action, c: nat) {
    a.Fail? && a.id in s.calls && s.calls[a.id].phase.Dialing? && s.calls[a.id].phase.seen.client == c
  }

  /** Whenever c fails during the run, at most k calls hold it, the failing one among them; calls
      that do not hold c are not limited. */
  ghost predicate HeldWithin(l: Limits, s: State, run: seq<Action>, c: nat, k: nat)
    requires WellFormed(s) && Legal(l, s, run)
    decreases |run|
  {
    run == [] ||
    (&& (FailsOn(s, run[0], c) ==> |Holders(l, s, c)| <= k)
     && (WellFormedStep(l, s, run[0]); HeldWithin(l, Apply(l, s, run[0]), run[1..], c, k)))
  }

  ghost predicate IsStale(l: Limits, s: State, c: nat, m: nat, id: CallId) {
    id in s.calls && HeldEpoch(l, s.calls[id], c).Some? && HeldEpoch(l, s.calls[id], c).value < m
  }

  /** Calls that hold c and read its record before its m-th failure. */
  ghost function Stale(l: Limits, s: State, c: nat, m: nat): set<CallId> {
    set id | id in s.calls && IsStale(l, s, c, m, id)
  }

  /** Only a failure of c makes an attempt on c stale. */
  lemma StaleKept(l: Limits, s: State, a: Action, c: nat, m: nat)
    requires Recorded(s) && Enabled(l, s, a) && c < |s.clients| && m <= |s.history[c]|
    requires !(a.Fail? && s.calls[a.id].phase.seen.client == c)
    ensures |Stale(l, Apply(l, s, a), c, m)| <= |Stale(l, s, c, m)|
  {
    var t := Apply(l, s, a);
    forall id | id in Stale(l, t, c, m)
      ensures id in Stale(l, s, c, m)
    {
      if id in s.calls {
        assert WellFormedCall(s, s.calls[id]) && CallOk(s, s.calls[id]);
      }
    }
    SubsetSize(Stale(l, t, c, m), Stale(l, s, c, m));
  }

  /** A call that fails is no longer stale, and no other call is touched. */
  lemma StaleAtFailure(l: Limits, s: State, a: Action, c: nat, m: nat)
    requires Recorded(s) && a.Fail? && Enabled(l, s, a) && c == s.calls[a.id].phase.seen.client
    ensures Stale(l, Apply(l, s, a), c, m) == Stale(l, s, c, m) - {a.id}
    ensures a.id in Holders(l, s, c)
    ensures |Stale(l, Apply(l, s, a), c, m)| < |Holders(l, s, c)|
  {
    var t := Apply(l, s, a);
    SubsetSize(Stale(l, t, c, m), Holders(l, s, c) - {a.id});
  }

  // ---------- how fast a client can fail ----------

  /** How long a failure keeps new attempts away, as far as a reset window can tell. */
  function Wait(f: Failure): int {
    if f.expiry < RESET_WINDOW then f.expiry else RESET_WINDOW
  }

  /** Of k + 1 failures in a row the last comes after the wait that the first one imposed. */
  ghost predicate Paced(h: seq<Failure>, k: nat) {
    forall i, j :: 0 <= i && i + k <= j < |h| ==> h[j].at - h[i].at > Wait(h[i])
  }

  /** Since failure i the wait is over, or every failure so far was an attempt that is not among
      the stale ones any more. */
  ghost predicate PacedSince(l: Limits, s: State, c: nat, k: nat, i: nat)
    requires c < |s.history| && i < |s.history[c]|
  {
    var h := s.history[c];
    h[|h| - 1].at - h[i].at > Wait(h[i]) || |h| - 1 - i + |Stale(l, s, c, i + 1)| < k
  }

  ghost predicate Pacing(l: Limits, s: State, c: nat, k: nat)
    requires c < |s.history|
  {
    Paced(s.history[c], k) && forall i: nat :: i < |s.history[c]| ==> PacedSince(l, s, c, k, i)
  }

  /** Within one reset window every failure doubles the interval. */
  lemma {:induction false} DoublesWithinWindow(h: seq<Failure>, i: nat, j: nat)
    requires Chain(h) && i <= j < |h| && h[j].at - h[i].at <= RESET_WINDOW
    ensures h[i].at <= h[j].at && h[j].expiry == Doubled(h[i].expiry, j - i)
    ensures forall k :: i <= k <= j ==> h[i].at <= h[k].at <= h[j].at
    decreases j
  {
    if i < j {
      assert Linked(h[j - 1], h[j]);
      DoublesWithinWindow(h, i, j - 1);
      DoubledOnceMore(h[i].expiry, j - 1 - i);
    }
  }

  /** An attempt that passed the test of the record left by failure e - 1 comes after the wait
      imposed by every earlier failure. */
  lemma FreshIsLate(h: seq<Failure>, i: nat, e: nat, at: int)
    requires Chain(h) && i < e <= |h| && at - h[e - 1].at > h[e - 1].expiry
    ensures at - h[i].at > Wait(h[i])
  {
    AboveKnee(h, e - 1);
    if h[e - 1].at - h[i].at <= RESET_WINDOW {
      DoublesWithinWindow(h, i, e - 1);
      AboveKnee(h, i);
      DoubledMonotone(h[i].expiry, h[i].expiry, 0, e - 1 - i);
    }
  }

  lemma PacedSinceElsewhere(l: Limits, s: State, a: Action, c: nat, k: nat, i: nat)
    requires Recorded(s) && Enabled(l, s, a) && c < |s.clients| && i < |s.history[c]| && PacedSince(l, s, c, k, i)
    requires !(a.Fail? && s.calls[a.id].phase.seen.client == c)
    ensures var t := Apply(l, s, a);
            c < |t.history| && t.history[c] == s.history[c] && PacedSince(l, t, c, k, i)
  {
    HistoryAfter(l, s, a, c);
    StaleKept(l, s, a, c, i + 1);
  }

  /** The failing call was stale, or it comes after the wait. */
  lemma StaleOrLate(l: Limits, s: State, a: Action, c: nat, i: nat)
    requires Recorded(s) && a.Fail? && Enabled(l, s, a) && c == s.calls[a.id].phase.seen.client
    requires c < |s.clients| && i < |s.history[c]|
    ensures a.id in Stale(l, s, c, i + 1) || s.now + a.delay - s.history[c][i].at > Wait(s.history[c][i])
  {
    var h, seen := s.history[c], s.calls[a.id].phase.seen;
    assert ClientOk(s, c) && CallOk(s, s.calls[a.id]);
    if a.id !in Stale(l, s, c, i + 1) {
      FreshIsLate(h, i, seen.epoch, seen.at);
    }
  }

  /** The failure that starts the wait. */
  lemma PacedSinceItself(l: Limits, s: State, a: Action, c: nat, k: nat)
    requires Recorded(s) && a.Fail? && Enabled(l, s, a) && c == s.calls[a.id].phase.seen.client
    requires c < |s.clients| && |Holders(l, s, c)| <= k
    ensures var t := Apply(l, s, a);
            c < |t.history| && |t.history[c]| == |s.history[c]| + 1 && PacedSince(l, t, c, k, |s.history[c]|)
  {
    HistoryAfter(l, s, a, c);
    StaleAtFailure(l, s, a, c, |s.history[c]| + 1);
  }

  /** A failure after an earlier one. */
  lemma PacedSinceEarlier(l: Limits, s: State, a: Action, c: nat, k: nat, i: nat)
    requires Recorded(s) && a.Fail? && Enabled(l, s, a) && c == s.calls[a.id].phase.seen.client
    requires c < |s.clients| && i < |s.history[c]| && PacedSince(l, s, c, k, i)
    ensures var t := Apply(l, s, a);
            c < |t.history| && |t.history[c]| == |s.history[c]| + 1 && PacedSince(l, t, c, k, i)
  {
    HistoryAfter(l, s, a, c);
    StaleAtFailure(l, s, a, c, i + 1);
    StaleOrLate(l, s, a, c, i);
    assert ClientOk(s, c);
  }

  lemma PacingStep(l: Limits, s: State, a: Action, c: nat, k: nat)
    requires Recorded(s) && Enabled(l, s, a) && c < |s.clients| && Pacing(l, s, c, k)
    requires FailsOn(s, a, c) ==> |Holders(l, s, c)| <= k
    ensures c < |Apply(l, s, a).history| && Pacing(l, Apply(l, s, a), c, k)
  {
    var t := Apply(l, s, a);
    HistoryAfter(l, s, a, c);
    forall i: nat | i < |t.history[c]|
      ensures PacedSince(l, t, c, k, i)
    {
      if a.Fail? && s.calls[a.id].phase.seen.client == c {
        if i < |s.history[c]| {
          PacedSinceEarlier(l, s, a, c, k, i);
        } else {
          PacedSinceItself(l, s, a, c, k);
        }
      } else {
        PacedSinceElsewhere(l, s, a, c, k, i);
      }
    }
    PacedGrows(l, s, t, c, k);
  }

  lemma PacedGrows(l: Limits, s: State, t: State, c: nat, k: nat)
    requires c < |s.history| && c < |t.history| && Paced(s.history[c], k)
    requires t.history[c] == s.history[c] ||
             (|t.history[c]| == |s.history[c]| + 1 && s.history[c] == t.history[c][..|s.history[c]|])
    requires forall i: nat :: i < |t.history[c]| ==> PacedSince(l, t, c, k, i)
    ensures Paced(t.history[c], k)
  {
    var h, h' := s.history[c], t.history[c];
    forall i: nat, j: nat | i + k <= j < |h'|
      ensures h'[j].at - h'[i].at > Wait(h'[i])
    {
      assert PacedSince(l, t, c, k, i);
      if j < |h| {
        assert h'[j] == h[j] && h'[i] == h[i];
      }
    }
  }

  // ---------- how long an interval can get ----------

  /** The longest interval a client can get when k calls hold it: 51.2 s * 2^(k-1). */
  ghost function Ceiling(k: nat): int {
    Doubled(KNEE, k)
  }

  /** A long interval leaves room for one doubling per stale attempt. */
  ghost predicate Bounded(l: Limits, s: State, c: nat, k: nat)
    requires c < |s.history|
  {
    var h := s.history[c];
    && (|h| > 0 && h[|h| - 1].expiry > KNEE ==> Doubled(h[|h| - 1].expiry, |Stale(l, s, c, |h|)|) <= Ceiling(k))
    && (forall i :: 0 <= i < |h| ==> h[i].expiry <= Ceiling(k))
  }

  /** The reading-to-test lag up to which the ceiling holds: 51.2 s less the reset window. */
  const SAFE_LAG: int := 2 * KNEE - RESET_WINDOW

  /** When the ceiling is safe: one call at a time holds the client, or records are tested in time. */
  predicate Safe(l: Limits, k: nat) {
    k == 1 || l.lag <= SAFE_LAG
  }

  ghost predicate Inv(l: Limits, s: State, c: nat, k: nat) {
    && Recorded(s) && c < |s.clients|
    && Pacing(l, s, c, k)
    && (Safe(l, k) ==> Bounded(l, s, c, k))
  }

  /** The attempt a.id is about to double a long interval of c. */
  ghost predicate DoublesLong(l: Limits, s: State, a: Action, c: nat) {
    && Recorded(s) && a.Fail? && Enabled(l, s, a) && c == s.calls[a.id].phase.seen.client && c < |s.clients|
    && |s.history[c]| > 0 && s.clients[c].lastError.Some? && s.clients[c].expiry > KNEE
    && s.now - s.clients[c].lastError.value <= RESET_WINDOW
  }

  /** A long interval is doubled only by an attempt that was stale already, */
  lemma DoubledByStale(l: Limits, s: State, a: Action, c: nat)
    requires DoublesLong(l, s, a, c)
    ensures a.id in Stale(l, s, c, |s.history[c]|)
  {
    var h := s.history[c];
    assert ClientOk(s, c);
    AboveKnee(h, |h| - 1);
    assert CallOk(s, s.calls[a.id]);
  }

  /** and, if records are tested in time, leaves no attempt stale that was not so before. */
  lemma NoneNewlyStale(l: Limits, s: State, a: Action, c: nat)
    requires DoublesLong(l, s, a, c) && l.lag <= SAFE_LAG
    ensures Stale(l, s, c, |s.history[c]| + 1) <= Stale(l, s, c, |s.history[c]|)
  {
    var h := s.history[c];
    assert ClientOk(s, c);
    AboveKnee(h, |h| - 1);
    forall id | id in Stale(l, s, c, |h| + 1)
      ensures id in Stale(l, s, c, |h|)
    {
      assert WellFormedCall(s, s.calls[id]) && CallOk(s, s.calls[id]);
    }
  }

  lemma BoundedElsewhere(l: Limits, s: State, a: Action, c: nat, k: nat)
    requires Recorded(s) && Enabled(l, s, a) && c < |s.clients| && Bounded(l, s, c, k)
    requires !(a.Fail? && s.calls[a.id].phase.seen.client == c)
    ensures c < |Apply(l, s, a).history| && Bounded(l, Apply(l, s, a), c, k)
  {
    var t, h := Apply(l, s, a), s.history[c];
    HistoryAfter(l, s, a, c);
    StaleKept(l, s, a, c, |h|);
    if |h| > 0 && h[|h| - 1].expiry > KNEE {
      DoubledMonotone(h[|h| - 1].expiry, h[|h| - 1].expiry, |Stale(l, t, c, |h|)|, |Stale(l, s, c, |h|)|);
    }
  }

  /** A doubling of a long interval is paid for by the stale attempt that caused it. */
  lemma LongIntervalDoubles(l: Limits, s: State, a: Action, c: nat, k: nat)
    requires Inv(l, s, c, k) && DoublesLong(l, s, a, c) && Safe(l, k)
    ensures Doubled(2 * s.clients[c].expiry, |Stale(l, Apply(l, s, a), c, |s.history[c]| + 1)|) <= Ceiling(k)
  {
    var t, h, e := Apply(l, s, a), s.history[c], s.clients[c].expiry;
    assert ClientOk(s, c) && PacedSince(l, s, c, k, |h| - 1);
    AboveKnee(h, |h| - 1);
    DoubledByStale(l, s, a, c);
    assert k != 1;
    NoneNewlyStale(l, s, a, c);
    StaleAtFailure(l, s, a, c, |h| + 1);
    SubsetSize(Stale(l, t, c, |h| + 1), Stale(l, s, c, |h|) - {a.id});
    DoubledMonotone(2 * e, 2 * e, |Stale(l, t, c, |h| + 1)|, |Stale(l, s, c, |h|)| - 1);
  }

  /** Any other failure leaves an interval of at most 51.2 s. */
  lemma OtherInterval(l: Limits, s: State, a: Action, c: nat)
    requires Recorded(s) && a.Fail? && Enabled(l, s, a) && c == s.calls[a.id].phase.seen.client && c < |s.clients|
    requires !DoublesLong(l, s, a, c)
    ensures INITIAL_BACKOFF <= NewFailure(s, a).expiry <= 2 * KNEE
  {
    var h := s.history[c];
    assert ClientOk(s, c);
    if |h| > 0 {
      AboveKnee(h, |h| - 1);
    }
  }

  lemma NewIntervalFits(l: Limits, s: State, a: Action, c: nat, k: nat)
    requires Inv(l, s, c, k) && a.Fail? && Enabled(l, s, a) && Safe(l, k)
    requires c == s.calls[a.id].phase.seen.client && |Holders(l, s, c)| <= k
    ensures var e := NewFailure(s, a).expiry;
            e >= 0 && Doubled(e, |Stale(l, Apply(l, s, a), c, |s.history[c]| + 1)|) <= Ceiling(k)
  {
    var stale := |Stale(l, Apply(l, s, a), c, |s.history[c]| + 1)|;
    if DoublesLong(l, s, a, c) {
      LongIntervalDoubles(l, s, a, c, k);
    } else {
      OtherInterval(l, s, a, c);
      StaleAtFailure(l, s, a, c, |s.history[c]| + 1);
      DoubledMonotone(NewFailure(s, a).expiry, 2 * KNEE, stale, k - 1);
    }
  }

  lemma BoundedAtFailure(l: Limits, s: State, a: Action, c: nat, k: nat)
    requires Inv(l, s, c, k) && a.Fail? && Enabled(l, s, a) && Safe(l, k)
    requires c == s.calls[a.id].phase.seen.client && |Holders(l, s, c)| <= k
    ensures c < |Apply(l, s, a).history| && Bounded(l, Apply(l, s, a), c, k)
  {
    HistoryAfter(l, s, a, c);
    NewIntervalFits(l, s, a, c, k);
    var e := NewFailure(s, a).expiry;
    DoubledMonotone(e, e, 0, |Stale(l, Apply(l, s, a), c, |s.history[c]| + 1)|);
  }

  lemma InvStep(l: Limits, s: State, a: Action, c: nat, k: nat)
    requires Inv(l, s, c, k) && Enabled(l, s, a) && (FailsOn(s, a, c) ==> |Holders(l, s, c)| <= k)
    ensures Inv(l, Apply(l, s, a), c, k)
  {
    RecordedStep(l, s, a);
    WellFormedStep(l, s, a);
    PacingStep(l, s, a, c, k);
    if Safe(l, k) {
      if a.Fail? && s.calls[a.id].phase.seen.client == c {
        BoundedAtFailure(l, s, a, c, k);
      } else {
        BoundedElsewhere(l, s, a, c, k);
      }
    }
  }

  lemma {:induction false} InvRun(l: Limits, s: State, run: seq<Action>, c: nat, k: nat)
    requires Inv(l, s, c, k) && Legal(l, s, run) && HeldWithin(l, s, run, c, k)
    ensures Inv(l, After(l, s, run), c, k)
    decreases |run|
  {
    if run != [] {
      InvStep(l, s, run[0], c, k);
      InvRun(l, Apply(l, s, run[0]), run[1..], c, k);
    }
  }

  lemma InitialRecorded(n: nat, now: int)
    ensures Recorded(NewState(n, now))
  {
    var s := NewState(n, now);
    forall c: nat | c < n
      ensures ClientOk(s, c)
    {
      assert s.history[c] == [];
    }
  }

  /** s is where a run within the limits can take a balancer over n clients. */
  ghost predicate Reaches(l: Limits, n: nat, now: int, run: seq<Action>, s: State) {
    WellFormed(NewState(n, now)) && Legal(l, NewState(n, now), run) && s == After(l, NewState(n, now), run)
  }

  /** The run leads to s, and at most k calls hold c whenever it fails. */
  ghost predicate ReachesHeld(l: Limits, n: nat, now: int, run: seq<Action>, s: State, c: nat, k: nat) {
    Reaches(l, n, now, run, s) && c < n && k >= 1 && HeldWithin(l, NewState(n, now), run, c, k)
  }

  lemma ReachedInv(l: Limits, n: nat, now: int, run: seq<Action>, s: State, c: nat, k: nat)
    requires ReachesHeld(l, n, now, run, s, c, k)
    ensures Inv(l, s, c, k) && |s.clients| == n
  {
    InitialRecorded(n, now);
    assert NewState(n, now).history[c] == [];
    InvRun(l, NewState(n, now), run, c, k);
    ClientsKept(l, NewState(n, now), run);
  }

  lemma {:induction false} ClientsKept(l: Limits, s: State, run: seq<Action>)
    requires WellFormed(s) && Legal(l, s, run)
    ensures |After(l, s, run).clients| == |s.clients|
    decreases |run|
  {
    if run != [] {
      WellFormedStep(l, s, run[0]);
      ClientsKept(l, Apply(l, s, run[0]), run[1..]);
    }
  }

  lemma CallsAfter(l: Limits, s: State, a: Action)
    requires WellFormed(s) && Enabled(l, s, a) && |s.calls| <= l.overlap
    ensures |Apply(l, s, a).calls| <= l.overlap
  {
    var t := Apply(l, s, a);
    if a.Start? {
      assert t.calls.Keys == s.calls.Keys + {a.id};
      assert |t.calls.Keys| == |s.calls.Keys| + 1;
    } else {
      SubsetSize(t.calls.Keys, s.calls.Keys);
    }
  }

  /** Where at most k calls overlap, at most k calls hold any client. */
  lemma {:induction false} HeldWithinOverlap(l: Limits, s: State, run: seq<Action>, c: nat)
    requires WellFormed(s) && Legal(l, s, run) && |s.calls| <= l.overlap
    ensures HeldWithin(l, s, run, c, l.overlap)
    decreases |run|
  {
    SubsetSize(Holders(l, s, c), s.calls.Keys);
    if run != [] {
      WellFormedStep(l, s, run[0]);
      CallsAfter(l, s, run[0]);
      HeldWithinOverlap(l, Apply(l, s, run[0]), run[1..], c);
    }
  }

  /** So whatever is said of clients held by at most k calls is said of k overlapping calls. */
  lemma OverlapHolds(l: Limits, n: nat, now: int, run: seq<Action>, s: State, c: nat)
    requires Reaches(l, n, now, run, s) && c < n && l.overlap >= 1
    ensures ReachesHeld(l, n, now, run, s, c, l.overlap)
  {
    HeldWithinOverlap(l, NewState(n, now), run, c);
  }

  /** The calls that dial c. */
  ghost function Dialers(s: State, c: nat): set<CallId> {
    set id | id in s.calls && s.calls[id].phase.Dialing? && s.calls[id].phase.seen.client == c
  }

  /** Whenever c fails, no call is in the middle of a scan and at most k calls dial c. */
  ghost predicate DialedWithin(l: Limits, s: State, run: seq<Action>, c: nat, k: nat)
    requires WellFormed(s) && Legal(l, s, run)
    decreases |run|
  {
    run == [] ||
    (&& (FailsOn(s, run[0], c) ==> NoneScanning(s) && |Dialers(s, c)| <= k)
     && (WellFormedStep(l, s, run[0]); DialedWithin(l, Apply(l, s, run[0]), run[1..], c, k)))
  }

  ghost predicate NoneScanning(s: State) {
    forall id :: id in s.calls ==> s.calls[id].phase.Dialing? || (s.calls[id].phase.Scanning? && s.calls[id].tested == [])
  }

  /** If failures do not come in the middle of a scan, only the calls that dial a client count. */
  lemma {:induction false} OnlyDialersHold(l: Limits, s: State, run: seq<Action>, c: nat, k: nat)
    requires WellFormed(s) && Legal(l, s, run) && DialedWithin(l, s, run, c, k)
    ensures HeldWithin(l, s, run, c, k)
    decreases |run|
  {
    if run != [] {
      if FailsOn(s, run[0], c) {
        assert Holders(l, s, c) == Dialers(s, c);
      }
      WellFormedStep(l, s, run[0]);
      OnlyDialersHold(l, Apply(l, s, run[0]), run[1..], c, k);
    }
  }

  /** If at most k calls hold a client whenever it fails, its interval is 0 or 100 ms * 2^j and at
      most 51.2 s * 2^(k-1), however many calls there are in all: 51.2 s if calls on it do not
      overlap. */
  lemma BackoffCeiling(l: Limits, n: nat, now: int, run: seq<Action>, s: State, c: nat, k: nat)
    requires ReachesHeld(l, n, now, run, s, c, k) && Safe(l, k)
    ensures |s.clients| == n
    ensures s.clients[c].expiry == 0 || exists j: nat :: s.clients[c].expiry == INITIAL_BACKOFF * Pow2(j)
    ensures s.clients[c].expiry <= 51_200 * MILLISECOND * Pow2(k - 1)
    ensures k <= 28 ==> s.clients[c].expiry < 0x8000_0000_0000_0000
  {
    ReachedInv(l, n, now, run, s, c, k);
    var h := s.history[c];
    assert ClientOk(s, c);
    if |h| > 0 {
      var j := ExpiryForm(h, |h| - 1);
    }
    CeilingValue(k);
  }

  /** The ceiling in plain terms; for up to 28 calls it fits a 64-bit duration. */
  lemma CeilingValue(k: nat)
    requires k > 0
    ensures 0 <= Ceiling(k) == 51_200 * MILLISECOND * Pow2(k - 1)
    ensures k <= 28 ==> Ceiling(k) < 0x8000_0000_0000_0000
  {
    DoubledIsProduct(2 * KNEE, k - 1);
    DoubledMonotone(2 * KNEE, 2 * KNEE, 0, k - 1);
    if k <= 28 {
      DoubledMonotone(2 * KNEE, 2 * KNEE, k - 1, 27);
      DoubledIsProduct(2 * KNEE, 27);
      Pow2At27();
    }
  }

  lemma Pow2At27()
    ensures Pow2(27) == 0x800_0000
  {
    Pow2Add(9, 9);
    Pow2Add(18, 9);
    assert Pow2(9) == 512;
  }
}
