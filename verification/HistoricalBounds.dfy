/** How far the historical-connections policy can let success counts drift apart when the two reads
    of a comparison can be interrupted. */
module HistoricalBounds {
  import opened Collections
  import opened Historical

  // ---------- ahead of earlier candidates ----------

  /** The call is on i, or has read a count of i below u and will be on i once its client is at u. */
  predicate Threatens(call: Call, i: nat, u: nat) {
    call.client == i || (call.progress.Comparing? && call.progress.next == i && call.progress.count < u)
  }

  ghost function Threats(s: State, i: nat, u: nat): set<CallId> {
    set id | id in s.calls && Threatens(s.calls[id], i, u)
  }

  /** No candidate before i is above u. */
  predicate Covers(counts: seq<nat>, i: nat, u: nat) {
    forall b :: 0 <= b < i && b < |counts| ==> counts[b] <= u
  }

  /** Once i has reached u while all candidates before it are at most there, each call that raises
      it further is one that threatened to. */
  ghost predicate LaterLimited(limit: nat, s: State, i: nat, u: nat) {
    0 < i < |s.successful| && Covers(s.successful, i, u) && s.successful[i] >= u ==>
      s.successful[i] - u + |Threats(s, i, u)| < limit
  }

  /** New threats appear only while i is below u. */
  lemma ThreatsAfter(limit: nat, s: State, a: Action, i: nat, u: nat)
    requires WellFormed(s) && Enabled(limit, s, a) && !a.Select? && 0 < i < |s.successful|
    requires Covers(s.successful, i, u) && s.successful[i] >= u
    ensures Threats(Apply(limit, s, a), i, u) <= Threats(s, i, u)
  {
    var t := Apply(limit, s, a);
    forall id | id in Threats(t, i, u)
      ensures id in Threats(s, i, u)
    {
      if id in s.calls {
        assert WellFormedCall(s.successful, s.calls[id]);
      }
    }
  }

  /** After a record there is a call less. */
  lemma OneLess(limit: nat, s: State, a: Action, after: set<CallId>)
    requires WellFormed(s) && Enabled(limit, s, a) && a.Record? && |s.calls| <= limit
    requires after <= Apply(limit, s, a).calls.Keys
    ensures |after| < limit
  {
    SubsetSize(after, s.calls.Keys - {a.id});
  }

  lemma LaterStep(limit: nat, s: State, a: Action, i: nat, u: nat)
    requires WellFormed(s) && |s.calls| <= limit && Enabled(limit, s, a) && !a.Select? && LaterLimited(limit, s, i, u)
    ensures LaterLimited(limit, Apply(limit, s, a), i, u)
  {
    var t := Apply(limit, s, a);
    WellFormedStep(limit, s, a);
    if 0 < i < |t.successful| && Covers(t.successful, i, u) && t.successful[i] >= u {
      CoveredBefore(limit, s, a, i, u);
      if s.successful[i] >= u {
        ThreatsAfter(limit, s, a, i, u);
        if t.successful[i] > s.successful[i] {
          assert a.id in Threats(s, i, u);
          SubsetSize(Threats(t, i, u), Threats(s, i, u) - {a.id});
        } else {
          SubsetSize(Threats(t, i, u), Threats(s, i, u));
        }
      } else {
        OneLess(limit, s, a, Threats(t, i, u));
      }
    }
  }

  /** Counts never fall, and grow by one. */
  lemma CoveredBefore(limit: nat, s: State, a: Action, i: nat, u: nat)
    requires WellFormed(s) && Enabled(limit, s, a) && i < |s.successful|
    requires Covers(Apply(limit, s, a).successful, i, u)
    ensures Covers(s.successful, i, u) && |Apply(limit, s, a).successful| == |s.successful|
    ensures forall c :: 0 <= c < |s.successful| ==>
              s.successful[c] <= Apply(limit, s, a).successful[c] <= s.successful[c] + 1
    ensures forall c :: 0 <= c < |s.successful| && Apply(limit, s, a).successful[c] > s.successful[c] ==>
              a.Record? && s.calls[a.id].client == c
  {
    WellFormedStep(limit, s, a);
    var t := Apply(limit, s, a);
    forall b | 0 <= b < i && b < |s.successful|
      ensures s.successful[b] <= u
    {
      assert t.successful[b] <= u;
    }
  }

  // ---------- ahead of later candidates ----------

  /** Calls on i that are done with d. */
  ghost function Beyond(s: State, i: nat, d: nat): set<CallId> {
    set id | id in s.calls && s.calls[id].client == i && d < Seen(|s.successful|, s.calls[id])
  }

  ghost predicate EarlierLimited(limit: nat, s: State, i: nat, d: nat) {
    i < d < |s.successful| && s.successful[i] > s.successful[d] ==>
      s.successful[i] - s.successful[d] + |Beyond(s, i, d)| <= limit
  }

  /** A call stays on i after a comparison with d only if i is not ahead. */
  lemma BeyondAfter(limit: nat, s: State, a: Action, i: nat, d: nat)
    requires WellFormed(s) && Enabled(limit, s, a) && !a.Select? && i < d < |s.successful|
    requires s.successful[i] > s.successful[d]
    ensures Beyond(Apply(limit, s, a), i, d) <= Beyond(s, i, d)
  {
    var t := Apply(limit, s, a);
    WellFormedStep(limit, s, a);
    forall id | id in Beyond(t, i, d)
      ensures id in Beyond(s, i, d)
    {
      if id in s.calls {
        assert WellFormedCall(s.successful, s.calls[id]);
      }
    }
  }

  lemma EarlierStep(limit: nat, s: State, a: Action, i: nat, d: nat)
    requires WellFormed(s) && |s.calls| <= limit && Enabled(limit, s, a) && !a.Select? && EarlierLimited(limit, s, i, d)
    ensures EarlierLimited(limit, Apply(limit, s, a), i, d)
  {
    var t := Apply(limit, s, a);
    WellFormedStep(limit, s, a);
    if i < d < |t.successful| && t.successful[i] > t.successful[d] {
      CoveredBefore(limit, s, a, 0, 0);
      if s.successful[i] > s.successful[d] {
        BeyondAfter(limit, s, a, i, d);
        if t.successful[i] > s.successful[i] {
          assert a.id in Beyond(s, i, d);
          SubsetSize(Beyond(t, i, d), Beyond(s, i, d) - {a.id});
        } else {
          SubsetSize(Beyond(t, i, d), Beyond(s, i, d));
        }
      } else {
        OneLess(limit, s, a, Beyond(t, i, d));
      }
    }
  }

  // ---------- every number of clients ----------

  ghost predicate Paired(limit: nat, s: State) {
    && (forall i: nat, u: nat :: LaterLimited(limit, s, i, u))
    && (forall i: nat, d: nat :: EarlierLimited(limit, s, i, d))
  }

  lemma PairedStep(limit: nat, s: State, a: Action)
    requires WellFormed(s) && |s.calls| <= limit && Enabled(limit, s, a) && !a.Select? && Paired(limit, s)
    ensures Paired(limit, Apply(limit, s, a))
  {
    forall i: nat, u: nat
      ensures LaterLimited(limit, Apply(limit, s, a), i, u)
    {
      LaterStep(limit, s, a, i, u);
    }
    forall i: nat, d: nat
      ensures EarlierLimited(limit, Apply(limit, s, a), i, d)
    {
      EarlierStep(limit, s, a, i, d);
    }
  }

  lemma {:induction false} PairedRun(limit: nat, s: State, run: seq<Action>)
    requires Inv(limit, s) && Paired(limit, s) && Legal(limit, s, run) && ByPolicy(run)
    ensures Paired(limit, After(limit, s, run))
    decreases |run|
  {
    if run != [] {
      InvStep(limit, s, run[0]);
      PairedStep(limit, s, run[0]);
      PairedRun(limit, Apply(limit, s, run[0]), run[1..]);
    }
  }

  lemma ReachedPaired(limit: nat, m: nat, s: State)
    requires CanReach(limit, m, s) && limit > 0
    ensures Paired(limit, s)
  {
    var run :| Reaches(limit, m, run, s) && ByPolicy(run);
    InitialInv(limit, m);
    assert forall i: nat, u: nat :: Threats(NewState(m), i, u) == {};
    PairedRun(limit, NewState(m), run);
  }

  /** Candidate i is less than limit ahead of some candidate before it. */
  lemma AheadOfEarlier(limit: nat, s: State, i: nat) returns (b: nat)
    requires WellFormed(s) && Paired(limit, s) && 0 < i < |s.successful| && limit > 0
    ensures b < i && s.successful[i] <= s.successful[b] + limit - 1
    ensures Covers(s.successful, i, s.successful[b])
  {
    b := Highest(s.successful, i);
    assert LaterLimited(limit, s, i, s.successful[b]);
  }

  lemma {:induction false} Highest(counts: seq<nat>, n: nat) returns (b: nat)
    requires 0 < n <= |counts|
    ensures b < n && Covers(counts, n, counts[b])
  {
    b := 0;
    if n > 1 {
      var c := Highest(counts, n - 1);
      b := if counts[c] < counts[n - 1] then n - 1 else c;
    }
  }

  lemma TimesMonotone(i: nat, j: nat, k: nat)
    requires i <= j
    ensures i * k <= j * k
  {
  }

  /** From i down to d, by candidates before i. */
  lemma {:induction false} ChainDown(limit: nat, s: State, i: nat, d: nat)
    requires WellFormed(s) && Paired(limit, s) && d < i < |s.successful| && limit > 0
    ensures s.successful[i] <= s.successful[d] + i * (limit - 1) + 1
    decreases i
  {
    var b := AheadOfEarlier(limit, s, i);
    assert i * (limit - 1) == (i - 1) * (limit - 1) + (limit - 1);
    if b > d {
      ChainDown(limit, s, b, d);
      TimesMonotone(b, i - 1, limit - 1);
    } else if b < d {
      assert EarlierLimited(limit, s, b, d);
      TimesMonotone(1, i - 1, limit - 1);
    } else {
      TimesMonotone(0, i - 1, limit - 1);
    }
  }

  /** At most how far one of m clients can be ahead of another. */
  function DriftLimit(limit: nat, m: nat): nat
    requires limit > 0 && m > 0
  {
    var clients, calls: nat := m - 1, limit - 1;
    clients * calls + 1
  }

  lemma PairedDrift(limit: nat, m: nat, s: State, c: nat, d: nat)
    requires WellFormed(s) && Paired(limit, s) && |s.successful| == m && limit > 0 && c < m && d < m
    ensures s.successful[c] <= s.successful[d] + DriftLimit(limit, m)
  {
    if c > d {
      ChainDown(limit, s, c, d);
      TimesMonotone(c, m - 1, limit - 1);
    } else if c < d {
      assert EarlierLimited(limit, s, c, d);
      TimesMonotone(1, m - 1, limit - 1);
    }
  }

  /** Whatever is recorded between the two reads of a comparison, no client's successes are more
      than (m - 1) * (k - 1) + 1 ahead of another's: 1 in serial use, k for two clients. */
  lemma DriftBound(limit: nat, m: nat)
    requires limit > 0 && m > 0
    ensures SpreadWithin(limit, m, DriftLimit(limit, m))
  {
    forall s, c: nat, d: nat | CanReach(limit, m, s) && c < |s.successful| && d < |s.successful|
      ensures s.successful[c] <= s.successful[d] + DriftLimit(limit, m)
    {
      Reached(limit, m, s);
      ReachedPaired(limit, m, s);
      PairedDrift(limit, m, s, c, d);
    }
    RecordedIsEnough(limit, m, DriftLimit(limit, m));
  }

  // ---------- three clients ----------

  /** Of the clients 0 and 1 the one that is not d. */
  function Other(d: nat): nat {
    if d == 0 then 1 else 0
  }

  /** The call may still raise client 2 or the other one while d stays at most at u: it is on one of
      them and done with d, or will be once d is at u. */
  predicate Rises(call: Call, d: nat, u: nat) {
    || call.client == 2
    || (call.client == Other(d) && (d == 0 || 1 < Seen(3, call)))
    || (call.client == d && call.progress.Comparing? && call.progress.next > d && call.progress.count < u)
  }

  ghost function Rising(s: State, d: nat, u: nat): set<CallId> {
    set id | id in s.calls && Rises(s.calls[id], d, u)
  }

  /** Client 2 and the other one are both above u, and d is not. */
  predicate BothAbove(counts: seq<nat>, d: nat, u: nat) {
    |counts| == 3 && d < 2 && counts[d] <= u && counts[Other(d)] > u && counts[2] > u
  }

  ghost predicate JointLimited(limit: nat, s: State, d: nat, u: nat) {
    BothAbove(s.successful, d, u) ==>
      var g, h := s.successful[Other(d)] - u, s.successful[2] - u;
      g + h + |Rising(s, d, u)| < 2 * limit || h + |Rising(s, d, u)| <= limit
  }

  lemma RisingAfter(limit: nat, s: State, a: Action, d: nat, u: nat)
    requires WellFormed(s) && Enabled(limit, s, a) && !a.Select? && BothAbove(s.successful, d, u)
    ensures Rising(Apply(limit, s, a), d, u) <= Rising(s, d, u)
  {
    var t := Apply(limit, s, a);
    forall id | id in Rising(t, d, u)
      ensures id in Rising(s, d, u)
    {
      if id in s.calls {
        assert WellFormedCall(s.successful, s.calls[id]);
      }
    }
  }

  /** Both are above u already: each record of one of them uses up a rising call. */
  lemma JointKept(limit: nat, s: State, a: Action, d: nat, u: nat)
    requires WellFormed(s) && Enabled(limit, s, a) && !a.Select? && JointLimited(limit, s, d, u)
    requires BothAbove(s.successful, d, u)
    ensures JointLimited(limit, Apply(limit, s, a), d, u)
  {
    var t := Apply(limit, s, a);
    CoveredBefore(limit, s, a, 0, 0);
    RisingAfter(limit, s, a, d, u);
    if t.successful[2] > s.successful[2] || t.successful[Other(d)] > s.successful[Other(d)] {
      assert WellFormedCall(s.successful, s.calls[a.id]);
      assert a.id in Rising(s, d, u);
      SubsetSize(Rising(t, d, u), Rising(s, d, u) - {a.id});
    } else {
      SubsetSize(Rising(t, d, u), Rising(s, d, u));
    }
  }

  lemma JointStep(limit: nat, s: State, a: Action, d: nat, u: nat)
    requires WellFormed(s) && |s.calls| <= limit && Enabled(limit, s, a) && !a.Select? && Paired(limit, s)
    requires JointLimited(limit, s, d, u)
    ensures JointLimited(limit, Apply(limit, s, a), d, u)
  {
    var t := Apply(limit, s, a);
    CoveredBefore(limit, s, a, 0, 0);
    if BothAbove(t.successful, d, u) {
      if BothAbove(s.successful, d, u) {
        JointKept(limit, s, a, d, u);
      } else {
        OneLess(limit, s, a, Rising(t, d, u));
        assert LaterLimited(limit, s, 2, u);
      }
    }
  }

  ghost predicate Joint(limit: nat, s: State) {
    forall d: nat, u: nat :: JointLimited(limit, s, d, u)
  }

  lemma {:induction false} JointRun(limit: nat, s: State, run: seq<Action>)
    requires Inv(limit, s) && Paired(limit, s) && Joint(limit, s) && Legal(limit, s, run) && ByPolicy(run)
    ensures Joint(limit, After(limit, s, run))
    decreases |run|
  {
    if run != [] {
      var t := Apply(limit, s, run[0]);
      InvStep(limit, s, run[0]);
      PairedStep(limit, s, run[0]);
      forall d: nat, u: nat
        ensures JointLimited(limit, t, d, u)
      {
        JointStep(limit, s, run[0], d, u);
      }
      JointRun(limit, t, run[1..]);
    }
  }

  /** The largest difference between two of three clients. */
  function Drift(limit: nat): nat {
    if limit < 2 then limit else limit - 1 + limit / 2
  }

  lemma LastAheadOf(limit: nat, s: State, d: nat)
    requires WellFormed(s) && |s.successful| == 3 && d < 2 && limit > 0 && Paired(limit, s) && Joint(limit, s)
    ensures s.successful[2] <= s.successful[d] + Drift(limit)
  {
    var b := AheadOfEarlier(limit, s, 2);
    assert JointLimited(limit, s, d, s.successful[d]);
    assert s.successful[d] <= s.successful[b];
  }

  lemma ReachedJoint(limit: nat, s: State)
    requires CanReach(limit, 3, s) && limit > 0
    ensures Joint(limit, s)
  {
    var run :| Reaches(limit, 3, run, s) && ByPolicy(run);
    InitialInv(limit, 3);
    assert Reaches(limit, 3, [], NewState(3)) && ByPolicy([]);
    ReachedPaired(limit, 3, NewState(3));
    JointRun(limit, NewState(3), run);
  }

  lemma JointDrift(limit: nat, s: State, c: nat, d: nat)
    requires WellFormed(s) && Paired(limit, s) && Joint(limit, s) && |s.successful| == 3 && limit > 0 && c < 3 && d < 3
    ensures s.successful[c] <= s.successful[d] + Drift(limit)
  {
    if c == 2 && d < 2 {
      LastAheadOf(limit, s, d);
    } else if c < d {
      assert EarlierLimited(limit, s, c, d);
    } else if c == 1 && d == 0 {
      var _ := AheadOfEarlier(limit, s, 1);
    }
  }

  /** For three clients the difference is at most k - 1 + k / 2. */
  lemma ThreeClients(limit: nat)
    requires limit > 0
    ensures SpreadWithin(limit, 3, Drift(limit))
  {
    forall s, c: nat, d: nat | CanReach(limit, 3, s) && c < |s.successful| && d < |s.successful|
      ensures s.successful[c] <= s.successful[d] + Drift(limit)
    {
      Reached(limit, 3, s);
      ReachedPaired(limit, 3, s);
      ReachedJoint(limit, s);
      JointDrift(limit, s, c, d);
    }
    RecordedIsEnough(limit, 3, Drift(limit));
  }

  // ---------- two calls ----------

  /** The call has seen what it would see now. */
  ghost predicate Exact(counts: seq<nat>, call: Call) {
    && Seen(|counts|, call) <= |counts| && IsFewest(counts[..Seen(|counts|, call)], call.client)
    && (call.progress.Comparing? ==> call.progress.next < |counts| && call.progress.count == counts[call.progress.next])
  }

  /** A call is at most one ahead of a candidate it is done with, also if it takes the next. */
  predicate NearTo(counts: seq<nat>, call: Call, d: nat)
    requires WellFormedCall(counts, call) && d < |counts|
  {
    && counts[call.client] <= counts[d] + 1
    && (call.progress.Comparing? && counts[call.progress.next] >= counts[d] + 2 ==> call.progress.count > counts[d])
  }

  ghost predicate Near(counts: seq<nat>, call: Call)
    requires WellFormedCall(counts, call)
  {
    forall d: nat :: d < Seen(|counts|, call) ==> NearTo(counts, call, d)
  }

  ghost predicate TwoCalls(s: State)
    requires WellFormed(s)
  {
    && (forall x, y :: x in s.calls && y in s.calls && x != y ==>
          Exact(s.successful, s.calls[x]) || Exact(s.successful, s.calls[y]))
    && (forall x :: x in s.calls ==> WellFormedCall(s.successful, s.calls[x]) && Near(s.successful, s.calls[x]))
    && (forall c, d :: 0 <= c < |s.successful| && 0 <= d < |s.successful| ==> s.successful[c] <= s.successful[d] + 2)
  }

  /** Looking at a candidate keeps a call exact. */
  lemma ExactAfter(limit: nat, s: State, a: Action, x: CallId)
    requires WellFormed(s) && Enabled(limit, s, a) && !a.Select? && !a.Record? && x in Apply(limit, s, a).calls
    requires x in s.calls ==> Exact(s.successful, s.calls[x])
    ensures Exact(Apply(limit, s, a).successful, Apply(limit, s, a).calls[x])
  {
    var t, counts := Apply(limit, s, a), s.successful;
    if x in s.calls {
      assert WellFormedCall(counts, s.calls[x]);
      if a == Compare(x) {
        var c, i := s.calls[x].client, s.calls[x].progress.next;
        assert counts[..i + 1] == counts[..i] + [counts[i]];
        assert counts[..i][c] == counts[c];
        StillFewest(counts, i, c);
      }
    } else {
      assert counts[..1] == [counts[0]];
    }
  }

  /** The running minimum goes on. */
  lemma StillFewest(counts: seq<nat>, i: nat, c: nat)
    requires i < |counts| && IsFewest(counts[..i], c)
    ensures IsFewest(counts[..i + 1], if counts[i] < counts[c] then i else c)
  {
    var front, all := counts[..i], counts[..i + 1];
    assert forall d :: 0 <= d < i ==> all[d] == front[d] == counts[d];
  }

  lemma NearAfterCompare(counts: seq<nat>, call: Call, d: nat)
    requires WellFormedCall(counts, call) && Near(counts, call) && call.progress.Comparing? && d <= call.progress.next
    ensures var i := call.progress.next;
            var next := Call(if call.progress.count < counts[call.client] then i else call.client, Scanning(i + 1));
            WellFormedCall(counts, next) && NearTo(counts, next, d)
  {
    if d < call.progress.next {
      assert NearTo(counts, call, d);
    }
  }

  lemma NearAfterLook(limit: nat, s: State, a: Action, x: CallId, d: nat)
    requires WellFormed(s) && Enabled(limit, s, a) && !a.Select? && !a.Record? && x in Apply(limit, s, a).calls
    requires x in s.calls ==> WellFormedCall(s.successful, s.calls[x]) && Near(s.successful, s.calls[x])
    requires d < Seen(|s.successful|, Apply(limit, s, a).calls[x])
    ensures var call := Apply(limit, s, a).calls[x];
            WellFormedCall(s.successful, call) && NearTo(s.successful, call, d)
  {
    if a == Compare(x) {
      NearAfterCompare(s.successful, s.calls[x], d);
    } else if x in s.calls {
      assert NearTo(s.successful, s.calls[x], d);
    }
  }

  /** A client that an exact call has seen or selected is not ahead. */
  lemma ExactIsLow(counts: seq<nat>, call: Call, d: nat)
    requires WellFormedCall(counts, call) && Exact(counts, call) && d < Seen(|counts|, call)
    ensures counts[call.client] <= counts[d]
  {
    var front := counts[..Seen(|counts|, call)];
    assert front[d] == counts[d] && front[call.client] == counts[call.client];
  }

  lemma NearAfterRecord(limit: nat, s: State, a: Action, x: CallId, d: nat)
    requires WellFormed(s) && TwoCalls(s) && Enabled(limit, s, a) && a.Record? && x in s.calls && x != a.id
    requires WellFormedCall(s.successful, s.calls[x]) && d < Seen(|s.successful|, s.calls[x])
    ensures var counts, call := Apply(limit, s, a).successful, s.calls[x];
            WellFormedCall(counts, call) && |counts| == |s.successful| && NearTo(counts, call, d)
  {
    CoveredBefore(limit, s, a, 0, 0);
    var z, y := s.calls[a.id], s.calls[x];
    assert WellFormedCall(s.successful, z) && NearTo(s.successful, y, d);
    if Exact(s.successful, z) {
      ExactIsLow(s.successful, z, d);
    } else {
      ExactIsLow(s.successful, y, d);
    }
  }

  /** Of two calls one is left. */
  lemma NoTwoLeft(limit: nat, s: State, a: Action, x: CallId, y: CallId)
    requires WellFormed(s) && |s.calls| <= 2 && Enabled(limit, s, a) && a.Record?
    requires x in Apply(limit, s, a).calls && y in Apply(limit, s, a).calls
    ensures x == y
  {
    SubsetSize({x, y, a.id}, s.calls.Keys);
    assert x != y ==> |{x, y, a.id}| == 3;
  }

  lemma SpreadAfterRecord(limit: nat, s: State, a: Action, c: nat, d: nat)
    requires WellFormed(s) && TwoCalls(s) && Enabled(limit, s, a) && a.Record? && c < |s.successful| && d < |s.successful|
    ensures var counts := Apply(limit, s, a).successful;
            |counts| == |s.successful| && counts[c] <= counts[d] + 2
  {
    CoveredBefore(limit, s, a, 0, 0);
    assert WellFormedCall(s.successful, s.calls[a.id]) && NearTo(s.successful, s.calls[a.id], d);
  }

  lemma TwoCallsRecord(limit: nat, s: State, a: Action)
    requires WellFormed(s) && TwoCalls(s) && |s.calls| <= 2 && Enabled(limit, s, a) && a.Record?
    ensures WellFormed(Apply(limit, s, a)) && TwoCalls(Apply(limit, s, a))
  {
    var t := Apply(limit, s, a);
    WellFormedStep(limit, s, a);
    forall x, y | x in t.calls && y in t.calls
      ensures x == y
    {
      NoTwoLeft(limit, s, a, x, y);
    }
    forall x, d: nat | x in t.calls && d < Seen(|t.successful|, t.calls[x])
      ensures WellFormedCall(t.successful, t.calls[x]) && NearTo(t.successful, t.calls[x], d)
    {
      assert WellFormedCall(s.successful, s.calls[x]);
      NearAfterRecord(limit, s, a, x, d);
    }
    forall c: nat, d: nat | c < |t.successful| && d < |t.successful|
      ensures t.successful[c] <= t.successful[d] + 2
    {
      SpreadAfterRecord(limit, s, a, c, d);
    }
  }

  lemma TwoCallsLook(limit: nat, s: State, a: Action)
    requires WellFormed(s) && TwoCalls(s) && Enabled(limit, s, a) && !a.Select? && !a.Record?
    ensures WellFormed(Apply(limit, s, a)) && TwoCalls(Apply(limit, s, a))
  {
    var t := Apply(limit, s, a);
    WellFormedStep(limit, s, a);
    assert t.successful == s.successful;
    forall x, y | x in t.calls && y in t.calls && x != y
      ensures Exact(t.successful, t.calls[x]) || Exact(t.successful, t.calls[y])
    {
      if x !in s.calls || Exact(s.successful, s.calls[x]) {
        ExactAfter(limit, s, a, x);
      } else {
        ExactAfter(limit, s, a, y);
      }
    }
    forall x, d: nat | x in t.calls && d < Seen(|t.successful|, t.calls[x])
      ensures WellFormedCall(t.successful, t.calls[x]) && NearTo(t.successful, t.calls[x], d)
    {
      NearAfterLook(limit, s, a, x, d);
    }
  }

  lemma {:induction false} TwoCallsRun(s: State, run: seq<Action>)
    requires Inv(2, s) && TwoCalls(s) && Legal(2, s, run) && ByPolicy(run)
    ensures TwoCalls(After(2, s, run))
    decreases |run|
  {
    if run != [] {
      InvStep(2, s, run[0]);
      if run[0].Record? {
        TwoCallsRecord(2, s, run[0]);
      } else {
        TwoCallsLook(2, s, run[0]);
      }
      TwoCallsRun(Apply(2, s, run[0]), run[1..]);
    }
  }

  /** With two calls at a time the difference is at most 2, for every number of clients. */
  lemma TwoAtATime(m: nat)
    requires m > 0
    ensures SpreadWithin(2, m, 2)
  {
    forall s, c: nat, d: nat | CanReach(2, m, s) && c < |s.successful| && d < |s.successful|
      ensures s.successful[c] <= s.successful[d] + 2
    {
      var run :| Reaches(2, m, run, s) && ByPolicy(run);
      InitialInv(2, m);
      TwoCallsRun(NewState(m), run);
    }
    RecordedIsEnough(2, m, 2);
  }
}
