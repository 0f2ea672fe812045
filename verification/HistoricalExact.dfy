/** The bounds on how far the historical-connections policy lets success counts drift apart are
    attained, and exactly when the drift stays within the number of calls at a time. */
module HistoricalExact {
  import opened Historical
  import opened HistoricalBounds

  // ---------- counts and calls that a run can lead to ----------

  /** What is recorded, and the calls in progress. */
  datatype View = View(counts: seq<nat>, calls: map<CallId, Call>)

  type Views = iset<View>

  ghost function Reachable(limit: nat, m: nat): Views {
    iset s | CanReach(limit, m, s) :: View(s.successful, s.calls)
  }

  /** How an action changes what is recorded and the calls. */
  ghost predicate Moves(limit: nat, v: View, a: Action, w: View) {
    match a
    case Start(id) => id !in v.calls && |v.calls| < limit && w == v.(calls := v.calls[id := Call(0, Scanning(1))])
    case Read(id) =>
      && id in v.calls && v.calls[id].progress.Scanning? && v.calls[id].progress.next < |v.counts|
      && var c, i := v.calls[id].client, v.calls[id].progress.next;
         w == v.(calls := v.calls[id := Call(c, Comparing(i, v.counts[i]))])
    case Compare(id) =>
      && id in v.calls && v.calls[id].progress.Comparing? && v.calls[id].client < |v.counts|
      && var c, i := v.calls[id].client, v.calls[id].progress.next;
         w == v.(calls := v.calls[id := Call(if v.calls[id].progress.count < v.counts[c] then i else c, Scanning(i + 1))])
    case Dial(id) =>
      && id in v.calls && v.calls[id].progress == Scanning(|v.counts|)
      && w == v.(calls := v.calls[id := Call(v.calls[id].client, Running)])
    case Finish(id, ok) =>
      && ok && id in v.calls && v.calls[id].progress.Running?
      && w == v.(calls := v.calls[id := Call(v.calls[id].client, Succeeded)])
    case Record(id) =>
      && id in v.calls && v.calls[id].progress.Succeeded? && v.calls[id].client < |v.counts|
      && w == View(v.counts[v.calls[id].client := v.counts[v.calls[id].client] + 1], v.calls - {id})
    case Select(_, _) => false
  }

  ghost predicate Closed(limit: nat, views: Views) {
    forall v, a, w :: v in views && Moves(limit, v, a, w) ==> w in views
  }

  lemma ReachableClosed(limit: nat, m: nat)
    ensures Closed(limit, Reachable(limit, m))
  {
    forall v, a, w | v in Reachable(limit, m) && Moves(limit, v, a, w)
      ensures w in Reachable(limit, m)
    {
      var s :| CanReach(limit, m, s) && v == View(s.successful, s.calls);
      Reached(limit, m, s);
      MovesIsStep(limit, s, a, w);
      var t := Apply(limit, s, a);
      Take(limit, m, s, a, t);
      assert w == View(t.successful, t.calls);
    }
  }

  lemma MovesIsStep(limit: nat, s: State, a: Action, w: View)
    requires WellFormed(s) && Moves(limit, View(s.successful, s.calls), a, w)
    ensures Enabled(limit, s, a) && w == View(Apply(limit, s, a).successful, Apply(limit, s, a).calls)
  {
  }

  /** The beginning. */
  lemma StartReachable(limit: nat, m: nat)
    requires m > 0
    ensures View(seq(m, _ => 0), map[]) in Reachable(limit, m)
  {
    var s := NewState(m);
    assert Reaches(limit, m, [], s) && ByPolicy([]);
    assert CanReach(limit, m, s) && View(s.successful, s.calls) == View(seq(m, _ => 0), map[]);
  }

  /** Some run shows two clients this far apart. */
  ghost predicate Shows(limit: nat, m: nat, difference: nat) {
    exists s, c, d :: CanReach(limit, m, s) && 0 <= c < |s.delivered| && 0 <= d < |s.delivered| &&
                      s.delivered[c] == s.delivered[d] + difference
  }

  lemma Settled(limit: nat, m: nat, counts: seq<nat>, c: nat, d: nat)
    requires View(counts, map[]) in Reachable(limit, m) && c < |counts| && d < |counts| && counts[c] >= counts[d]
    ensures Shows(limit, m, counts[c] - counts[d])
  {
    var s :| CanReach(limit, m, s) && View(counts, map[]) == View(s.successful, s.calls);
    Reached(limit, m, s);
    assert DeliveredOn(s, c) == {} && DeliveredOn(s, d) == {};
    assert s.delivered[c] == s.delivered[d] + (counts[c] - counts[d]);
  }

  // ---------- what calls can do ----------

  lemma UpdateTwice(calls: map<CallId, Call>, id: CallId, c: Call, c': Call)
    ensures calls[id := c][id := c'] == calls[id := c']
  {
  }

  /** A call that scans reads the next candidate's count, */
  lemma ReadOnce(limit: nat, views: Views, counts: seq<nat>, calls: map<CallId, Call>, id: CallId, c: nat, i: nat)
    requires Closed(limit, views) && i < |counts| && View(counts, calls[id := Call(c, Scanning(i))]) in views
    ensures View(counts, calls[id := Call(c, Comparing(i, counts[i]))]) in views
  {
    var v := View(counts, calls[id := Call(c, Scanning(i))]);
    var w := View(counts, calls[id := Call(c, Comparing(i, counts[i]))]);
    UpdateTwice(calls, id, Call(c, Scanning(i)), Call(c, Comparing(i, counts[i])));
    assert Moves(limit, v, Read(id), w);
  }

  /** and compares it. */
  lemma LookOnce(limit: nat, views: Views, counts: seq<nat>, calls: map<CallId, Call>, id: CallId, c: nat, i: nat)
    requires Closed(limit, views) && i < |counts| && c < |counts|
    requires View(counts, calls[id := Call(c, Scanning(i))]) in views
    ensures View(counts, calls[id := Call(if counts[i] < counts[c] then i else c, Scanning(i + 1))]) in views
  {
    var next := Call(if counts[i] < counts[c] then i else c, Scanning(i + 1));
    var v, w := View(counts, calls[id := Call(c, Comparing(i, counts[i]))]), View(counts, calls[id := next]);
    ReadOnce(limit, views, counts, calls, id, c, i);
    UpdateTwice(calls, id, Call(c, Comparing(i, counts[i])), next);
    assert Moves(limit, v, Compare(id), w);
  }

  lemma {:induction false} FewestOf(counts: seq<nat>, n: nat) returns (c: nat)
    requires 0 < n <= |counts|
    ensures IsFewest(counts[..n], c)
  {
    c := 0;
    if n > 1 {
      c := FewestOf(counts, n - 1);
      StillFewest(counts, n - 1, c);
      c := if counts[n - 1] < counts[c] then n - 1 else c;
    }
  }

  lemma OnlyFewest(counts: seq<nat>, c: nat, d: nat)
    requires IsFewest(counts, c) && IsFewest(counts, d)
    ensures c == d
  {
    assert counts[c] == counts[d];
  }

  /** A call that nothing interrupts finds the fewest successes among the first n candidates. */
  lemma {:induction false} ScanTo(limit: nat, views: Views, counts: seq<nat>, calls: map<CallId, Call>, id: CallId,
                                  n: nat, c: nat)
    requires Closed(limit, views) && View(counts, calls) in views && id !in calls && |calls| < limit
    requires 0 < n <= |counts| && IsFewest(counts[..n], c)
    ensures View(counts, calls[id := Call(c, Scanning(n))]) in views
    decreases n
  {
    if n == 1 {
      assert Moves(limit, View(counts, calls), Start(id), View(counts, calls[id := Call(0, Scanning(1))]));
    } else {
      var c' := FewestOf(counts, n - 1);
      ScanTo(limit, views, counts, calls, id, n - 1, c');
      LookOnce(limit, views, counts, calls, id, c', n - 1);
      StillFewest(counts, n - 1, c');
      OnlyFewest(counts[..n], c, if counts[n - 1] < counts[c'] then n - 1 else c');
    }
  }

  /** The call dials and its client delivers. */
  lemma DialAndFinish(limit: nat, views: Views, counts: seq<nat>, calls: map<CallId, Call>, id: CallId, c: nat)
    requires Closed(limit, views) && View(counts, calls[id := Call(c, Scanning(|counts|))]) in views
    ensures View(counts, calls[id := Call(c, Succeeded)]) in views
  {
    var v := View(counts, calls[id := Call(c, Scanning(|counts|))]);
    var w, x := View(counts, calls[id := Call(c, Running)]), View(counts, calls[id := Call(c, Succeeded)]);
    UpdateTwice(calls, id, Call(c, Scanning(|counts|)), Call(c, Running));
    assert Moves(limit, v, Dial(id), w);
    UpdateTwice(calls, id, Call(c, Running), Call(c, Succeeded));
    assert Moves(limit, w, Finish(id, true), x);
  }

  /** A whole call that nothing interrupts, up to its record. */
  lemma Deliver(limit: nat, views: Views, counts: seq<nat>, calls: map<CallId, Call>, id: CallId, c: nat,
                calls': map<CallId, Call>)
    requires Closed(limit, views) && View(counts, calls) in views && id !in calls && |calls| < limit
    requires IsFewest(counts, c) && calls' == calls[id := Call(c, Succeeded)]
    ensures View(counts, calls') in views
  {
    assert counts[..|counts|] == counts;
    ScanTo(limit, views, counts, calls, id, |counts|, c);
    DialAndFinish(limit, views, counts, calls, id, c);
  }

  /** A call that stops after it has read the last candidate's count. */
  lemma Stall(limit: nat, views: Views, counts: seq<nat>, calls: map<CallId, Call>, id: CallId, c: nat,
              calls': map<CallId, Call>)
    requires Closed(limit, views) && View(counts, calls) in views && id !in calls && |calls| < limit && |counts| > 1
    requires IsFewest(counts[..|counts| - 1], c)
    requires calls' == calls[id := Call(c, Comparing(|counts| - 1, counts[|counts| - 1]))]
    ensures View(counts, calls') in views
  {
    ScanTo(limit, views, counts, calls, id, |counts| - 1, c);
    ReadOnce(limit, views, counts, calls, id, c, |counts| - 1);
  }

  /** A call that stopped goes on when its client is above what it had read, and takes the last
      candidate, wherever that is by now; its success is recorded. */
  lemma Jump(limit: nat, views: Views, counts: seq<nat>, calls: map<CallId, Call>, id: CallId,
             counts': seq<nat>, calls': map<CallId, Call>)
    requires Closed(limit, views) && View(counts, calls) in views && id in calls && calls[id].client < |counts|
    requires calls[id].progress.Comparing? && calls[id].progress.next == |counts| - 1
    requires calls[id].progress.count < counts[calls[id].client]
    requires calls' == calls - {id} && counts' == counts[|counts| - 1 := counts[|counts| - 1] + 1]
    ensures View(counts', calls') in views
  {
    var last := |counts| - 1;
    var v, w := View(counts, calls), View(counts, calls[id := Call(last, Scanning(|counts|))]);
    assert Moves(limit, v, Compare(id), w);
    DialAndFinish(limit, views, counts, calls, id, last);
    var more := calls[id := Call(last, Succeeded)];
    assert more - {id} == calls';
    RecordOne(limit, views, counts, more, id, counts', calls');
  }

  lemma RecordOne(limit: nat, views: Views, counts: seq<nat>, calls: map<CallId, Call>, id: CallId,
                  counts': seq<nat>, calls': map<CallId, Call>)
    requires Closed(limit, views) && View(counts, calls) in views && id in calls && calls[id].progress.Succeeded?
    requires calls[id].client < |counts| && counts' == counts[calls[id].client := counts[calls[id].client] + 1]
    requires calls' == calls - {id}
    ensures View(counts', calls') in views
  {
    assert Moves(limit, View(counts, calls), Record(id), View(counts', calls'));
  }

  lemma {:induction false} Keys(calls: map<CallId, Call>, from: nat, till: nat)
    requires from <= till && forall id :: id in calls <==> from <= id < till
    ensures |calls| == till - from
    decreases till - from
  {
    if from < till {
      var less := calls - {from};
      Keys(less, from + 1, till);
      assert calls.Keys == less.Keys + {from};
      assert |calls.Keys| == |less.Keys| + 1;
    } else {
      assert calls.Keys == {};
    }
  }

  /** Calls from to till - 1 have delivered from client c. */
  function Delivered(c: nat, from: nat, till: nat): (calls: map<CallId, Call>)
    requires from <= till
    ensures |calls| == till - from
  {
    var calls := map id: nat | from <= id < till :: OneDelivered(c, id);
    Keys(calls, from, till);
    calls
  }

  function OneDelivered(c: nat, id: CallId): Call {
    Call(c, Succeeded)
  }

  /** n calls deliver from the client with the fewest successes. */
  lemma {:induction false} DeliverMany(limit: nat, views: Views, counts: seq<nat>, c: nat, n: nat)
    requires Closed(limit, views) && View(counts, map[]) in views && n <= limit && IsFewest(counts, c)
    ensures View(counts, Delivered(c, 0, n)) in views
  {
    if n == 0 {
      assert Delivered(c, 0, 0) == map[];
    } else {
      DeliverMany(limit, views, counts, c, n - 1);
      assert Delivered(c, 0, n - 1)[n - 1 := Call(c, Succeeded)] == Delivered(c, 0, n);
      Deliver(limit, views, counts, Delivered(c, 0, n - 1), n - 1, c, Delivered(c, 0, n));
    }
  }

  // ---------- as many as there are calls ----------

  function OnFirst(m: nat, a: nat): seq<nat> {
    seq(m, i => if i == 0 then a else 0)
  }

  lemma {:induction false} FirstRecorded(limit: nat, views: Views, m: nat, k: nat, a: nat)
    requires Closed(limit, views) && m > 0 && View(OnFirst(m, a), Delivered(0, 0, k)) in views
    ensures View(OnFirst(m, a + k), map[]) in views
    decreases k
  {
    if k > 0 {
      assert Delivered(0, 0, k) - {k - 1} == Delivered(0, 0, k - 1);
      assert OnFirst(m, a)[0 := a + 1] == OnFirst(m, a + 1);
      RecordOne(limit, views, OnFirst(m, a), Delivered(0, 0, k), k - 1, OnFirst(m, a + 1), Delivered(0, 0, k - 1));
      FirstRecorded(limit, views, m, k - 1, a + 1);
    } else {
      assert Delivered(0, 0, 0) == map[];
    }
  }

  /** For every number of calls at a time the counts of two clients can differ by that number. */
  lemma SpreadAttained(limit: nat, m: nat)
    requires m >= 2
    ensures Shows(limit, m, limit)
  {
    var views := Reachable(limit, m);
    ReachableClosed(limit, m);
    StartReachable(limit, m);
    assert seq(m, _ => 0) == OnFirst(m, 0);
    DeliverMany(limit, views, OnFirst(m, 0), 0, limit);
    FirstRecorded(limit, views, m, limit, 0);
    Settled(limit, m, OnFirst(m, limit), 0, 1);
  }

  // ---------- one behind ----------

  /** The first client has a, the second b, the last t, and all others 1. */
  function Profile(m: nat, a: nat, b: nat, t: nat): (counts: seq<nat>)
    requires m >= 3
    ensures |counts| == m && counts[0] == a && counts[1] == b && counts[m - 1] == t
    ensures forall i :: 2 <= i < m - 1 ==> counts[i] == 1
  {
    seq(m, i => if i == 0 then a else if i == m - 1 then t else if i == 1 then b else 1)
  }

  lemma ProfileUp(m: nat, a: nat, b: nat, t: nat)
    requires m >= 3
    ensures Profile(m, a, b, t)[0 := a + 1] == Profile(m, a + 1, b, t)
    ensures Profile(m, a, b, t)[1 := b + 1] == Profile(m, a, b + 1, t)
    ensures Profile(m, a, b, t)[m - 1 := t + 1] == Profile(m, a, b, t + 1)
  {
  }

  /** Whom a call finds to have the fewest successes. */
  lemma ProfileFewest(m: nat, t: nat)
    requires m >= 3
    ensures IsFewest(Profile(m, 1, 1, 0), m - 1)
    ensures t >= 1 ==> IsFewest(Profile(m, 1, 1, t), 0)
    ensures IsFewest(Profile(m, 1, 1, t)[..m - 1], 0)
    ensures t >= 1 ==> IsFewest(Profile(m, 2, 1, t), 1)
    ensures IsFewest(Profile(m, 2, 1, t)[..m - 1], 1)
  {
  }

  /** The first n clients have one success each. */
  lemma {:induction false} OneEach(limit: nat, views: Views, m: nat, n: nat)
    requires Closed(limit, views) && limit > 0 && n <= m && View(seq(m, _ => 0), map[]) in views
    ensures View(seq(m, i => if i < n then 1 else 0), map[]) in views
  {
    var counts := seq(m, i => if i < n then 1 else 0);
    if n == 0 {
      assert counts == seq(m, _ => 0);
    } else {
      var before := seq(m, i => if i < n - 1 then 1 else 0);
      OneEach(limit, views, m, n - 1);
      var calls: map<CallId, Call> := map[0 := Call(n - 1, Succeeded)];
      Deliver(limit, views, before, map[], 0, n - 1, calls);
      assert before[n - 1 := 1] == counts;
      RecordOne(limit, views, before, calls, 0, counts, map[]);
    }
  }

  // ---------- half as many again ----------

  /** Calls r to k - 1 have delivered from the last client, calls k to k + j - 1 are on the first and
      have read the last client's counts 1 to j. */
  function Waiting(m: nat, k: nat, r: nat, j: nat): (calls: map<CallId, Call>)
    requires m > 0 && r <= k
    ensures |calls| == k - r + j
  {
    var calls := map id: nat | r <= id < k + j :: OneWaiting(m, k, id);
    Keys(calls, r, k + j);
    calls
  }

  function OneWaiting(m: nat, k: nat, id: CallId): Call
    requires m > 0
  {
    if id < k then Call(m - 1, Succeeded) else Call(0, Comparing(m - 1, id - k + 1))
  }

  lemma LastRecorded(k: nat, views: Views, m: nat, r: nat, j: nat)
    requires Closed(k, views) && m >= 3 && r < k && View(Profile(m, 1, 1, r), Waiting(m, k, r, j)) in views
    ensures View(Profile(m, 1, 1, r + 1), Waiting(m, k, r + 1, j)) in views
  {
    ProfileUp(m, 1, 1, r);
    assert Waiting(m, k, r, j) - {r} == Waiting(m, k, r + 1, j);
    RecordOne(k, views, Profile(m, 1, 1, r), Waiting(m, k, r, j), r, Profile(m, 1, 1, r + 1), Waiting(m, k, r + 1, j));
  }

  /** The last client is one behind and k calls deliver from it; each record frees a call, which
      reads its count and waits. */
  lemma {:induction false} ReadersWait(k: nat, views: Views, m: nat, j: nat)
    requires Closed(k, views) && m >= 3 && j < k && View(seq(m, _ => 0), map[]) in views
    ensures View(Profile(m, 1, 1, j + 1), Waiting(m, k, j + 1, j)) in views
  {
    if j == 0 {
      OneEach(k, views, m, m - 1);
      assert seq(m, i => if i < m - 1 then 1 else 0) == Profile(m, 1, 1, 0);
      ProfileFewest(m, 0);
      DeliverMany(k, views, Profile(m, 1, 1, 0), m - 1, k);
      assert Delivered(m - 1, 0, k) == Waiting(m, k, 0, 0);
      LastRecorded(k, views, m, 0, 0);
    } else {
      ReadersWait(k, views, m, j - 1);
      OneMoreWaits(k, views, m, j);
      LastRecorded(k, views, m, j, j);
    }
  }

  lemma OneMoreWaits(k: nat, views: Views, m: nat, j: nat)
    requires Closed(k, views) && m >= 3 && 0 < j < k && View(Profile(m, 1, 1, j), Waiting(m, k, j, j - 1)) in views
    ensures View(Profile(m, 1, 1, j), Waiting(m, k, j, j)) in views
  {
    ProfileFewest(m, j);
    assert Waiting(m, k, j, j - 1)[k + j - 1 := Call(0, Comparing(m - 1, j))] == Waiting(m, k, j, j);
    Stall(k, views, Profile(m, 1, 1, j), Waiting(m, k, j, j - 1), k + j - 1, 0, Waiting(m, k, j, j));
  }

  lemma {:induction false} AllRecorded(k: nat, views: Views, m: nat, r: nat, j: nat)
    requires Closed(k, views) && m >= 3 && r <= k && View(Profile(m, 1, 1, r), Waiting(m, k, r, j)) in views
    ensures View(Profile(m, 1, 1, k), Waiting(m, k, k, j)) in views
    decreases k - r
  {
    if r < k {
      LastRecorded(k, views, m, r, j);
      AllRecorded(k, views, m, r + 1, j);
    }
  }

  /** Besides the waiting calls, q calls have delivered from the first client. */
  function Raising(m: nat, k: nat, j: nat, q: nat): (calls: map<CallId, Call>)
    requires m > 0
    ensures |calls| == j + q
  {
    var calls := map id: nat | k <= id < k + j + q :: OneRaising(m, k, j, id);
    Keys(calls, k, k + j + q);
    calls
  }

  function OneRaising(m: nat, k: nat, j: nat, id: CallId): Call
    requires m > 0
  {
    if k <= id < k + j then Call(0, Comparing(m - 1, id - k + 1)) else Call(0, Succeeded)
  }

  lemma {:induction false} OthersTakeFirst(k: nat, views: Views, m: nat, j: nat, q: nat)
    requires Closed(k, views) && m >= 3 && 0 < k && j + q <= k
    requires View(Profile(m, 1, 1, k), Waiting(m, k, k, j)) in views
    ensures View(Profile(m, 1, 1, k), Raising(m, k, j, q)) in views
  {
    if q == 0 {
      assert Waiting(m, k, k, j) == Raising(m, k, j, 0);
    } else {
      OthersTakeFirst(k, views, m, j, q - 1);
      ProfileFewest(m, k);
      assert Raising(m, k, j, q - 1)[k + j + q - 1 := Call(0, Succeeded)] == Raising(m, k, j, q);
      Deliver(k, views, Profile(m, 1, 1, k), Raising(m, k, j, q - 1), k + j + q - 1, 0, Raising(m, k, j, q));
    }
  }

  lemma {:induction false} FirstRises(k: nat, views: Views, m: nat, j: nat, q: nat, a: nat)
    requires Closed(k, views) && m >= 3 && View(Profile(m, a, 1, k), Raising(m, k, j, q)) in views
    ensures View(Profile(m, a + q, 1, k), Raising(m, k, j, 0)) in views
    decreases q
  {
    if q > 0 {
      ProfileUp(m, a, 1, k);
      assert Raising(m, k, j, q) - {k + j + q - 1} == Raising(m, k, j, q - 1);
      RecordOne(k, views, Profile(m, a, 1, k), Raising(m, k, j, q), k + j + q - 1,
                Profile(m, a + 1, 1, k), Raising(m, k, j, q - 1));
      FirstRises(k, views, m, j, q - 1, a + 1);
    }
  }

  /** The waiting calls take the last client, which is far ahead by now. */
  lemma {:induction false} WaitersJump(k: nat, views: Views, m: nat, j: nat, a: nat, t: nat)
    requires Closed(k, views) && m >= 3 && a > j && View(Profile(m, a, 1, t), Raising(m, k, j, 0)) in views
    ensures View(Profile(m, a, 1, t + j), map[]) in views
    decreases j
  {
    if j == 0 {
      assert Raising(m, k, 0, 0) == map[];
    } else {
      ProfileUp(m, a, 1, t);
      assert Raising(m, k, j, 0) - {k + j - 1} == Raising(m, k, j - 1, 0);
      Jump(k, views, Profile(m, a, 1, t), Raising(m, k, j, 0), k + j - 1,
           Profile(m, a, 1, t + 1), Raising(m, k, j - 1, 0));
      WaitersJump(k, views, m, j - 1, a, t + 1);
    }
  }

  /** For every number k of calls at a time and three or more clients the counts of two clients can
      differ by k - 1 + k / 2. */
  lemma DriftAttained(k: nat, m: nat)
    requires m >= 3 && k >= 2
    ensures Shows(k, m, Drift(k))
  {
    var j, views := k / 2, Reachable(k, m);
    ReachableClosed(k, m);
    StartReachable(k, m);
    DriftRun(k, views, m, j);
    Settled(k, m, Profile(m, 1 + (k - j), 1, k + j), m - 1, 1);
  }

  lemma DriftRun(k: nat, views: Views, m: nat, j: nat)
    requires Closed(k, views) && m >= 3 && k >= 2 && j == k / 2 && View(seq(m, _ => 0), map[]) in views
    ensures View(Profile(m, 1 + (k - j), 1, k + j), map[]) in views
  {
    ReadersWait(k, views, m, j);
    AllRecorded(k, views, m, j + 1, j);
    OthersTakeFirst(k, views, m, j, k - j);
    FirstRises(k, views, m, j, k - j, 1);
    WaitersJump(k, views, m, j, 1 + (k - j), k);
  }

  // ---------- three calls, four clients ----------

  /** The call that reads the last client's count 1 on its way from the first client, and the one
      that reads its count 2 on its way from the second. */
  function Early(m: nat): Call
    requires m > 0
  {
    Call(0, Comparing(m - 1, 1))
  }

  function Late(m: nat): Call
    requires m > 0
  {
    Call(1, Comparing(m - 1, 2))
  }

  /** One call waits with an early count, and the first client moves ahead of that count. */
  lemma EarlyWaits(views: Views, m: nat)
    requires Closed(3, views) && m >= 3 && View(seq(m, _ => 0), map[]) in views
    ensures View(Profile(m, 2, 1, 2), map[2 := Call(m - 1, Succeeded), 3 := Early(m)]) in views
  {
    ReadersWait(3, views, m, 1);
    var calls: map<CallId, Call> := map[2 := Call(m - 1, Succeeded), 3 := Early(m)];
    assert Waiting(m, 3, 2, 1) == calls;
    var more := calls[4 := Call(0, Succeeded)];
    ProfileFewest(m, 2);
    Deliver(3, views, Profile(m, 1, 1, 2), calls, 4, 0, more);
    ProfileUp(m, 1, 1, 2);
    assert more - {4} == calls;
    RecordOne(3, views, Profile(m, 1, 1, 2), more, 4, Profile(m, 2, 1, 2), calls);
  }

  /** Another call waits with a later count, and the last client moves on. */
  lemma LateWaits(views: Views, m: nat)
    requires Closed(3, views) && m >= 3
    requires View(Profile(m, 2, 1, 2), map[2 := Call(m - 1, Succeeded), 3 := Early(m)]) in views
    ensures View(Profile(m, 2, 1, 3), map[3 := Early(m), 5 := Late(m)]) in views
  {
    var calls: map<CallId, Call> := map[2 := Call(m - 1, Succeeded), 3 := Early(m)];
    var more := calls[5 := Late(m)];
    ProfileFewest(m, 2);
    Stall(3, views, Profile(m, 2, 1, 2), calls, 5, 1, more);
    var left: map<CallId, Call> := map[3 := Early(m), 5 := Late(m)];
    assert more - {2} == left;
    ProfileUp(m, 2, 1, 2);
    RecordOne(3, views, Profile(m, 2, 1, 2), more, 2, Profile(m, 2, 1, 3), left);
  }

  /** The early call jumps to the last client, and two calls choose the second one. */
  lemma EarlyJumps(views: Views, m: nat)
    requires Closed(3, views) && m >= 3 && View(Profile(m, 2, 1, 3), map[3 := Early(m), 5 := Late(m)]) in views
    ensures View(Profile(m, 2, 1, 4), map[5 := Late(m), 6 := Call(1, Succeeded), 7 := Call(1, Succeeded)]) in views
  {
    var calls: map<CallId, Call> := map[3 := Early(m), 5 := Late(m)];
    var more, left: map<CallId, Call> := calls[6 := Call(1, Succeeded)], map[5 := Late(m), 6 := Call(1, Succeeded)];
    ProfileFewest(m, 3);
    Deliver(3, views, Profile(m, 2, 1, 3), calls, 6, 1, more);
    ProfileUp(m, 2, 1, 3);
    assert more - {3} == left;
    Jump(3, views, Profile(m, 2, 1, 3), more, 3, Profile(m, 2, 1, 4), left);
    ProfileFewest(m, 4);
    Deliver(3, views, Profile(m, 2, 1, 4), left, 7, 1, left[7 := Call(1, Succeeded)]);
    assert left[7 := Call(1, Succeeded)] == map[5 := Late(m), 6 := Call(1, Succeeded), 7 := Call(1, Succeeded)];
  }

  /** The second client moves ahead of the later count, and the late call jumps, too. */
  lemma LateJumps(views: Views, m: nat)
    requires Closed(3, views) && m >= 3
    requires View(Profile(m, 2, 1, 4), map[5 := Late(m), 6 := Call(1, Succeeded), 7 := Call(1, Succeeded)]) in views
    ensures View(Profile(m, 2, 3, 5), map[]) in views
  {
    var c3: map<CallId, Call> := map[5 := Late(m), 6 := Call(1, Succeeded), 7 := Call(1, Succeeded)];
    var c2: map<CallId, Call> := map[5 := Late(m), 7 := Call(1, Succeeded)];
    var c1: map<CallId, Call> := map[5 := Late(m)];
    assert c3 - {6} == c2 && c2 - {7} == c1 && c1 - {5} == map[];
    ProfileUp(m, 2, 1, 4);
    RecordOne(3, views, Profile(m, 2, 1, 4), c3, 6, Profile(m, 2, 2, 4), c2);
    ProfileUp(m, 2, 2, 4);
    RecordOne(3, views, Profile(m, 2, 2, 4), c2, 7, Profile(m, 2, 3, 4), c1);
    ProfileUp(m, 2, 3, 4);
    Jump(3, views, Profile(m, 2, 3, 4), c1, 5, Profile(m, 2, 3, 5), map[]);
  }

  /** Three calls at a time over four or more clients: the counts can differ by four. */
  lemma FourApart(m: nat)
    requires m >= 4
    ensures Shows(3, m, 4)
  {
    var views := Reachable(3, m);
    ReachableClosed(3, m);
    StartReachable(3, m);
    EarlyWaits(views, m);
    LateWaits(views, m);
    EarlyJumps(views, m);
    LateJumps(views, m);
    Settled(3, m, Profile(m, 2, 3, 5), m - 1, 2);
  }

  // ---------- exactly when ----------

  lemma ShownIsNotWithin(limit: nat, m: nat, difference: nat, bound: nat)
    requires Shows(limit, m, difference) && bound < difference
    ensures !SpreadWithin(limit, m, bound)
  {
  }

  lemma WithinMore(limit: nat, m: nat, bound: nat, more: nat)
    requires SpreadWithin(limit, m, bound) && bound <= more
    ensures SpreadWithin(limit, m, more)
  {
  }

  /** Success counts never differ by more than the number k of calls at a time if and only if there
      are at most two clients, k is at most 2, or both are 3. */
  lemma SpreadCondition(limit: nat, m: nat)
    requires limit > 0 && m > 0
    ensures SpreadWithin(limit, m, limit) <==> m <= 2 || limit <= 2 || (m == 3 && limit == 3)
  {
    if m <= 2 || limit == 1 {
      DriftBound(limit, m);
      WithinMore(limit, m, DriftLimit(limit, m), limit);
    } else if limit == 2 {
      TwoAtATime(m);
    } else if m == 3 && limit == 3 {
      ThreeClients(3);
    } else if limit == 3 {
      FourApart(m);
      ShownIsNotWithin(limit, m, 4, limit);
    } else {
      DriftAttained(limit, m);
      ShownIsNotWithin(limit, m, Drift(limit), limit);
    }
  }

  /** For two clients the largest difference is k, for three it is k - 1 + k / 2 if k is not 1. */
  lemma ExactDrift(limit: nat)
    requires limit > 0
    ensures SpreadWithin(limit, 2, limit) && Shows(limit, 2, limit)
    ensures SpreadWithin(limit, 3, Drift(limit)) && Shows(limit, 3, Drift(limit))
  {
    SpreadCondition(limit, 2);
    SpreadAttained(limit, 2);
    ThreeClients(limit);
    if limit == 1 {
      SpreadAttained(1, 3);
    } else {
      DriftAttained(limit, 3);
    }
  }
}
