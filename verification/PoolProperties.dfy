/** What every run of the connection pool keeps: ownership of connections, the balance of open and
    close events, how many connections the start-up fill can lose, and what whole-second
    timestamps do to staleness. */
module PoolProperties {
  import opened Time
  import opened Wrappers
  import opened PriorityQueues
  import opened PoolProtocol

  ghost function CheckingCalls(p: Pool): set<CallId> {
    set k | k in p.calls && p.calls[k].Checking?
  }

  function HandSize(p: Pool): nat {
    if p.hand.Some? then 1 else 0
  }

  /** Every open event is matched by a close event or by a connection the pool still accounts for. */
  ghost predicate EventsBalanced(p: Pool) {
    p.opens == p.closes + |p.queue| + |p.leases| + |CheckingCalls(p)| + HandSize(p) + |p.overflowed| + |p.dropped|
  }

  /** Counting facts: the queue never outgrows its capacity, and where its contents came from. */
  ghost predicate Counted(p: Pool) {
    && (p.capacity > 0 ==> |p.queue| <= p.capacity)
    && p.filled <= (if p.capacity > 0 then p.capacity else 0)
    && |p.queue| + p.popped + |p.dropped| + HandSize(p) <= p.filled + p.returned
    && p.returned + |p.leases| + |CheckingCalls(p)| <= p.popped + p.demanded
    && |p.dropped| <= p.returned
    && |p.dropped| <= p.demanded
  }

  /** One event for each connection that is dialed or closed with an event, and no losses without a
      positive capacity. */
  ghost predicate EventsExact(p: Pool) {
    && p.opens == p.dialed && p.closes == |p.closed|
    && (p.capacity <= 0 ==> p.overflowed == {} && p.dropped == {})
  }

  /** Stored seconds are truncated readings of the past, and a call that popped e knows that
      nothing pooled before its pop was used in a later second than e. */
  ghost predicate Timed(p: Pool) {
    && (forall e :: e in p.queue ==> e.priority == UnixSecond(e.value.pushedAt) && e.value.pushedAt <= p.now)
    && (forall k :: k in p.calls && p.calls[k].Checking? ==> TimedCall(p, p.calls[k]))
  }

  ghost predicate TimedCall(p: Pool, call: Call)
    requires call.Checking?
  {
    && call.entry.priority == UnixSecond(call.entry.value.pushedAt)
    && call.entry.value.pushedAt <= call.poppedAt <= p.now
    && (forall e :: e in p.queue && e.value.pushedAt < call.poppedAt ==> e.priority <= call.entry.priority)
  }

  ghost predicate Inv(p: Pool) {
    Owned(p) && EventsBalanced(p) && EventsExact(p) && Counted(p) && Timed(p)
  }

  lemma PopChecks(p: Pool, a: Action)
    requires Owned(p) && Enabled(p, a) && a.Pop? && a.entry.Some?
    ensures a.call !in CheckingCalls(p) && CheckingCalls(Apply(p, a)) == CheckingCalls(p) + {a.call}
  {
  }

  lemma CheckEnds(p: Pool, a: Action)
    requires Owned(p) && Enabled(p, a) && (a.Reuse? || a.Discard?)
    ensures a.call in CheckingCalls(p) && CheckingCalls(Apply(p, a)) == CheckingCalls(p) - {a.call}
  {
  }

  lemma ChecksKept(p: Pool, a: Action)
    requires Owned(p) && Enabled(p, a) && !a.Reuse? && !a.Discard? && !(a.Pop? && a.entry.Some?)
    ensures CheckingCalls(Apply(p, a)) == CheckingCalls(p)
  {
    if !a.Pop? && !a.Dial? {
      assert Apply(p, a).calls == p.calls;
    }
  }

  lemma CheckingAfter(p: Pool, a: Action)
    requires Owned(p) && Enabled(p, a)
    ensures a.Pop? && a.entry.Some? ==>
              a.call !in CheckingCalls(p) && CheckingCalls(Apply(p, a)) == CheckingCalls(p) + {a.call}
    ensures a.Reuse? || a.Discard? ==>
              a.call in CheckingCalls(p) && CheckingCalls(Apply(p, a)) == CheckingCalls(p) - {a.call}
    ensures !a.Reuse? && !a.Discard? && !(a.Pop? && a.entry.Some?) ==>
              CheckingCalls(Apply(p, a)) == CheckingCalls(p)
  {
    if a.Pop? && a.entry.Some? {
      PopChecks(p, a);
    } else if a.Reuse? || a.Discard? {
      CheckEnds(p, a);
    } else {
      ChecksKept(p, a);
    }
  }

  lemma LeasesAfter(p: Pool, a: Action)
    requires Owned(p) && Enabled(p, a)
    ensures a.Reuse? || (a.Dial? && a.ok) ==> |Apply(p, a).leases| == |p.leases| + 1
    ensures a.Return? || a.Destroy? ==> |Apply(p, a).leases| == |p.leases| - 1
  {
    if a.Return? || a.Destroy? {
      assert p.leases == (p.leases - {a.call})[a.call := p.leases[a.call]];
    }
  }

  /** A connection that leaves the hand or a lease is not yet among the lost ones. */
  lemma NotYetLost(p: Pool, a: Action)
    requires Owned(p) && Enabled(p, a)
    ensures a.FillPush? ==> p.hand.value !in p.dropped
    ensures a.Return? ==> p.leases[a.call] !in p.overflowed
    ensures a.Discard? ==> p.calls[a.call].entry.value.conn !in p.closed
    ensures a.Destroy? ==> p.leases[a.call] !in p.closed
  {
    if a.FillPush? {
      assert At(p, p.hand.value, InHand) && !At(p, p.hand.value, Dropped);
    }
    if a.Discard? {
      var c := p.calls[a.call].entry.value.conn;
      assert At(p, c, BeingChecked(a.call)) && !At(p, c, Closed);
    }
    if a.Destroy? {
      assert At(p, p.leases[a.call], Leased(a.call)) && !At(p, p.leases[a.call], Closed);
    }
    if a.Return? {
      assert At(p, p.leases[a.call], Leased(a.call)) && !At(p, p.leases[a.call], Overflowed);
    }
  }

  lemma EventsOfCalls(p: Pool, a: Action)
    requires Owned(p) && EventsBalanced(p) && Enabled(p, a) && (a.Pop? || a.Reuse? || a.Discard? || a.Dial?)
    ensures EventsBalanced(Apply(p, a))
  {
    CheckingAfter(p, a);
    LeasesAfter(p, a);
  }

  lemma EventsStep(p: Pool, a: Action)
    requires Owned(p) && EventsBalanced(p) && Enabled(p, a)
    ensures EventsBalanced(Apply(p, a))
  {
    if a.Pop? || a.Reuse? || a.Discard? || a.Dial? {
      EventsOfCalls(p, a);
    } else {
      CheckingAfter(p, a);
      LeasesAfter(p, a);
      NotYetLost(p, a);
    }
  }

  lemma EventsExactStep(p: Pool, a: Action)
    requires Owned(p) && EventsExact(p) && Enabled(p, a)
    ensures EventsExact(Apply(p, a))
  {
    NotYetLost(p, a);
  }

  lemma CountsStep(p: Pool, a: Action)
    requires Owned(p) && Counted(p) && Enabled(p, a)
    ensures Counted(Apply(p, a))
  {
    CheckingAfter(p, a);
    LeasesAfter(p, a);
    NotYetLost(p, a);
  }

  /** Entries of the next queue were there before, or were pushed just now. */
  lemma QueueAfter(p: Pool, a: Action, e: Pooled)
    requires Enabled(p, a) && e in Apply(p, a).queue
    ensures e in p.queue || (e.priority == UnixSecond(p.now) && e.value.pushedAt == p.now)
  {
  }

  /** Calls that check a connection next did so before, or popped it just now. */
  lemma CallsAfter(p: Pool, a: Action, k: CallId)
    requires Enabled(p, a) && k in Apply(p, a).calls && Apply(p, a).calls[k].Checking?
    ensures || (k in p.calls && p.calls[k] == Apply(p, a).calls[k])
            || (a.Pop? && a.entry.Some? && Apply(p, a).calls[k] == Checking(a.entry.value, p.now))
  {
  }

  lemma TimedStep(p: Pool, a: Action)
    requires Timed(p) && Enabled(p, a)
    ensures Timed(Apply(p, a))
  {
    var q := Apply(p, a);
    assert p.now <= q.now;
    forall e | e in q.queue
      ensures e.priority == UnixSecond(e.value.pushedAt) && e.value.pushedAt <= q.now
    {
      QueueAfter(p, a, e);
    }
    forall k | k in q.calls && q.calls[k].Checking?
      ensures TimedCall(q, q.calls[k])
    {
      TimedCallStep(p, a, k);
    }
  }

  lemma TimedCallStep(p: Pool, a: Action, k: CallId)
    requires Timed(p) && Enabled(p, a) && k in Apply(p, a).calls && Apply(p, a).calls[k].Checking?
    ensures TimedCall(Apply(p, a), Apply(p, a).calls[k])
  {
    var q := Apply(p, a);
    CallsAfter(p, a, k);
    assert p.now <= q.now;
    if k in p.calls && p.calls[k] == q.calls[k] {
      assert TimedCall(p, p.calls[k]);
    }
    forall e | e in q.queue && e.value.pushedAt < q.calls[k].poppedAt
      ensures e.priority <= q.calls[k].entry.priority
    {
      QueueAfter(p, a, e);
    }
  }

  /** Ownership, accounting and timing hold after every run of every pool. */
  lemma {:induction false} AlwaysInv(p: Pool, run: seq<Action>)
    requires Inv(p) && Legal(p, run)
    ensures Inv(After(p, run))
    decreases |run|
  {
    if run != [] {
      OwnedStep(p, run[0]);
      EventsStep(p, run[0]);
      EventsExactStep(p, run[0]);
      CountsStep(p, run[0]);
      TimedStep(p, run[0]);
      AlwaysInv(Apply(p, run[0]), run[1..]);
    }
  }

  lemma InitialInv(capacity: int, staleTimeout: int, now: int)
    ensures Inv(NewPool(capacity, staleTimeout, now))
  {
    var p := NewPool(capacity, staleTimeout, now);
    assert CheckingCalls(p) == {};
    assert forall c: ConnId, x: Place :: !At(p, c, x);
  }

  /** Where any number of overlapping calls, returns, destructions and the start-up fill can take
      a new pool. */
  ghost predicate Reaches(capacity: int, staleTimeout: int, now: int, run: seq<Action>, p: Pool) {
    Legal(NewPool(capacity, staleTimeout, now), run) && p == After(NewPool(capacity, staleTimeout, now), run)
  }

  lemma ReachedInv(capacity: int, staleTimeout: int, now: int, run: seq<Action>, p: Pool)
    requires Reaches(capacity, staleTimeout, now, run, p)
    ensures Inv(p)
    ensures p.capacity == capacity && p.staleTimeout == staleTimeout
  {
    InitialInv(capacity, staleTimeout, now);
    AlwaysInv(NewPool(capacity, staleTimeout, now), run);
    ConfigurationKept(NewPool(capacity, staleTimeout, now), run);
  }

  lemma {:induction false} ConfigurationKept(p: Pool, run: seq<Action>)
    requires Legal(p, run)
    ensures After(p, run).capacity == p.capacity && After(p, run).staleTimeout == p.staleTimeout
    decreases |run|
  {
    if run != [] {
      ConfigurationKept(Apply(p, run[0]), run[1..]);
    }
  }

  /** Each dialed connection is in exactly one place: queued once, in the fill's hand, held by one
      Conn call, leased to one holder, closed, or dropped by the fill. */
  lemma OneOwnerEach(capacity: int, staleTimeout: int, now: int, run: seq<Action>, p: Pool, c: ConnId)
    requires Reaches(capacity, staleTimeout, now, run, p) && c < p.dialed
    ensures exists x: Place :: At(p, c, x) && forall y: Place :: At(p, c, y) ==> y == x
    ensures forall e :: e in p.queue && e.value.conn == c ==> p.queue[e] == 1
  {
    ReachedInv(capacity, staleTimeout, now, run, p);
    assert Somewhere(p, c);
  }

  /** Two leases never hold the same connection, and no leased connection is in the queue. */
  lemma LeasesExclusive(capacity: int, staleTimeout: int, now: int, run: seq<Action>, p: Pool, k: CallId)
    requires Reaches(capacity, staleTimeout, now, run, p) && k in p.leases
    ensures forall j :: j in p.leases && p.leases[j] == p.leases[k] ==> j == k
    ensures forall e :: e in p.queue ==> e.value.conn != p.leases[k]
    ensures p.leases[k] !in p.closed + p.overflowed + p.dropped
  {
    ReachedInv(capacity, staleTimeout, now, run, p);
    LeaseIsOnlyPlace(p, k);
  }

  lemma LeaseIsOnlyPlace(p: Pool, k: CallId)
    requires Owned(p) && k in p.leases
    ensures forall j :: j in p.leases && p.leases[j] == p.leases[k] ==> j == k
    ensures forall e :: e in p.queue ==> e.value.conn != p.leases[k]
    ensures p.leases[k] !in p.closed + p.overflowed + p.dropped
  {
    var c := p.leases[k];
    assert At(p, c, Leased(k));
    assert !At(p, c, Closed) && !At(p, c, Overflowed) && !At(p, c, Dropped);
    forall j | j in p.leases && p.leases[j] == c
      ensures j == k
    {
      assert At(p, c, Leased(j));
    }
    forall e | e in p.queue
      ensures e.value.conn != c
    {
      assert !At(p, c, InQueue(e));
    }
  }

  // ---------- what the run says ----------

  /** How often the run does each thing. */
  datatype Tally = Tally(fillDials: nat, openings: nat, demanded: nat, closed: nat, settled: nat)

  function TallyOf(run: seq<Action>): Tally {
    if run == [] then Tally(0, 0, 0, 0, 0)
    else
      var t := TallyOf(run[1..]);
      match run[0]
      case FillDial(ok) => t.(fillDials := t.fillDials + 1, openings := t.openings + (if ok then 1 else 0))
      case Dial(_, ok) => if ok then t.(openings := t.openings + 1, demanded := t.demanded + 1) else t
      case Discard(_) => t.(closed := t.closed + 1)
      case Destroy(_) => t.(closed := t.closed + 1)
      case Return(_) => t.(settled := t.settled + 1)
      case _ => t
  }

  lemma {:induction false} TallyRun(p: Pool, run: seq<Action>)
    requires Owned(p) && Legal(p, run)
    ensures var q, t := After(p, run), TallyOf(run);
            && q.filled == p.filled + t.fillDials && q.opens == p.opens + t.openings
            && q.demanded == p.demanded + t.demanded && q.closes == p.closes + t.closed
            && q.returned + |q.overflowed| == p.returned + |p.overflowed| + t.settled
    decreases |run|
  {
    if run != [] {
      OwnedStep(p, run[0]);
      NotYetLost(p, run[0]);
      TallyRun(Apply(p, run[0]), run[1..]);
    }
  }

  /** The fill dials at most as often as its capacity says, whether its dials succeed or not; every
      successful dial of the run emits one open event, every discarded or destroyed connection one
      close event, and nothing else does; every lease that is put back is pooled or closed because
      the pool is full, and the latter never happens without a positive capacity. */
  lemma RunTallied(capacity: int, staleTimeout: int, now: int, run: seq<Action>, p: Pool)
    requires Reaches(capacity, staleTimeout, now, run, p)
    ensures var t := TallyOf(run);
            && t.fillDials <= (if capacity > 0 then capacity else 0)
            && p.opens == t.openings == p.dialed && p.closes == t.closed == |p.closed| && p.demanded == t.demanded
            && p.returned + |p.overflowed| == t.settled
            && (capacity <= 0 ==> p.overflowed == {} && p.dropped == {} && p.returned == t.settled)
  {
    ReachedInv(capacity, staleTimeout, now, run, p);
    InitialInv(capacity, staleTimeout, now);
    TallyRun(NewPool(capacity, staleTimeout, now), run);
  }

  /** What becomes of a lease that is put back, and of a connection that the fill pushes: it is
      pooled with the current second unless a positive capacity is reached. */
  lemma RoomDecides(capacity: int, staleTimeout: int, now: int, run: seq<Action>, p: Pool, k: CallId)
    requires Reaches(capacity, staleTimeout, now, run, p)
    ensures var room := capacity <= 0 || |p.queue| < capacity;
            && (k in p.leases ==>
                  var q, c := Apply(p, Return(k)), p.leases[k];
                  if room then q == p.(queue := p.queue + multiset{Entry(Stamped(c, p.now), p.now / 1_000_000_000)},
                                       leases := p.leases - {k}, returned := p.returned + 1)
                  else q == p.(leases := p.leases - {k}, overflowed := p.overflowed + {c}))
            && (p.hand.Some? ==>
                  var q, c := Apply(p, FillPush), p.hand.value;
                  if room then q == p.(queue := p.queue + multiset{Entry(Stamped(c, p.now), p.now / 1_000_000_000)},
                                       hand := None)
                  else q == p.(hand := None, dropped := p.dropped + {c}))
  {
    ReachedInv(capacity, staleTimeout, now, run, p);
  }

  /** Open events minus close events count the connections that are pooled, leased, in transit,
      closed silently because the pool was full, or dropped by the fill. */
  lemma EventConservation(capacity: int, staleTimeout: int, now: int, run: seq<Action>, p: Pool)
    requires Reaches(capacity, staleTimeout, now, run, p)
    ensures p.opens - p.closes ==
            |p.queue| + |p.leases| + |CheckingCalls(p)| + HandSize(p) + |p.overflowed| + |p.dropped|
  {
    ReachedInv(capacity, staleTimeout, now, run, p);
  }

  /** The fill drops no more connections than its capacity, than leases were put back, or than
      connections were dialed on demand; a positive capacity bounds the queue. */
  lemma FillLossBound(capacity: int, staleTimeout: int, now: int, run: seq<Action>, p: Pool)
    requires Reaches(capacity, staleTimeout, now, run, p)
    ensures |p.dropped| <= (if capacity > 0 then capacity else 0)
    ensures |p.dropped| <= p.returned && |p.dropped| <= p.demanded
    ensures capacity > 0 ==> |p.queue| <= capacity
  {
    ReachedInv(capacity, staleTimeout, now, run, p);
    DroppedWithinFill(NewPool(capacity, staleTimeout, now), run);
  }

  lemma {:induction false} DroppedWithinFill(p: Pool, run: seq<Action>)
    requires Legal(p, run) && |p.dropped| + HandSize(p) <= p.filled
    ensures |After(p, run).dropped| <= After(p, run).filled
    decreases |run|
  {
    if run != [] {
      DroppedWithinFill(Apply(p, run[0]), run[1..]);
    }
  }

  ghost predicate FillOver(p: Pool) {
    p.hand.None? && p.filled >= p.capacity
  }

  /** Nothing is dropped any more once the fill is over, so only leases put back before that can
      cost a connection. */
  lemma {:induction false} LossesEndWithFill(p: Pool, run: seq<Action>)
    requires FillOver(p) && Legal(p, run)
    ensures After(p, run).dropped == p.dropped && FillOver(After(p, run))
    decreases |run|
  {
    if run != [] {
      LossesEndWithFill(Apply(p, run[0]), run[1..]);
    }
  }

  /** Without a positive timeout every connection is reused. Otherwise a connection is reused exactly
      if less than the timeout has passed since the beginning of the second it was pooled in. So a
      reused one was idle for less than the timeout, and a discarded one for more than the timeout
      less one second; then everything that was pooled before the pop and still is would have been
      discarded too: looking at one entry replaces a scan. */
  lemma StalenessError(capacity: int, staleTimeout: int, now: int, run: seq<Action>, p: Pool, k: CallId)
    requires Reaches(capacity, staleTimeout, now, run, p)
    requires k in p.calls && p.calls[k].Checking?
    ensures Enabled(p, Reuse(k)) <==> !Enabled(p, Discard(k))
    ensures var second := p.calls[k].entry.value.pushedAt / 1_000_000_000;
            Enabled(p, Reuse(k)) <==> staleTimeout <= 0 || p.now - second * 1_000_000_000 < staleTimeout
    ensures Enabled(p, Reuse(k)) && staleTimeout > 0 ==> p.now - p.calls[k].entry.value.pushedAt < staleTimeout
    ensures Enabled(p, Discard(k)) ==> p.now - p.calls[k].entry.value.pushedAt > staleTimeout - SECOND
    ensures Enabled(p, Discard(k)) ==>
              forall e :: e in p.queue && e.value.pushedAt < p.calls[k].poppedAt ==> !Fresh(staleTimeout, e.priority, p.now)
  {
    ReachedInv(capacity, staleTimeout, now, run, p);
    assert TimedCall(p, p.calls[k]);
  }

  // ---------- the loss bound is attained ----------

  lemma {:induction false} RunConcat(p: Pool, r1: seq<Action>, r2: seq<Action>)
    requires Legal(p, r1) && Legal(After(p, r1), r2)
    ensures Legal(p, r1 + r2) && After(p, r1 + r2) == After(After(p, r1), r2)
    decreases |r1|
  {
    if r1 == [] {
      assert r1 + r2 == r2;
    } else {
      RunConcat(Apply(p, r1[0]), r1[1..], r2);
      assert (r1 + r2)[1..] == r1[1..] + r2;
    }
  }

  /** Taking two more actions at the end of a run. */
  lemma RunExtend(p: Pool, r: seq<Action>, a: Action, b: Action)
    requires Legal(p, r) && Enabled(After(p, r), a) && Enabled(Apply(After(p, r), a), b)
    ensures Legal(p, r + [a, b]) && After(p, r + [a, b]) == Apply(Apply(After(p, r), a), b)
  {
    var q := After(p, r);
    var q' := Apply(q, a);
    assert [a, b][1..] == [b] && [b][1..] == [];
    assert Legal(Apply(q', b), []) && After(Apply(q', b), []) == Apply(q', b);
    assert Legal(q', [b]) && After(q', [b]) == After(Apply(q', b), [b][1..]);
    assert Legal(q, [a, b]);
    RunConcat(p, r, [a, b]);
  }

  /** n overlapping calls find the pool empty and dial. */
  lemma {:induction false} Overlap(p: Pool, n: nat) returns (run: seq<Action>)
    requires p == NewPool(p.capacity, 0, 0)
    ensures Legal(p, run)
    ensures After(p, run) == p.(leases := After(p, run).leases, dialed := n, demanded := n, opens := n)
    ensures forall k: nat :: k in After(p, run).leases <==> k < n
  {
    run := [];
    if n > 0 {
      run := Overlap(p, n - 1);
      RunExtend(p, run, Pop(n - 1, None), Dial(n - 1, true));
      run := run + [Pop(n - 1, None), Dial(n - 1, true)];
    }
  }

  /** n leases put back fill an empty queue of that capacity. */
  lemma {:induction false} ReturnMany(p: Pool, n: nat) returns (run: seq<Action>)
    requires p.queue == multiset{} && n <= p.capacity && p.filled == 0 && p.hand == None && p.dropped == {}
    requires forall k: nat :: k < n ==> k in p.leases
    ensures Legal(p, run) && |After(p, run).queue| == n
    ensures forall k :: k in After(p, run).leases <==> k in p.leases && !(0 <= k < n)
    ensures After(p, run).filled == 0 && After(p, run).hand == None && After(p, run).dropped == {}
    ensures After(p, run).capacity == p.capacity
  {
    run := [];
    if n > 0 {
      run := ReturnMany(p, n - 1);
      var last := [Return(n - 1)];
      assert last[1..] == [];
      RunConcat(p, run, last);
      run := run + last;
    }
  }

  /** A fill that meets a full queue drops everything it dials. */
  lemma {:induction false} DropMany(p: Pool, n: nat) returns (run: seq<Action>)
    requires p.capacity > 0 && |p.queue| == p.capacity && n <= p.capacity
    requires p.filled == 0 && p.hand == None && p.dropped == {}
    ensures Legal(p, run) && |After(p, run).dropped| == n == After(p, run).filled
    ensures After(p, run).hand == None && After(p, run).queue == p.queue && After(p, run).capacity == p.capacity
    ensures forall c :: c in After(p, run).dropped ==> c < After(p, run).dialed
  {
    run := [];
    if n > 0 {
      run := DropMany(p, n - 1);
      RunExtend(p, run, FillDial(true), FillPush);
      run := run + [FillDial(true), FillPush];
    }
  }

  /** A pool can lose connections: for every positive capacity some run makes the fill drop that
      many, so the bound of FillLossBound is exact and capacity is the only protection. */
  lemma FillCanLoseCapacity(capacity: nat) returns (run: seq<Action>, p: Pool)
    requires capacity > 0
    ensures Reaches(capacity, 0, 0, run, p) && |p.dropped| == capacity
  {
    var p0 := NewPool(capacity, 0, 0);
    var r1 := Overlap(p0, capacity);
    var p1 := After(p0, r1);
    var r2 := ReturnMany(p1, capacity);
    var p2 := After(p1, r2);
    var r3 := DropMany(p2, capacity);
    RunConcat(p0, r1, r2);
    RunConcat(p0, r1 + r2, r3);
    run := r1 + r2 + r3;
    p := After(p0, run);
  }
}
