/** Retries and leases over every interleaving of requests: how many transactions a request makes,
    how its leases are settled, and how many failures dead connections can cause. */
module ProxyRetries {
  import opened Collections
  import opened Wrappers
  import Pools = PoolProtocol
  import opened ProxyProtocol

  // ---------- what a request has used up ----------

  /** The number of transactions the request has begun. */
  function Transactions(q: Request): nat {
    |q.failed| + (if InTransaction(q.phase) || q.won.Some? then 1 else 0)
  }

  /** The retry counter says how many transactions failed; a request that gave up either ran out
      of retries or got no connection. */
  ghost predicate Budgeted(q: Request) {
    && (if q.phase.GaveUp? && |q.failed| > Budget(q.configured)
        then |q.failed| == Budget(q.configured) + 1 && q.retries == 0
        else |q.failed| + q.retries == Budget(q.configured))
    && (q.won.Some? <==> q.phase.Answered?)
  }

  /** The lease the request is connecting with or working on. */
  ghost predicate Current(q: Request, l: Lease) {
    (q.phase.Connecting? || InTransaction(q.phase)) && q.phase.lease == l
  }

  ghost predicate Owns(s: System, r: RequestId, l: Lease) {
    l in s.owner && s.owner[l] == r
  }

  /** A request's leases are its own, each in one role and each failure on a lease of its own. */
  ghost predicate LeasesOk(s: System, r: RequestId)
    requires r in s.requests
  {
    var q := s.requests[r];
    && (forall l :: Current(q, l) ==> Owns(s, r, l) && l !in q.failed && q.won != Some(l))
    && (forall l :: l in q.failed ==> Owns(s, r, l) && q.won != Some(l) && (l in s.destroying || l in s.destroyed))
    && (q.won.Some? ==> Owns(s, r, q.won.value) && (q.won.value in s.closing || q.won.value in s.returned))
    && (forall i, j :: 0 <= i < j < |q.failed| ==> q.failed[i] != q.failed[j])
  }

  /** Only a failed transaction has its lease destroyed, only a successful one has it closed. */
  ghost predicate SettledForCause(s: System, l: Lease) {
    && (l in s.destroying || l in s.destroyed ==>
          l in s.owner && s.owner[l] in s.requests && l in s.requests[s.owner[l]].failed)
    && (l in s.closing || l in s.returned ==>
          l in s.owner && s.owner[l] in s.requests && s.requests[s.owner[l]].won == Some(l))
  }

  /** A lease that is settled is gone for good. */
  ghost predicate Gone(s: System, l: Lease) {
    l in s.returned || l in s.destroyed ==>
      l.pool < |s.pools| && l.call !in s.pools[l.pool].leases && l.call !in s.pools[l.pool].calls
  }

  /** Every lease a pool has given out is in use by a request or scheduled to be settled. */
  ghost predicate Accounted(s: System, l: Lease) {
    IsLease(s, l) ==>
      || l in s.closing || l in s.destroying
      || (l in s.owner && s.owner[l] in s.requests &&
          InTransaction(s.requests[s.owner[l]].phase) && s.requests[s.owner[l]].phase.lease == l)
  }

  ghost predicate LeaseInv(s: System, l: Lease) {
    && SettledForCause(s, l) && Gone(s, l) && Accounted(s, l)
    && (l.pool < |s.pools| && l.call in s.pools[l.pool].calls ==> l in s.owner)
  }

  ghost predicate RequestInv(s: System, r: RequestId) {
    r in s.requests ==> Budgeted(s.requests[r]) && LeasesOk(s, r)
  }

  ghost predicate Inv(s: System) {
    WellFormed(s) && (forall r :: RequestInv(s, r)) && (forall l :: LeaseInv(s, l))
  }

  // ---------- every step keeps the accounts ----------

  lemma FailRequests(s: System, t: System, r: RequestId, r': RequestId)
    requires RequestInv(s, r) && RequestInv(s, r') && Fails(s, t, r)
    ensures RequestInv(t, r')
  {
    assert Current(s.requests[r], s.requests[r].phase.lease);
  }

  lemma TransactionRequests(s: System, t: System, r: RequestId, r': RequestId)
    requires RequestInv(s, r) && RequestInv(s, r')
    requires Progresses(s, t, r) || Fails(s, t, r) || Succeeds(s, t, r)
    ensures RequestInv(t, r')
  {
    if Fails(s, t, r) {
      FailRequests(s, t, r, r');
    } else {
      assert Current(s.requests[r], s.requests[r].phase.lease);
    }
  }

  lemma TransactionLeases(s: System, t: System, r: RequestId, l: Lease)
    requires RequestInv(s, r) && LeaseInv(s, l)
    requires Progresses(s, t, r) || Fails(s, t, r) || Succeeds(s, t, r)
    ensures LeaseInv(t, l)
  {
    var l0 := s.requests[r].phase.lease;
    assert Current(s.requests[r], l0);
    assert Owns(s, r, l0);
  }

  lemma TransactionStep(s: System, t: System, r: RequestId)
    requires Inv(s) && WellFormed(t) && (Progresses(s, t, r) || Fails(s, t, r) || Succeeds(s, t, r))
    ensures Inv(t)
  {
    forall r'
      ensures RequestInv(t, r')
    {
      TransactionRequests(s, t, r, r');
    }
    forall l
      ensures LeaseInv(t, l)
    {
      TransactionLeases(s, t, r, l);
    }
  }

  lemma ArrivalRequests(admitted: Admitted, s: System, a: Action, r: RequestId)
    requires WellFormed(s) && RequestInv(s, r) && Enabled(admitted, s, a) && (a.Arrive? || a.Abort? || a.Serve?)
    ensures RequestInv(Apply(admitted, s, a), r)
  {
  }

  lemma ArrivalLeases(admitted: Admitted, s: System, a: Action, l: Lease)
    requires WellFormed(s) && LeaseInv(s, l) && Enabled(admitted, s, a) && (a.Arrive? || a.Abort? || a.Serve?)
    ensures LeaseInv(Apply(admitted, s, a), l)
  {
  }

  lemma ArrivalStep(admitted: Admitted, s: System, a: Action)
    requires Inv(s) && Enabled(admitted, s, a) && (a.Arrive? || a.Abort? || a.Serve?)
    ensures Inv(Apply(admitted, s, a))
  {
    WellFormedStep(admitted, s, a);
    forall r
      ensures RequestInv(Apply(admitted, s, a), r)
    {
      ArrivalRequests(admitted, s, a, r);
    }
    forall l
      ensures LeaseInv(Apply(admitted, s, a), l)
    {
      ArrivalLeases(admitted, s, a, l);
    }
  }

  // ---------- steps of the pools ----------

  /** After a step of pool i by the owner of its call, leases are bound as LeasesAfter says. */
  lemma PoolKeys(s: System, i: nat, a: Pools.Action, l: Lease)
    requires WellFormed(s) && PoolEnabled(s, i, a) && l.pool < |s.pools|
    ensures IsLease(PoolStep(s, i, a), l) <==>
            if l.pool == i then l.call in LeasesAfter(s.pools[i], a) else IsLease(s, l)
    ensures l.call in PoolStep(s, i, a).pools[l.pool].calls <==>
            if l.pool == i then l.call in CallsAfter(s.pools[i], a) else l.call in s.pools[l.pool].calls
  {
    PoolCalls(s.pools[i], a);
    PoolLeases(s.pools[i], a);
  }

  lemma AcquireLeases(admitted: Admitted, s: System, a: Action, l: Lease)
    requires Inv(s) && Enabled(admitted, s, a) && a.Acquire?
    ensures LeaseInv(Apply(admitted, s, a), l)
  {
    assert LeaseInv(s, l) && RequestInv(s, a.r);
    if l.pool < |s.pools| {
      PoolKeys(s, a.i, Pools.Pop(a.call, a.entry), l);
    }
    if l == Lease(a.i, a.call) {
      assert l !in s.owner;
    }
  }

  lemma ConnectLeases(admitted: Admitted, s: System, a: Action, l: Lease)
    requires Inv(s) && Enabled(admitted, s, a) && a.Connect?
    ensures LeaseInv(Apply(admitted, s, a), l)
  {
    var l0 := s.requests[a.r].phase.lease;
    assert LeaseInv(s, l) && RequestInv(s, a.r) && Current(s.requests[a.r], l0);
    if l.pool < |s.pools| {
      PoolKeys(s, l0.pool, a.step, l);
    }
  }

  lemma SettleLeases(admitted: Admitted, s: System, a: Action, l: Lease)
    requires Inv(s) && Enabled(admitted, s, a) && a.Settle?
    ensures LeaseInv(Apply(admitted, s, a), l)
  {
    assert LeaseInv(s, l) && LeaseInv(s, a.lease);
    var step := if a.lease in s.closing then Pools.Return(a.lease.call) else Pools.Destroy(a.lease.call);
    if l.pool < |s.pools| {
      PoolKeys(s, a.lease.pool, step, l);
    }
  }

  lemma BackgroundLeases(admitted: Admitted, s: System, a: Action, l: Lease)
    requires Inv(s) && Enabled(admitted, s, a) && a.Background?
    ensures LeaseInv(Apply(admitted, s, a), l)
  {
    assert LeaseInv(s, l);
    if l.pool < |s.pools| {
      PoolKeys(s, a.i, a.step, l);
    }
  }

  lemma AcquireRequests(admitted: Admitted, s: System, a: Action, r: RequestId)
    requires WellFormed(s) && RequestInv(s, r) && Enabled(admitted, s, a) && a.Acquire?
    ensures RequestInv(Apply(admitted, s, a), r)
  {
    var l := Lease(a.i, a.call);
    if r in s.requests {
      assert !Owns(s, r, l) && l !in s.requests[r].failed && s.requests[r].won != Some(l);
    }
  }

  lemma ConnectRequests(admitted: Admitted, s: System, a: Action, r: RequestId)
    requires WellFormed(s) && RequestInv(s, r) && Enabled(admitted, s, a) && a.Connect?
    ensures RequestInv(Apply(admitted, s, a), r)
  {
    var l := s.requests[a.r].phase.lease;
    assert Current(s.requests[a.r], l);
  }

  lemma OtherRequests(admitted: Admitted, s: System, a: Action, r: RequestId)
    requires WellFormed(s) && RequestInv(s, r) && Enabled(admitted, s, a) && (a.Background? || a.Settle?)
    ensures RequestInv(Apply(admitted, s, a), r)
  {
  }

  lemma PoolActionStep(admitted: Admitted, s: System, a: Action)
    requires Inv(s) && Enabled(admitted, s, a) && (a.Background? || a.Acquire? || a.Connect? || a.Settle?)
    ensures Inv(Apply(admitted, s, a))
  {
    WellFormedStep(admitted, s, a);
    forall r
      ensures RequestInv(Apply(admitted, s, a), r)
    {
      match a
      case Acquire(_, _, _, _) => AcquireRequests(admitted, s, a, r);
      case Connect(_, _) => ConnectRequests(admitted, s, a, r);
      case _ => OtherRequests(admitted, s, a, r);
    }
    forall l
      ensures LeaseInv(Apply(admitted, s, a), l)
    {
      match a
      case Acquire(_, _, _, _) => AcquireLeases(admitted, s, a, l);
      case Connect(_, _) => ConnectLeases(admitted, s, a, l);
      case Settle(_) => SettleLeases(admitted, s, a, l);
      case _ => BackgroundLeases(admitted, s, a, l);
    }
  }

  lemma InvStep(admitted: Admitted, s: System, a: Action)
    requires Inv(s) && Enabled(admitted, s, a)
    ensures Inv(Apply(admitted, s, a))
  {
    match a
    case Arrive(_, _, _) => ArrivalStep(admitted, s, a);
    case Abort(_) => ArrivalStep(admitted, s, a);
    case Serve(_, _) => ArrivalStep(admitted, s, a);
    case Background(_, _) => PoolActionStep(admitted, s, a);
    case Acquire(_, _, _, _) => PoolActionStep(admitted, s, a);
    case Connect(_, _) => PoolActionStep(admitted, s, a);
    case Settle(_) => PoolActionStep(admitted, s, a);
    case _ =>
      WellFormedStep(admitted, s, a);
      IoOutcome(admitted, s, a);
      TransactionStep(s, Apply(admitted, s, a), a.r);
  }

  lemma {:induction false} InvRun(admitted: Admitted, s: System, run: seq<Action>)
    requires Inv(s) && Legal(admitted, s, run)
    ensures Inv(After(admitted, s, run))
    decreases |run|
  {
    if run != [] {
      InvStep(admitted, s, run[0]);
      InvRun(admitted, Apply(admitted, s, run[0]), run[1..]);
    }
  }

  // ---------- what the run says ----------

  /** A read or write of r that reports an error or moves less than it was asked to. */
  ghost predicate FallsShort(s: System, a: Action, r: RequestId) {
    && r in s.requests
    && match a
       case Write(r', n, ok) => r' == r && (!ok || n != |s.requests[r].bytes|)
       case ReadHeader(r', n, ok) => r' == r && (!ok || n != 2)
       case ReadBody(r', n, ok) =>
         && r' == r
         && (!ok || (s.requests[r].phase.GotHeader? && |s.requests[r].phase.header| == 2 &&
                     n != s.requests[r].phase.header[0] as int * 256 + s.requests[r].phase.header[1] as int))
       case _ => false
  }

  /** How many of r's reads and writes in the run fall short. */
  ghost function ShortIos(admitted: Admitted, s: System, run: seq<Action>, r: RequestId): nat
    requires WellFormed(s) && Legal(admitted, s, run)
    decreases |run|
  {
    if run == [] then 0
    else
      WellFormedStep(admitted, s, run[0]);
      (if FallsShort(s, run[0], r) then 1 else 0) + ShortIos(admitted, Apply(admitted, s, run[0]), run[1..], r)
  }

  lemma ShortWriteFails(admitted: Admitted, s: System, a: Action, r: RequestId)
    requires WellFormed(s) && Enabled(admitted, s, a) && (a.Write? || a.ReadHeader? || a.ReadBody?) && r in s.requests
    ensures var t := Apply(admitted, s, a);
            && r in t.requests && |t.requests[r].failed| == |s.requests[r].failed| + (if FallsShort(s, a, r) then 1 else 0)
            && t.requests[r].bytes == s.requests[r].bytes && t.requests[r].configured == s.requests[r].configured
  {
    if a.Write? {
      assert RequestBound(s, s.requests[a.r]);
      LeaseHasWire(s, s.requests[a.r].phase.lease);
    }
  }

  lemma FailedStep(admitted: Admitted, s: System, a: Action, r: RequestId)
    requires WellFormed(s) && Enabled(admitted, s, a) && r in s.requests
    ensures var t := Apply(admitted, s, a);
            && r in t.requests && |t.requests[r].failed| == |s.requests[r].failed| + (if FallsShort(s, a, r) then 1 else 0)
            && t.requests[r].bytes == s.requests[r].bytes && t.requests[r].configured == s.requests[r].configured
  {
    if a.Write? || a.ReadHeader? || a.ReadBody? {
      ShortWriteFails(admitted, s, a, r);
    }
  }

  /** A request is what arrived, and has failed as often as its reads and writes fell short. */
  lemma {:induction false} RequestIsItsRun(admitted: Admitted, s: System, run: seq<Action>, r: RequestId)
    requires WellFormed(s) && Legal(admitted, s, run) && r in After(admitted, s, run).requests
    ensures var q := After(admitted, s, run).requests[r];
            && |q.failed| == (if r in s.requests then |s.requests[r].failed| else 0) + ShortIos(admitted, s, run, r)
            && (if r in s.requests then q.bytes == s.requests[r].bytes && q.configured == s.requests[r].configured
                else Arrive(r, q.bytes, q.configured) in run)
    decreases |run|
  {
    if run != [] {
      var t := Apply(admitted, s, run[0]);
      WellFormedStep(admitted, s, run[0]);
      RequestIsItsRun(admitted, t, run[1..], r);
      if r in s.requests {
        FailedStep(admitted, s, run[0], r);
      } else if r in t.requests {
        NewRequest(admitted, s, run[0], r);
      }
    }
  }

  lemma NewRequest(admitted: Admitted, s: System, a: Action, r: RequestId)
    requires WellFormed(s) && Enabled(admitted, s, a) && r !in s.requests && r in Apply(admitted, s, a).requests
    ensures var q := Apply(admitted, s, a).requests[r]; a == Arrive(r, q.bytes, q.configured) && q.failed == []
  {
  }

  lemma {:induction false} AbortedOrNot(admitted: Admitted, s: System, run: seq<Action>, r: RequestId)
    requires Inv(s) && Legal(admitted, s, run) && Abort(r) !in run && (r in s.requests ==> NotAborted(s.requests[r]))
    ensures r in After(admitted, s, run).requests ==> NotAborted(After(admitted, s, run).requests[r])
    decreases |run|
  {
    if run != [] {
      InvStep(admitted, s, run[0]);
      if r in s.requests {
        assert RequestInv(s, r);
        RequestFailures(admitted, s, run[0], r);
      } else if r in Apply(admitted, s, run[0]).requests {
        NewRequest(admitted, s, run[0], r);
      }
      assert forall a :: a in run[1..] ==> a in run;
      AbortedOrNot(admitted, Apply(admitted, s, run[0]), run[1..], r);
    }
  }

  /** Over every interleaving, a request makes one transaction more than the retries it is allowed
      at most: as many as are configured, 16 if that is not positive. As long as it has not given up
      after a failure, the failures and the remaining retries add up to that number; then there is
      one failure more, and it gives up earlier only if it gets no connection. Each failure is a read
      or write that reported an error or fell short. The request has an answer exactly when a
      transaction succeeded; the leases of failed transactions are distinct and are destroyed, not
      closed; the lease of the successful one is closed, not destroyed. */
  lemma RetryAccounting(admitted: Admitted, s0: System, run: seq<Action>, r: RequestId)
    requires Initial(s0) && WellFormed(s0) && Legal(admitted, s0, run)
    requires r in After(admitted, s0, run).requests
    ensures var s := After(admitted, s0, run);
            var q := s.requests[r];
            var retries: nat := if q.configured > 0 then q.configured else 16;
            && Arrive(r, q.bytes, q.configured) in run
            && |q.failed| == ShortIos(admitted, s0, run, r)
            && Transactions(q) <= retries + 1
            && (|q.failed| + q.retries == retries || (q.phase.GaveUp? && q.retries == 0 && |q.failed| == retries + 1))
            && (q.phase.GaveUp? && |q.failed| <= retries ==> Abort(r) in run)
            && (q.phase.Answered? <==> q.won.Some?)
            && (forall i, j :: 0 <= i < j < |q.failed| ==> q.failed[i] != q.failed[j])
            && (forall l :: l in q.failed ==> (l in s.destroying || l in s.destroyed) && l !in s.closing && l !in s.returned)
            && (q.won.Some? ==>
                  var l := q.won.value;
                  (l in s.closing || l in s.returned) && l !in s.destroying && l !in s.destroyed)
  {
    InvRun(admitted, s0, run);
    RequestIsItsRun(admitted, s0, run, r);
    var s := After(admitted, s0, run);
    var q := s.requests[r];
    assert RequestInv(s, r);
    if Abort(r) !in run {
      AbortedOrNot(admitted, s0, run, r);
    }
    forall l | l in q.failed
      ensures (l in s.destroying || l in s.destroyed) && l !in s.closing && l !in s.returned
    {
      assert LeaseInv(s, l);
    }
    if q.won.Some? {
      assert LeaseInv(s, q.won.value);
    }
  }

  /** No lease is left over: each one a pool has given out is in use by one request in the middle
      of a transaction, or scheduled to be settled; settled leases are never scheduled again, so
      each is settled once, and only for the reason its transaction gave. */
  lemma LeasesSettledOnce(admitted: Admitted, s0: System, run: seq<Action>, l: Lease)
    requires Initial(s0) && WellFormed(s0) && Legal(admitted, s0, run)
    ensures var s := After(admitted, s0, run);
            && Accounted(s, l) && SettledForCause(s, l)
            && (l in s.returned || l in s.destroyed ==> !IsLease(s, l) && l !in s.closing && l !in s.destroying)
            && !(l in s.returned && l in s.destroyed)
  {
    InvRun(admitted, s0, run);
    var s := After(admitted, s0, run);
    assert LeaseInv(s, l);
    if l in s.owner {
      assert RequestInv(s, s.owner[l]);
    }
  }

  // ---------- failures caused by dead connections ----------

  /** A connection that a request could still come to use, or is using. */
  ghost predicate Usable(s: System, w: WireId) {
    w.pool < |s.pools| && exists x: Pools.Place :: Pools.At(s.pools[w.pool], w.conn, x) && UsablePlace(s, w.pool, x)
  }

  ghost predicate UsablePlace(s: System, i: nat, x: Pools.Place) {
    x.InQueue? || x.InHand? || x.BeingChecked? || (x.Leased? && Lease(i, x.call) !in s.destroying)
  }

  ghost function UsableAmong(s: System, dead: set<WireId>): set<WireId> {
    set w | w in dead && Usable(s, w)
  }

  /** Transactions fail on dead connections only. */
  ghost predicate Working(admitted: Admitted, s: System, a: Action, dead: set<WireId>)
    requires WellFormed(s) && Enabled(admitted, s, a)
  {
    (a.Write? || a.ReadHeader? || a.ReadBody?) && Fails(s, Apply(admitted, s, a), a.r) ==>
      IsLease(s, s.requests[a.r].phase.lease) && WireOf(s, s.requests[a.r].phase.lease) in dead
  }

  /** A place from which a step of the pool moves a connection to a usable one was usable. */
  lemma UsableSource(s: System, i: nat, a: Pools.Action, t: System, c: Pools.ConnId, y: Pools.Place)
    requires i < |s.pools| && Pools.Owned(s.pools[i]) && Pools.Enabled(s.pools[i], a) && c < s.pools[i].dialed
    requires s.destroying == t.destroying || (a.Destroy? && s.destroying == t.destroying + {Lease(i, a.call)})
    requires a.Return? ==> Lease(i, a.call) !in s.destroying
    requires Pools.At(Pools.Apply(s.pools[i], a), c, y) && UsablePlace(t, i, y)
    ensures Usable(s, WireId(i, c))
  {
    var x := Pools.PlaceBackward(s.pools[i], a, c, y);
    assert Pools.At(s.pools[i], c, x) && UsablePlace(s, i, x);
  }

  lemma UsableAfterPoolStep(s: System, i: nat, a: Pools.Action, t: System, w: WireId)
    requires WellFormed(s) && PoolEnabled(s, i, a) && t.pools == PoolStep(s, i, a).pools && w in s.wires
    requires s.destroying == t.destroying || (a.Destroy? && s.destroying == t.destroying + {Lease(i, a.call)})
    requires a.Return? ==> Lease(i, a.call) !in s.destroying
    requires Usable(t, w)
    ensures Usable(s, w)
  {
    var y: Pools.Place :| Pools.At(t.pools[w.pool], w.conn, y) && UsablePlace(t, w.pool, y);
    assert w == WireId(w.pool, w.conn);
    if w.pool == i {
      UsableSource(s, i, a, t, w.conn, y);
    } else {
      assert Pools.At(s.pools[w.pool], w.conn, y) && UsablePlace(s, w.pool, y);
    }
  }

  /** No action makes a connection usable again. */
  lemma UsableKept(admitted: Admitted, s: System, a: Action, w: WireId)
    requires WellFormed(s) && Enabled(admitted, s, a) && w in s.wires && Usable(Apply(admitted, s, a), w)
    ensures Usable(s, w)
  {
    var t := Apply(admitted, s, a);
    match a
    case Background(i, step) => UsableAfterPoolStep(s, i, step, t, w);
    case Acquire(_, i, call, entry) => UsableAfterPoolStep(s, i, Pools.Pop(call, entry), t, w);
    case Connect(r, step) => UsableAfterPoolStep(s, s.requests[r].phase.lease.pool, step, t, w);
    case Settle(l) =>
      if l in s.closing {
        UsableAfterPoolStep(s, l.pool, Pools.Return(l.call), t, w);
      } else {
        assert s.destroying == t.destroying + {l};
        UsableAfterPoolStep(s, l.pool, Pools.Destroy(l.call), t, w);
      }
    case _ =>
      assert t.pools == s.pools && s.destroying <= t.destroying;
      var y: Pools.Place :| Pools.At(t.pools[w.pool], w.conn, y) && UsablePlace(t, w.pool, y);
      assert Pools.At(s.pools[w.pool], w.conn, y) && UsablePlace(s, w.pool, y);
  }

  /** A failed transaction makes its connection unusable. */
  lemma FailureUsesUp(s: System, t: System, r: RequestId)
    requires WellFormed(s) && Fails(s, t, r) && IsLease(s, s.requests[r].phase.lease)
    ensures var w := WireOf(s, s.requests[r].phase.lease); Usable(s, w) && !Usable(t, w)
  {
    var l := s.requests[r].phase.lease;
    var w := WireOf(s, l);
    assert Pools.At(s.pools[l.pool], w.conn, Pools.Leased(l.call));
    assert UsablePlace(s, l.pool, Pools.Leased(l.call));
    forall x: Pools.Place | Pools.At(t.pools[w.pool], w.conn, x)
      ensures !UsablePlace(t, w.pool, x)
    {
      assert x == Pools.Leased(l.call);
    }
  }

  ghost predicate IsFailure(admitted: Admitted, s: System, a: Action)
    requires WellFormed(s) && Enabled(admitted, s, a)
  {
    (a.Write? || a.ReadHeader? || a.ReadBody?) && Fails(s, Apply(admitted, s, a), a.r)
  }

  lemma UsableStep(admitted: Admitted, s: System, a: Action, dead: set<WireId>)
    requires WellFormed(s) && Enabled(admitted, s, a) && Working(admitted, s, a, dead) && dead <= s.wires.Keys
    ensures |UsableAmong(Apply(admitted, s, a), dead)| + (if IsFailure(admitted, s, a) then 1 else 0)
            <= |UsableAmong(s, dead)|
  {
    var t := Apply(admitted, s, a);
    var before, after := UsableAmong(s, dead), UsableAmong(t, dead);
    forall w | w in after
      ensures w in before
    {
      UsableKept(admitted, s, a, w);
    }
    SubsetSize(after, before);
    if IsFailure(admitted, s, a) {
      FailureShrinks(s, t, a.r, dead);
    }
  }

  lemma FailureShrinks(s: System, t: System, r: RequestId, dead: set<WireId>)
    requires WellFormed(s) && Fails(s, t, r) && WireOf(s, s.requests[r].phase.lease) in dead
    requires UsableAmong(t, dead) <= UsableAmong(s, dead)
    ensures |UsableAmong(t, dead)| < |UsableAmong(s, dead)|
  {
    FailureUsesUp(s, t, r);
    var w := WireOf(s, s.requests[r].phase.lease);
    SubsetSize(UsableAmong(t, dead), UsableAmong(s, dead) - {w});
  }

  /** Every action of the run works in this sense, and r does not fail to get a connection. */
  ghost predicate WorkingRun(admitted: Admitted, s: System, run: seq<Action>, dead: set<WireId>, r: RequestId)
    requires WellFormed(s) && Legal(admitted, s, run)
    decreases |run|
  {
    run == [] ||
    (Working(admitted, s, run[0], dead) && run[0] != Abort(r) &&
     (WellFormedStep(admitted, s, run[0]); WorkingRun(admitted, Apply(admitted, s, run[0]), run[1..], dead, r)))
  }

  /** Failed transactions of all requests during the run. */
  ghost function Failures(admitted: Admitted, s: System, run: seq<Action>): nat
    requires WellFormed(s) && Legal(admitted, s, run)
    decreases |run|
  {
    if run == [] then 0
    else
      WellFormedStep(admitted, s, run[0]);
      (if IsFailure(admitted, s, run[0]) then 1 else 0) + Failures(admitted, Apply(admitted, s, run[0]), run[1..])
  }

  /** The request has not given up for lack of a connection. */
  ghost predicate NotAborted(q: Request) {
    q.phase.GaveUp? ==> |q.failed| > Budget(q.configured)
  }

  /** One action adds to a request's failures only by failing its transaction. */
  lemma RequestFailures(admitted: Admitted, s: System, a: Action, r: RequestId)
    requires WellFormed(s) && Enabled(admitted, s, a) && r in s.requests && RequestInv(s, r)
    requires a != Abort(r) && NotAborted(s.requests[r])
    ensures var t := Apply(admitted, s, a);
            && r in t.requests && NotAborted(t.requests[r]) && t.requests[r].configured == s.requests[r].configured
            && |t.requests[r].failed| <= |s.requests[r].failed| + (if IsFailure(admitted, s, a) then 1 else 0)
  {
    if a.Write? || a.ReadHeader? || a.ReadBody? {
      IoOutcome(admitted, s, a);
      OutcomeFailures(s, Apply(admitted, s, a), a.r, r);
    }
  }

  lemma OutcomeFailures(s: System, t: System, r: RequestId, r': RequestId)
    requires (Progresses(s, t, r) || Fails(s, t, r) || Succeeds(s, t, r)) && r' in s.requests
    requires Budgeted(s.requests[r']) && NotAborted(s.requests[r'])
    ensures r' in t.requests && NotAborted(t.requests[r']) && t.requests[r'].configured == s.requests[r'].configured
    ensures |t.requests[r'].failed| <= |s.requests[r'].failed| + (if Fails(s, t, r) then 1 else 0)
  {
  }

  lemma {:induction false} FailuresUseUpDead(admitted: Admitted, s: System, run: seq<Action>, dead: set<WireId>, r: RequestId)
    requires Inv(s) && Legal(admitted, s, run) && dead <= s.wires.Keys && WorkingRun(admitted, s, run, dead, r)
    requires r in s.requests && NotAborted(s.requests[r])
    ensures var t := After(admitted, s, run);
            && |UsableAmong(t, dead)| + Failures(admitted, s, run) <= |UsableAmong(s, dead)|
            && r in t.requests && NotAborted(t.requests[r]) && t.requests[r].configured == s.requests[r].configured
            && |t.requests[r].failed| <= |s.requests[r].failed| + Failures(admitted, s, run)
    decreases |run|
  {
    if run != [] {
      var a := run[0];
      var t := Apply(admitted, s, a);
      InvStep(admitted, s, a);
      assert RequestInv(s, r);
      RequestFailures(admitted, s, a, r);
      UsableStep(admitted, s, a, dead);
      WiresGrow(admitted, s, a);
      FailuresUseUpDead(admitted, t, run[1..], dead, r);
    }
  }

  lemma WiresGrow(admitted: Admitted, s: System, a: Action)
    requires WellFormed(s) && Enabled(admitted, s, a)
    ensures s.wires.Keys <= Apply(admitted, s, a).wires.Keys
  {
  }
}
