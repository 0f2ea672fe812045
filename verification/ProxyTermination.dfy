/** Every request comes to an end, whatever the other requests, the pools and the servers do: how
    many actions of its own it can take. */
module ProxyTermination {
  import Pools = PoolProtocol
  import opened ProxyProtocol
  import opened ProxyRetries

  predicate Finished(q: Request) {
    q.phase.Answered? || q.phase.GaveUp?
  }

  /** An action of the goroutine that serves r. */
  predicate IsOwn(a: Action, r: RequestId) {
    (a.Acquire? || a.Connect? || a.Abort? || a.Write? || a.ReadHeader? || a.ReadBody?) && a.r == r
  }

  /** A dial that does not yield a connection, after which the balancer may try another client. */
  predicate IsFailedDial(a: Action, r: RequestId) {
    a.Connect? && a.r == r && a.step.Dial? && !a.step.ok
  }

  /** At most how many actions of its own r is away from the end of this attempt. */
  function Rank(s: System, phase: Phase): nat {
    match phase
    case Waiting => 6
    case Connecting(l) => if CallChecks(s, l) then 5 else 4
    case Holding(_) => 3
    case Wrote(_) => 2
    case GotHeader(_, _) => 1
    case _ => 0
  }

  /** The Conn call still has to look at the connection it popped. */
  predicate CallChecks(s: System, l: Lease) {
    l.pool < |s.pools| && l.call in s.pools[l.pool].calls && s.pools[l.pool].calls[l.call].Checking?
  }

  /** Failed transactions after which the request went on. */
  function Tries(q: Request): nat {
    if |q.failed| > Budget(q.configured) then Budget(q.configured) else |q.failed|
  }

  /** What r has used up: six actions for each failed transaction, less what this attempt may
      still take. */
  function Bill(s: System, r: RequestId): int
    requires r in s.requests
  {
    6 * Tries(s.requests[r]) - Rank(s, s.requests[r].phase)
  }

  /** An action of r adds to its bill, except for a dial that fails, and no other action changes it. */
  ghost predicate Billed(s: System, t: System, r: RequestId, a: Action) {
    && r in s.requests && r in t.requests && t.requests[r].configured == s.requests[r].configured
    && if IsFailedDial(a, r) then Bill(t, r) == Bill(s, r) - 2
       else if IsOwn(a, r) then Bill(t, r) > Bill(s, r)
       else Bill(t, r) == Bill(s, r)
  }

  // ---------- every action is billed ----------

  lemma FailureBilled(s: System, t: System, r: RequestId, a: Action)
    requires r in s.requests && Budgeted(s.requests[r])
    requires (a.Write? || a.ReadHeader? || a.ReadBody?) && Fails(s, t, a.r)
    ensures Billed(s, t, r, a)
  {
  }

  lemma SuccessBilled(s: System, t: System, r: RequestId, a: Action)
    requires r in s.requests && a.ReadBody? && Succeeds(s, t, a.r)
    ensures Billed(s, t, r, a)
  {
  }

  /** The transaction of a.r goes on, one phase further. */
  lemma ProgressBilled(s: System, t: System, r: RequestId, a: Action)
    requires r in s.requests && (a.Write? || a.ReadHeader?) && Progresses(s, t, a.r)
    requires Rank(t, t.requests[a.r].phase) < Rank(s, s.requests[a.r].phase)
    ensures Billed(s, t, r, a)
  {
  }

  lemma AfterWrite(admitted: Admitted, s: System, a: Action)
    requires WellFormed(s) && Enabled(admitted, s, a) && a.Write?
    ensures var t := Apply(admitted, s, a);
            || Fails(s, t, a.r)
            || (Progresses(s, t, a.r) && Rank(t, t.requests[a.r].phase) < Rank(s, s.requests[a.r].phase))
  {
    WriteOutcome(admitted, s, a);
  }

  lemma AfterHeader(admitted: Admitted, s: System, a: Action)
    requires WellFormed(s) && Enabled(admitted, s, a) && a.ReadHeader?
    ensures var t := Apply(admitted, s, a);
            || Fails(s, t, a.r)
            || (Progresses(s, t, a.r) && Rank(t, t.requests[a.r].phase) < Rank(s, s.requests[a.r].phase))
  {
    HeaderOutcome(admitted, s, a);
  }

  lemma IoBilled(admitted: Admitted, s: System, r: RequestId, a: Action)
    requires WellFormed(s) && r in s.requests && Budgeted(s.requests[r]) && Enabled(admitted, s, a)
    requires a.Write? || a.ReadHeader? || a.ReadBody?
    ensures Billed(s, Apply(admitted, s, a), r, a)
  {
    var t := Apply(admitted, s, a);
    if Fails(s, t, a.r) {
      FailureBilled(s, t, r, a);
    } else if a.ReadBody? {
      BodyOutcome(admitted, s, a);
      SuccessBilled(s, t, r, a);
    } else {
      if a.Write? {
        AfterWrite(admitted, s, a);
      } else {
        AfterHeader(admitted, s, a);
      }
      ProgressBilled(s, t, r, a);
    }
  }

  /** A step of a pool that is not on the call l leaves it as it is. */
  lemma CheckKept(s: System, i: nat, step: Pools.Action, l: Lease)
    requires WellFormed(s) && PoolEnabled(s, i, step)
    requires step.Tick? || step.FillDial? || step.FillPush? || Lease(i, step.call) != l
    ensures CallChecks(PoolStep(s, i, step), l) == CallChecks(s, l)
  {
  }

  lemma BackgroundBilled(admitted: Admitted, s: System, r: RequestId, a: Action)
    requires WellFormed(s) && r in s.requests && Enabled(admitted, s, a) && (a.Background? || a.Settle?)
    ensures Billed(s, Apply(admitted, s, a), r, a)
  {
    var phase := s.requests[r].phase;
    if phase.Connecting? {
      var l := phase.lease;
      assert RequestBound(s, s.requests[r]);
      assert Pools.Owned(s.pools[l.pool]) && !IsLease(s, l);
      if a.Background? {
        CheckKept(s, a.i, a.step, l);
      } else if a.lease in s.closing {
        CheckKept(s, a.lease.pool, Pools.Return(a.lease.call), l);
      } else {
        CheckKept(s, a.lease.pool, Pools.Destroy(a.lease.call), l);
      }
    }
  }

  lemma AcquireBilled(admitted: Admitted, s: System, r: RequestId, a: Action)
    requires WellFormed(s) && r in s.requests && Enabled(admitted, s, a) && a.Acquire?
    ensures Billed(s, Apply(admitted, s, a), r, a)
  {
    var phase := s.requests[r].phase;
    if r != a.r && phase.Connecting? {
      assert RequestBound(s, s.requests[r]);
      CheckKept(s, a.i, Pools.Pop(a.call, a.entry), phase.lease);
    }
  }

  lemma ConnectBilled(admitted: Admitted, s: System, r: RequestId, a: Action)
    requires WellFormed(s) && r in s.requests && Enabled(admitted, s, a) && a.Connect?
    ensures Billed(s, Apply(admitted, s, a), r, a)
  {
    var phase, l := s.requests[r].phase, s.requests[a.r].phase.lease;
    if r != a.r && phase.Connecting? {
      assert NotShared(s.requests[a.r].phase, phase);
      CheckKept(s, l.pool, a.step, phase.lease);
    }
  }

  lemma OtherBilled(admitted: Admitted, s: System, r: RequestId, a: Action)
    requires WellFormed(s) && r in s.requests && Enabled(admitted, s, a) && (a.Arrive? || a.Abort? || a.Serve?)
    ensures Billed(s, Apply(admitted, s, a), r, a)
  {
  }

  lemma BilledStep(admitted: Admitted, s: System, r: RequestId, a: Action)
    requires WellFormed(s) && r in s.requests && Budgeted(s.requests[r]) && Enabled(admitted, s, a)
    ensures Billed(s, Apply(admitted, s, a), r, a)
  {
    match a
    case Background(_, _) => BackgroundBilled(admitted, s, r, a);
    case Settle(_) => BackgroundBilled(admitted, s, r, a);
    case Acquire(_, _, _, _) => AcquireBilled(admitted, s, r, a);
    case Connect(_, _) => ConnectBilled(admitted, s, r, a);
    case Write(_, _, _) => IoBilled(admitted, s, r, a);
    case ReadHeader(_, _, _) => IoBilled(admitted, s, r, a);
    case ReadBody(_, _, _) => IoBilled(admitted, s, r, a);
    case _ => OtherBilled(admitted, s, r, a);
  }

  // ---------- every request ends ----------

  /** How many actions of the run are r's own. */
  function OwnActions(run: seq<Action>, r: RequestId): nat {
    if run == [] then 0 else (if IsOwn(run[0], r) then 1 else 0) + OwnActions(run[1..], r)
  }

  function FailedDials(run: seq<Action>, r: RequestId): nat {
    if run == [] then 0 else (if IsFailedDial(run[0], r) then 1 else 0) + FailedDials(run[1..], r)
  }

  lemma {:induction false} BilledRun(admitted: Admitted, s: System, run: seq<Action>, r: RequestId)
    requires Inv(s) && Legal(admitted, s, run) && r in s.requests
    ensures var t := After(admitted, s, run);
            && r in t.requests && t.requests[r].configured == s.requests[r].configured
            && OwnActions(run, r) <= Bill(t, r) - Bill(s, r) + 3 * FailedDials(run, r)
    decreases |run|
  {
    if run != [] {
      assert RequestInv(s, r);
      BilledStep(admitted, s, r, run[0]);
      InvStep(admitted, s, run[0]);
      BilledRun(admitted, Apply(admitted, s, run[0]), run[1..], r);
    }
  }

  /** How many actions a request takes at most of which f transactions and d dials fail. */
  function ActionLimit(f: nat, d: nat): nat {
    6 * (f + 1) + 3 * d
  }

  /** Termination. Whatever else goes on, a request takes at most six actions of its own for its
      first transaction and for each retry, and three for each dial that fails; as long as it is
      not finished it has taken fewer. */
  lemma RequestEnds(admitted: Admitted, s0: System, before: seq<Action>, run: seq<Action>, r: RequestId)
    requires Initial(s0) && WellFormed(s0) && Legal(admitted, s0, before)
    requires Legal(admitted, After(admitted, s0, before), run) && r in After(admitted, s0, before).requests
    ensures var t := After(admitted, After(admitted, s0, before), run);
            && r in t.requests
            && OwnActions(run, r) <= ActionLimit(Tries(t.requests[r]), FailedDials(run, r))
            && (!Finished(t.requests[r]) ==>
                  OwnActions(run, r) < ActionLimit(Tries(t.requests[r]), FailedDials(run, r)))
            && Tries(t.requests[r]) <= (if t.requests[r].configured > 0 then t.requests[r].configured else 16)
  {
    InvRun(admitted, s0, before);
    EndsFrom(admitted, After(admitted, s0, before), run, r);
  }

  lemma EndsFrom(admitted: Admitted, s: System, run: seq<Action>, r: RequestId)
    requires Inv(s) && Legal(admitted, s, run) && r in s.requests
    ensures var t := After(admitted, s, run);
            && r in t.requests
            && OwnActions(run, r) <= ActionLimit(Tries(t.requests[r]), FailedDials(run, r))
            && (!Finished(t.requests[r]) ==>
                  OwnActions(run, r) < ActionLimit(Tries(t.requests[r]), FailedDials(run, r)))
            && Tries(t.requests[r]) <= Budget(t.requests[r].configured)
  {
    BilledRun(admitted, s, run, r);
    BillFrom(s, r);
    BillUpTo(After(admitted, s, run), r);
  }

  lemma BillFrom(s: System, r: RequestId)
    requires r in s.requests
    ensures Bill(s, r) >= -6
  {
  }

  lemma BillUpTo(t: System, r: RequestId)
    requires r in t.requests
    ensures Bill(t, r) <= 6 * Tries(t.requests[r]) && (!Finished(t.requests[r]) ==> Bill(t, r) < 6 * Tries(t.requests[r]))
    ensures Tries(t.requests[r]) <= Budget(t.requests[r].configured)
  {
  }
}
