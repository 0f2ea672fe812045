/** DNS requests over shared connection pools (internal/protocol/dns_proxy.go over
    internal/network/persistent.go): every interleaving of requests that lease connections, write
    a request, read a response in two reads, retry, and settle their leases in goroutines of their
    own, together with upstream servers that answer what arrives. */
module ProxyProtocol {
  import opened Wrappers
  import opened Framing
  import Pools = PoolProtocol

  type RequestId = nat

  /** A byte on its way to a server, and the request that wrote it. */
  datatype Tagged = Tagged(b: byte, owner: RequestId)

  /** One upstream connection: bytes the server has yet to consume, bytes the proxy has yet to read. */
  datatype Wire = Wire(inbox: seq<Tagged>, outbox: seq<byte>)

  /** A message the server consumed and the bytes it sent in return. */
  datatype Reply = Reply(question: seq<Tagged>, bytes: seq<byte>)

  /** A lease of some pool, named after the Conn call that took it; calls have names of their own. */
  datatype Lease = Lease(pool: nat, call: Pools.CallId)

  datatype WireId = WireId(pool: nat, conn: Pools.ConnId)

  datatype Phase =
    | Waiting                                      // about to ask for a connection
    | Connecting(lease: Lease)                     // inside a pool's Conn
    | Holding(lease: Lease)                        // nothing written yet
    | Wrote(lease: Lease)
    | GotHeader(lease: Lease, header: seq<byte>)
    | Answered(response: seq<byte>)
    | GaveUp

  /** A request: the bytes it writes upstream, the configured and the remaining retries, the leases
      whose transaction failed, and the lease whose transaction succeeded. */
  datatype Request = Request(
    bytes: seq<byte>,
    configured: int,
    retries: nat,
    phase: Phase,
    failed: seq<Lease>,
    won: Option<Lease>)

  datatype System = System(
    pools: seq<Pools.Pool>,
    wires: map<WireId, Wire>,
    requests: map<RequestId, Request>,
    closing: set<Lease>,      // Close scheduled
    destroying: set<Lease>,   // Destroy scheduled
    returned: set<Lease>,     // Close done
    destroyed: set<Lease>,    // Destroy done
    owner: map<Lease, RequestId>,
    log: set<Reply>)

  datatype Action =
    | Arrive(r: RequestId, bytes: seq<byte>, configured: int)
    | Background(i: nat, step: Pools.Action)
    | Acquire(r: RequestId, i: nat, call: Pools.CallId, entry: Option<Pools.Pooled>)
    | Connect(r: RequestId, step: Pools.Action)
    | Abort(r: RequestId)
    | Write(r: RequestId, n: nat, ok: bool)
    | ReadHeader(r: RequestId, n: nat, ok: bool)
    | ReadBody(r: RequestId, n: nat, ok: bool)
    | Serve(wire: WireId, body: seq<byte>)
    | Settle(lease: Lease)

  /** The retry budget: a configured value that is not positive means 16. */
  function Budget(configured: int): nat {
    if configured <= 0 then 16 else configured
  }

  function Tag(q: seq<byte>, r: RequestId): (w: seq<Tagged>)
    ensures |w| == |q| && forall i :: 0 <= i < |q| ==> w[i] == Tagged(q[i], r)
  {
    seq(|q|, i requires 0 <= i < |q| => Tagged(q[i], r))
  }

  function Erase(w: seq<Tagged>): (q: seq<byte>)
    ensures |q| == |w| && forall i :: 0 <= i < |w| ==> q[i] == w[i].b
  {
    seq(|w|, i requires 0 <= i < |w| => w[i].b)
  }

  /** The lease a request is using for its transaction. */
  predicate InTransaction(p: Phase) {
    p.Holding? || p.Wrote? || p.GotHeader?
  }

  /** Leases lie within the pools, and leased connections have a wire. */
  ghost predicate WellFormed(s: System) {
    && (forall i: nat, c: nat :: WireId(i, c) in s.wires <==> i < |s.pools| && c < s.pools[i].dialed)
    && (forall i :: 0 <= i < |s.pools| ==> Pools.Owned(s.pools[i]))
    && (forall r :: r in s.requests ==> RequestBound(s, s.requests[r]))
    && (forall l :: l in s.closing || l in s.destroying ==> IsLease(s, l))
    && Exclusive(s)
  }

  /** Every lease and every Conn call in progress has at most one user. */
  ghost predicate Exclusive(s: System) {
    && (forall r1, r2 :: r1 in s.requests && r2 in s.requests && r1 != r2 ==>
          NotShared(s.requests[r1].phase, s.requests[r2].phase))
    && (forall r :: r in s.requests && InTransaction(s.requests[r].phase) ==>
          s.requests[r].phase.lease !in s.closing && s.requests[r].phase.lease !in s.destroying)
    && s.closing !! s.destroying
  }

  ghost predicate NotShared(p: Phase, q: Phase) {
    && (InTransaction(p) && InTransaction(q) ==> p.lease != q.lease)
    && (p.Connecting? && q.Connecting? ==> p.lease != q.lease)
  }

  ghost predicate IsLease(s: System, l: Lease) {
    l.pool < |s.pools| && l.call in s.pools[l.pool].leases
  }

  ghost predicate RequestBound(s: System, q: Request) {
    && (q.phase.Connecting? ==> q.phase.lease.pool < |s.pools| && q.phase.lease.call in s.pools[q.phase.lease.pool].calls)
    && (InTransaction(q.phase) ==> IsLease(s, q.phase.lease))
  }

  function WireOf(s: System, l: Lease): WireId
    requires IsLease(s, l)
  {
    WireId(l.pool, s.pools[l.pool].leases[l.call])
  }

  lemma LeaseHasWire(s: System, l: Lease)
    requires WellFormed(s) && IsLease(s, l)
    ensures WireOf(s, l) in s.wires
  {
    var p, c := s.pools[l.pool], s.pools[l.pool].leases[l.call];
    assert Pools.At(p, c, Pools.Leased(l.call));
  }

  /** A step of pool i; a connection it dials starts with an empty wire. */
  ghost function PoolStep(s: System, i: nat, a: Pools.Action): System
    requires i < |s.pools| && Pools.Enabled(s.pools[i], a)
  {
    var p, q := s.pools[i], Pools.Apply(s.pools[i], a);
    s.(pools := s.pools[i := q],
       wires := if q.dialed > p.dialed then s.wires[WireId(i, p.dialed) := Wire([], [])] else s.wires)
  }

  ghost predicate PoolEnabled(s: System, i: nat, a: Pools.Action) {
    i < |s.pools| && Pools.Enabled(s.pools[i], a)
  }

  /** A transaction fails: its lease is destroyed, and the request retries while it may. */
  function Fail(s: System, r: RequestId): System
    requires r in s.requests && InTransaction(s.requests[r].phase)
  {
    var q := s.requests[r];
    var l := q.phase.lease;
    var next := if q.retries > 0 then q.(retries := q.retries - 1, phase := Waiting) else q.(phase := GaveUp);
    s.(requests := s.requests[r := next.(failed := q.failed + [l])], destroying := s.destroying + {l})
  }

  /** Admitted requests, as the bytes written upstream for them. */
  type Admitted = iset<seq<byte>>

  ghost predicate Enabled(admitted: Admitted, s: System, a: Action)
    requires WellFormed(s)
  {
    match a
    case Arrive(r, bytes, _) => r !in s.requests && bytes in admitted
    case Background(i, step) => PoolEnabled(s, i, step) && (step.Tick? || step.FillDial? || step.FillPush?)
    case Acquire(r, i, call, entry) =>
      && r in s.requests && s.requests[r].phase.Waiting? && Lease(i, call) !in s.owner
      && PoolEnabled(s, i, Pools.Pop(call, entry))
    case Connect(r, step) =>
      && r in s.requests && s.requests[r].phase.Connecting?
      && (step.Reuse? || step.Discard? || step.Dial?) && step.call == s.requests[r].phase.lease.call
      && PoolEnabled(s, s.requests[r].phase.lease.pool, step)
    case Abort(r) => r in s.requests && s.requests[r].phase.Waiting?
    case Write(r, n, _) => r in s.requests && s.requests[r].phase.Holding? && n <= |s.requests[r].bytes|
    case ReadHeader(r, n, _) =>
      && r in s.requests && s.requests[r].phase.Wrote? && n <= 2
      && RequestBound(s, s.requests[r]) && WireOf(s, s.requests[r].phase.lease) in s.wires
      && n <= |s.wires[WireOf(s, s.requests[r].phase.lease)].outbox|
    case ReadBody(r, n, _) =>
      && r in s.requests && s.requests[r].phase.GotHeader? && |s.requests[r].phase.header| == 2
      && n <= Uint16(s.requests[r].phase.header)
      && RequestBound(s, s.requests[r]) && WireOf(s, s.requests[r].phase.lease) in s.wires
      && n <= |s.wires[WireOf(s, s.requests[r].phase.lease)].outbox|
    case Serve(w, body) => w in s.wires && HasFrame(Erase(s.wires[w].inbox)) && |body| < 0x1_0000
    case Settle(l) => l in s.closing || l in s.destroying
  }

  ghost function Apply(admitted: Admitted, s: System, a: Action): System
    requires WellFormed(s) && Enabled(admitted, s, a)
  {
    match a
    case Arrive(r, bytes, configured) =>
      s.(requests := s.requests[r := Request(bytes, configured, Budget(configured), Waiting, [], None)])
    case Background(i, step) => PoolStep(s, i, step)
    case Acquire(r, i, call, entry) =>
      PoolStep(s, i, Pools.Pop(call, entry))
        .(requests := s.requests[r := s.requests[r].(phase := Connecting(Lease(i, call)))],
          owner := s.owner[Lease(i, call) := r])
    case Connect(r, step) =>
      var l := s.requests[r].phase.lease;
      var next := if step.Reuse? || (step.Dial? && step.ok) then Holding(l)
                  else if step.Discard? then Connecting(l) else Waiting;
      PoolStep(s, l.pool, step).(requests := s.requests[r := s.requests[r].(phase := next)])
    case Abort(r) => s.(requests := s.requests[r := s.requests[r].(phase := GaveUp)])
    case Write(r, n, ok) =>
      var q := s.requests[r];
      assert RequestBound(s, q);
      LeaseHasWire(s, q.phase.lease);
      var w := WireOf(s, q.phase.lease);
      var t := s.(wires := s.wires[w := Wire(s.wires[w].inbox + Tag(q.bytes[..n], r), s.wires[w].outbox)]);
      if ok && n == |q.bytes| then t.(requests := t.requests[r := q.(phase := Wrote(q.phase.lease))]) else Fail(t, r)
    case ReadHeader(r, n, ok) =>
      var q := s.requests[r];
      var w := WireOf(s, q.phase.lease);
      var t := s.(wires := s.wires[w := Wire(s.wires[w].inbox, s.wires[w].outbox[n..])]);
      if ok && n == 2 then
        t.(requests := t.requests[r := q.(phase := GotHeader(q.phase.lease, s.wires[w].outbox[..n]))])
      else Fail(t, r)
    case ReadBody(r, n, ok) =>
      var q := s.requests[r];
      var w := WireOf(s, q.phase.lease);
      var t := s.(wires := s.wires[w := Wire(s.wires[w].inbox, s.wires[w].outbox[n..])]);
      if ok && n == Uint16(q.phase.header) then
        t.(requests := t.requests[r := q.(phase := Answered(q.phase.header + s.wires[w].outbox[..n]),
                                          won := Some(q.phase.lease))],
           closing := t.closing + {q.phase.lease})
      else Fail(t, r)
    case Serve(w, body) =>
      var inbox := s.wires[w].inbox;
      var size := FrameSize(Erase(inbox));
      s.(wires := s.wires[w := Wire(inbox[size..], s.wires[w].outbox + Encode(body))],
         log := s.log + {Reply(inbox[..size], Encode(body))})
    case Settle(l) =>
      if l in s.closing then
        PoolStep(s, l.pool, Pools.Return(l.call)).(closing := s.closing - {l}, returned := s.returned + {l})
      else
        PoolStep(s, l.pool, Pools.Destroy(l.call)).(destroying := s.destroying - {l}, destroyed := s.destroyed + {l})
  }

  /** A system that has just started: every pool is new, nothing has arrived. */
  ghost predicate Initial(s: System) {
    && (forall i :: 0 <= i < |s.pools| ==>
          s.pools[i] == Pools.NewPool(s.pools[i].capacity, s.pools[i].staleTimeout, s.pools[i].now))
    && s.wires == map[] && s.requests == map[] && s.closing == {} && s.destroying == {}
    && s.returned == {} && s.destroyed == {} && s.owner == map[] && s.log == {}
  }

  // ---------- leases stay bound to their users ----------

  /** The Conn calls in progress after a pool step. */
  function CallsAfter(p: Pools.Pool, a: Pools.Action): set<Pools.CallId> {
    match a
    case Pop(k, _) => p.calls.Keys + {k}
    case Reuse(k) => p.calls.Keys - {k}
    case Dial(k, _) => p.calls.Keys - {k}
    case _ => p.calls.Keys
  }

  /** The leases after a pool step. */
  function LeasesAfter(p: Pools.Pool, a: Pools.Action): set<Pools.CallId> {
    match a
    case Reuse(k) => p.leases.Keys + {k}
    case Dial(k, ok) => p.leases.Keys + (if ok then {k} else {})
    case Return(k) => p.leases.Keys - {k}
    case Destroy(k) => p.leases.Keys - {k}
    case _ => p.leases.Keys
  }

  lemma PoolCalls(p: Pools.Pool, a: Pools.Action)
    requires Pools.Owned(p) && Pools.Enabled(p, a)
    ensures Pools.Apply(p, a).calls.Keys == CallsAfter(p, a)
    ensures p.dialed <= Pools.Apply(p, a).dialed <= p.dialed + 1
  {
  }

  lemma PoolLeases(p: Pools.Pool, a: Pools.Action)
    requires Pools.Owned(p) && Pools.Enabled(p, a)
    ensures Pools.Apply(p, a).leases.Keys == LeasesAfter(p, a)
    ensures forall k :: k in p.leases && k in Pools.Apply(p, a).leases ==> Pools.Apply(p, a).leases[k] == p.leases[k]
  {
  }

  lemma PoolStepWires(s: System, i: nat, a: Pools.Action)
    requires WellFormed(s) && PoolEnabled(s, i, a)
    ensures var t := PoolStep(s, i, a);
            && (forall j: nat, c: nat :: WireId(j, c) in t.wires <==> j < |t.pools| && c < t.pools[j].dialed)
            && (forall j :: 0 <= j < |t.pools| ==> Pools.Owned(t.pools[j]))
            && (forall w :: w in s.wires ==> w in t.wires && t.wires[w] == s.wires[w])
            && (forall w :: w in t.wires && w !in s.wires ==> t.wires[w] == Wire([], []))
  {
    Pools.OwnedStep(s.pools[i], a);
    PoolCalls(s.pools[i], a);
    assert WireId(i, s.pools[i].dialed) !in s.wires;
  }

  /** Leases of the system after a step of pool i. */
  lemma LeaseKept(s: System, i: nat, a: Pools.Action, l: Lease)
    requires WellFormed(s) && PoolEnabled(s, i, a) && IsLease(s, l)
    requires !((a.Return? || a.Destroy?) && l == Lease(i, a.call))
    ensures IsLease(PoolStep(s, i, a), l) && WireOf(PoolStep(s, i, a), l) == WireOf(s, l)
  {
    PoolLeases(s.pools[i], a);
  }

  lemma BoundKept(s: System, i: nat, a: Pools.Action, q: Request)
    requires WellFormed(s) && PoolEnabled(s, i, a) && RequestBound(s, q)
    requires (a.Reuse? || a.Dial?) && q.phase.Connecting? ==> q.phase.lease != Lease(i, a.call)
    requires (a.Return? || a.Destroy?) && InTransaction(q.phase) ==> q.phase.lease != Lease(i, a.call)
    ensures RequestBound(PoolStep(s, i, a), q)
  {
    PoolCalls(s.pools[i], a);
    PoolLeases(s.pools[i], a);
  }

  lemma BackgroundStep(admitted: Admitted, s: System, a: Action)
    requires WellFormed(s) && Enabled(admitted, s, a) && a.Background?
    ensures WellFormed(Apply(admitted, s, a))
  {
    var t := Apply(admitted, s, a);
    PoolStepWires(s, a.i, a.step);
    forall r | r in t.requests
      ensures RequestBound(t, t.requests[r])
    {
      BoundKept(s, a.i, a.step, s.requests[r]);
    }
    forall l | l in t.closing || l in t.destroying
      ensures IsLease(t, l)
    {
      LeaseKept(s, a.i, a.step, l);
    }
  }

  lemma SettleStep(admitted: Admitted, s: System, a: Action)
    requires WellFormed(s) && Enabled(admitted, s, a) && a.Settle?
    ensures WellFormed(Apply(admitted, s, a))
  {
    var t := Apply(admitted, s, a);
    var step := if a.lease in s.closing then Pools.Return(a.lease.call) else Pools.Destroy(a.lease.call);
    PoolStepWires(s, a.lease.pool, step);
    forall r | r in t.requests
      ensures RequestBound(t, t.requests[r])
    {
      BoundKept(s, a.lease.pool, step, s.requests[r]);
    }
    forall l | l in t.closing || l in t.destroying
      ensures IsLease(t, l)
    {
      LeaseKept(s, a.lease.pool, step, l);
    }
  }

  lemma AcquireStep(admitted: Admitted, s: System, a: Action)
    requires WellFormed(s) && Enabled(admitted, s, a) && a.Acquire?
    ensures WellFormed(Apply(admitted, s, a))
  {
    var t := Apply(admitted, s, a);
    var step := Pools.Pop(a.call, a.entry);
    PoolStepWires(s, a.i, step);
    PoolCalls(s.pools[a.i], step);
    forall r | r in t.requests
      ensures RequestBound(t, t.requests[r])
    {
      if r != a.r {
        BoundKept(s, a.i, step, s.requests[r]);
      }
    }
    forall l | l in t.closing || l in t.destroying
      ensures IsLease(t, l)
    {
      LeaseKept(s, a.i, step, l);
    }
    assert forall r :: r in s.requests ==> RequestBound(s, s.requests[r]);
  }

  lemma ConnectExclusive(admitted: Admitted, s: System, a: Action)
    requires WellFormed(s) && Enabled(admitted, s, a) && a.Connect?
    ensures Exclusive(Apply(admitted, s, a))
  {
    var t := Apply(admitted, s, a);
    var l := s.requests[a.r].phase.lease;
    assert RequestBound(s, s.requests[a.r]);
    assert l.call in s.pools[l.pool].calls && l.call !in s.pools[l.pool].leases && !IsLease(s, l);
    forall r1, r2 | r1 in t.requests && r2 in t.requests && r1 != r2
      ensures NotShared(t.requests[r1].phase, t.requests[r2].phase)
    {
      assert NotShared(s.requests[r1].phase, s.requests[r2].phase);
      assert RequestBound(s, s.requests[r1]) && RequestBound(s, s.requests[r2]);
    }
  }

  lemma ConnectStep(admitted: Admitted, s: System, a: Action)
    requires WellFormed(s) && Enabled(admitted, s, a) && a.Connect?
    ensures WellFormed(Apply(admitted, s, a))
  {
    var t := Apply(admitted, s, a);
    var l := s.requests[a.r].phase.lease;
    ConnectExclusive(admitted, s, a);
    PoolStepWires(s, l.pool, a.step);
    PoolCalls(s.pools[l.pool], a.step);
    PoolLeases(s.pools[l.pool], a.step);
    forall r | r in t.requests
      ensures RequestBound(t, t.requests[r])
    {
      if r != a.r {
        assert NotShared(s.requests[r].phase, s.requests[a.r].phase);
        BoundKept(s, l.pool, a.step, s.requests[r]);
      }
    }
    forall l' | l' in t.closing || l' in t.destroying
      ensures IsLease(t, l')
    {
      LeaseKept(s, l.pool, a.step, l');
    }
  }

  // ---------- what reads and writes amount to ----------

  /** Of the wires, at most the one of r's lease changes. */
  ghost predicate OneWire(s: System, t: System, r: RequestId) {
    && r in s.requests && InTransaction(s.requests[r].phase) && IsLease(s, s.requests[r].phase.lease)
    && WireOf(s, s.requests[r].phase.lease) in s.wires && t.wires.Keys == s.wires.Keys
    && (forall w :: w in s.wires && w != WireOf(s, s.requests[r].phase.lease) ==> t.wires[w] == s.wires[w])
  }

  /** The transaction of r goes on. */
  ghost predicate Progresses(s: System, t: System, r: RequestId) {
    && OneWire(s, t, r) && r in t.requests
    && InTransaction(t.requests[r].phase) && t.requests[r].phase.lease == s.requests[r].phase.lease
    && t == s.(wires := t.wires, requests := s.requests[r := s.requests[r].(phase := t.requests[r].phase)])
  }

  /** The transaction of r fails. */
  ghost predicate Fails(s: System, t: System, r: RequestId) {
    OneWire(s, t, r) && t == Fail(s.(wires := t.wires), r)
  }

  /** The transaction of r succeeds. */
  ghost predicate Succeeds(s: System, t: System, r: RequestId) {
    && OneWire(s, t, r) && r in t.requests && t.requests[r].phase.Answered?
    && var q := s.requests[r];
       t == s.(wires := t.wires, closing := s.closing + {q.phase.lease},
               requests := s.requests[r := q.(phase := t.requests[r].phase, won := Some(q.phase.lease))])
  }

  /** A write gives the server the bytes it moved, and the transaction goes on exactly if it moved
      all of the request and reported no error. */
  lemma WriteOutcome(admitted: Admitted, s: System, a: Action)
    requires WellFormed(s) && Enabled(admitted, s, a) && a.Write?
    ensures var t := Apply(admitted, s, a);
            && OneWire(s, t, a.r)
            && (var q, w := s.requests[a.r], WireOf(s, s.requests[a.r].phase.lease);
                && t.wires[w] == Wire(s.wires[w].inbox + Tag(q.bytes[..a.n], a.r), s.wires[w].outbox)
                && if a.ok && a.n == |q.bytes| then Progresses(s, t, a.r) && t.requests[a.r].phase == Wrote(q.phase.lease)
                   else Fails(s, t, a.r))
  {
    assert RequestBound(s, s.requests[a.r]);
    LeaseHasWire(s, s.requests[a.r].phase.lease);
    var t := Apply(admitted, s, a);
    assert OneWire(s, t, a.r);
  }

  /** The read of a header takes the bytes it moved off the connection, and the transaction goes on
      exactly if these are two and it reported no error. */
  lemma HeaderOutcome(admitted: Admitted, s: System, a: Action)
    requires WellFormed(s) && Enabled(admitted, s, a) && a.ReadHeader?
    ensures var t := Apply(admitted, s, a);
            && OneWire(s, t, a.r)
            && (var l, w := s.requests[a.r].phase.lease, WireOf(s, s.requests[a.r].phase.lease);
                && t.wires[w] == Wire(s.wires[w].inbox, s.wires[w].outbox[a.n..])
                && if a.ok && a.n == 2
                   then Progresses(s, t, a.r) && t.requests[a.r].phase == GotHeader(l, s.wires[w].outbox[..2])
                   else Fails(s, t, a.r))
  {
    var t := Apply(admitted, s, a);
    assert OneWire(s, t, a.r);
  }

  /** The read of a body takes the bytes it moved off the connection, and the request is answered
      with the header and these bytes exactly if they are as many as the header says and the read
      reported no error. */
  lemma BodyOutcome(admitted: Admitted, s: System, a: Action)
    requires WellFormed(s) && Enabled(admitted, s, a) && a.ReadBody?
    ensures var t := Apply(admitted, s, a);
            && OneWire(s, t, a.r)
            && (var header, w := s.requests[a.r].phase.header, WireOf(s, s.requests[a.r].phase.lease);
                && t.wires[w] == Wire(s.wires[w].inbox, s.wires[w].outbox[a.n..])
                && if a.ok && a.n == header[0] as int * 256 + header[1] as int
                   then Succeeds(s, t, a.r) && t.requests[a.r].phase == Answered(header + s.wires[w].outbox[..a.n])
                   else Fails(s, t, a.r))
  {
    var t := Apply(admitted, s, a);
    assert OneWire(s, t, a.r);
  }

  /** How a read or write by a request turns out. */
  lemma IoOutcome(admitted: Admitted, s: System, a: Action)
    requires WellFormed(s) && Enabled(admitted, s, a) && (a.Write? || a.ReadHeader? || a.ReadBody?)
    ensures var t := Apply(admitted, s, a); Progresses(s, t, a.r) || Fails(s, t, a.r) || Succeeds(s, t, a.r)
  {
    if a.Write? {
      WriteOutcome(admitted, s, a);
    } else if a.ReadHeader? {
      HeaderOutcome(admitted, s, a);
    } else {
      BodyOutcome(admitted, s, a);
    }
  }

  /** One request moves on by itself: it keeps its lease, has none, or hands it over to be settled. */
  ghost predicate MovesOn(s: System, t: System, r: RequestId) {
    && t.pools == s.pools && t.wires.Keys == s.wires.Keys
    && r in t.requests && t.requests == s.requests[r := t.requests[r]]
    && !t.requests[r].phase.Connecting?
    && (InTransaction(t.requests[r].phase) ==>
          && r in s.requests && InTransaction(s.requests[r].phase)
          && t.requests[r].phase.lease == s.requests[r].phase.lease
          && t.closing == s.closing && t.destroying == s.destroying)
    && ((t.closing == s.closing && t.destroying == s.destroying) ||
        (r in s.requests && InTransaction(s.requests[r].phase) &&
         var l := s.requests[r].phase.lease;
         || (t.closing == s.closing + {l} && t.destroying == s.destroying)
         || (t.closing == s.closing && t.destroying == s.destroying + {l})))
  }

  lemma MovesOnKeepsBinding(s: System, t: System, r: RequestId)
    requires WellFormed(s) && MovesOn(s, t, r)
    ensures WellFormed(t)
  {
    forall r' | r' in t.requests
      ensures RequestBound(t, t.requests[r'])
    {
      if r' in s.requests {
        assert RequestBound(s, s.requests[r']);
      }
    }
    forall r1, r2 | r1 in t.requests && r2 in t.requests && r1 != r2
      ensures NotShared(t.requests[r1].phase, t.requests[r2].phase)
    {
      if r1 in s.requests && r2 in s.requests {
        assert NotShared(s.requests[r1].phase, s.requests[r2].phase);
      }
    }
    forall r' | r' in t.requests && InTransaction(t.requests[r'].phase)
      ensures t.requests[r'].phase.lease !in t.closing && t.requests[r'].phase.lease !in t.destroying
    {
      if r' != r && r in s.requests {
        assert NotShared(s.requests[r].phase, s.requests[r'].phase);
      }
    }
  }

  lemma OutcomeMovesOn(s: System, t: System, r: RequestId)
    requires Progresses(s, t, r) || Fails(s, t, r) || Succeeds(s, t, r)
    ensures MovesOn(s, t, r)
  {
    assert t.requests == s.requests[r := t.requests[r]];
  }

  lemma ArrivalMovesOn(admitted: Admitted, s: System, a: Action)
    requires WellFormed(s) && Enabled(admitted, s, a) && (a.Arrive? || a.Abort?)
    ensures MovesOn(s, Apply(admitted, s, a), a.r)
  {
  }

  lemma ServeStep(admitted: Admitted, s: System, a: Action)
    requires WellFormed(s) && Enabled(admitted, s, a) && a.Serve?
    ensures WellFormed(Apply(admitted, s, a))
  {
    assert Apply(admitted, s, a).wires.Keys == s.wires.Keys;
    assert forall r :: r in s.requests ==> RequestBound(s, s.requests[r]);
  }

  lemma WellFormedStep(admitted: Admitted, s: System, a: Action)
    requires WellFormed(s) && Enabled(admitted, s, a)
    ensures WellFormed(Apply(admitted, s, a))
  {
    match a
    case Background(_, _) => BackgroundStep(admitted, s, a);
    case Acquire(_, _, _, _) => AcquireStep(admitted, s, a);
    case Connect(_, _) => ConnectStep(admitted, s, a);
    case Settle(_) => SettleStep(admitted, s, a);
    case Serve(_, _) => ServeStep(admitted, s, a);
    case Arrive(r, _, _) =>
      ArrivalMovesOn(admitted, s, a);
      MovesOnKeepsBinding(s, Apply(admitted, s, a), r);
    case Abort(r) =>
      ArrivalMovesOn(admitted, s, a);
      MovesOnKeepsBinding(s, Apply(admitted, s, a), r);
    case _ =>
      IoOutcome(admitted, s, a);
      OutcomeMovesOn(s, Apply(admitted, s, a), a.r);
      MovesOnKeepsBinding(s, Apply(admitted, s, a), a.r);
  }

  ghost predicate Legal(admitted: Admitted, s: System, run: seq<Action>)
    requires WellFormed(s)
    decreases |run|
  {
    run == [] ||
    (Enabled(admitted, s, run[0]) &&
     (WellFormedStep(admitted, s, run[0]); Legal(admitted, Apply(admitted, s, run[0]), run[1..])))
  }

  ghost function After(admitted: Admitted, s: System, run: seq<Action>): (t: System)
    requires WellFormed(s) && Legal(admitted, s, run)
    ensures WellFormed(t)
    decreases |run|
  {
    if run == [] then s
    else (WellFormedStep(admitted, s, run[0]); After(admitted, Apply(admitted, s, run[0]), run[1..]))
  }
}
