/** Whose answers requests get. Reusing connections never gives a request the answer to another
    one, exactly as long as no admitted request leaves bytes behind that a later one could
    complete to a message. */
module ProxyAnswers {
  import opened Framing
  import Pools = PoolProtocol
  import opened ProxyProtocol

  /** If an admitted request holds more than one message, what is left over after the first one
      never becomes a message by appending an admitted request. */
  ghost predicate SelfContained(admitted: Admitted) {
    forall q1, q2 :: q1 in admitted && q2 in admitted && HasFrame(q1) && Rest(q1) != [] ==> !HasFrame(Rest(q1) + q2)
  }

  /** Bytes a server has received from which it will never get a message. */
  ghost predicate DeadEnd(admitted: Admitted, w: seq<byte>) {
    w == [] || (!HasFrame(w) && forall q :: q in admitted ==> !HasFrame(w + q))
  }

  /** Nothing is unread, and the server owes nothing. */
  ghost predicate Clean(admitted: Admitted, wire: Wire) {
    wire.outbox == [] && DeadEnd(admitted, Erase(wire.inbox))
  }

  /** response is, byte for byte, what the server sent for the message request r wrote. */
  ghost predicate OwnAnswer(s: System, r: RequestId, q: seq<byte>, response: seq<byte>) {
    HasFrame(q) && Reply(Tag(FirstFrame(q), r), response) in s.log
  }

  /** Request r has written q and read nothing: the server has yet to answer, or its whole answer
      is there to be read. */
  ghost predicate Asked(admitted: Admitted, s: System, wire: Wire, r: RequestId, q: seq<byte>) {
    || (&& wire.outbox == [] && |wire.inbox| >= |q|
        && wire.inbox[|wire.inbox| - |q|..] == Tag(q, r)
        && DeadEnd(admitted, Erase(wire.inbox[..|wire.inbox| - |q|])))
    || (&& OwnAnswer(s, r, q, wire.outbox) && OneFrame(wire.outbox)
        && wire.inbox == Tag(Rest(q), r))
  }

  /** Request r has read the header of the answer. */
  ghost predicate HalfRead(s: System, wire: Wire, r: RequestId, q: seq<byte>, header: seq<byte>) {
    && |header| == 2
    && OwnAnswer(s, r, q, header + wire.outbox) && OneFrame(header + wire.outbox)
    && wire.inbox == Tag(Rest(q), r)
  }

  ghost predicate RequestOk(admitted: Admitted, s: System, r: RequestId)
    requires WellFormed(s) && r in s.requests
  {
    var q := s.requests[r];
    assert RequestBound(s, q);
    && q.bytes in admitted
    && (InTransaction(q.phase) ==>
          && WireOf(s, q.phase.lease) in s.wires
          && var wire := s.wires[WireOf(s, q.phase.lease)];
             && (q.phase.Holding? ==> Clean(admitted, wire))
             && (q.phase.Wrote? ==> Asked(admitted, s, wire, r, q.bytes))
             && (q.phase.GotHeader? ==> HalfRead(s, wire, r, q.bytes, q.phase.header)))
    && (q.phase.Answered? ==> OwnAnswer(s, r, q.bytes, q.phase.response) && OneFrame(q.phase.response))
  }

  /** Places of a connection that nobody is using. */
  ghost predicate Idle(x: Pools.Place) {
    x.InQueue? || x.InHand? || x.BeingChecked?
  }

  ghost predicate IdleClean(admitted: Admitted, s: System, i: nat, c: Pools.ConnId, x: Pools.Place)
    requires i < |s.pools|
  {
    Pools.At(s.pools[i], c, x) && Idle(x) ==> WireId(i, c) in s.wires && Clean(admitted, s.wires[WireId(i, c)])
  }

  ghost predicate ClosingClean(admitted: Admitted, s: System, l: Lease)
    requires WellFormed(s) && l in s.closing
  {
    assert IsLease(s, l);
    WireOf(s, l) in s.wires && Clean(admitted, s.wires[WireOf(s, l)])
  }

  ghost predicate Inv(admitted: Admitted, s: System) {
    && WellFormed(s)
    && (forall i: nat, c: Pools.ConnId, x: Pools.Place :: i < |s.pools| ==> IdleClean(admitted, s, i, c, x))
    && (forall l :: l in s.closing ==> ClosingClean(admitted, s, l))
    && (forall r :: r in s.requests ==> RequestOk(admitted, s, r))
  }

  // ---------- bytes ----------

  lemma EraseTag(q: seq<byte>, r: RequestId)
    ensures Erase(Tag(q, r)) == q
  {
  }

  lemma EraseConcat(a: seq<Tagged>, b: seq<Tagged>)
    ensures Erase(a + b) == Erase(a) + Erase(b)
  {
  }

  lemma TagSlices(q: seq<byte>, r: RequestId, n: nat)
    requires n <= |q|
    ensures Tag(q, r)[..n] == Tag(q[..n], r) && Tag(q, r)[n..] == Tag(q[n..], r)
  {
  }

  /** A server gets a message out of a dead end and a request only if the dead end was empty. */
  lemma OnlyFromEmpty(admitted: Admitted, w: seq<Tagged>, q: seq<byte>, r: RequestId)
    requires q in admitted && DeadEnd(admitted, Erase(w)) && HasFrame(Erase(w + Tag(q, r)))
    ensures w == []
  {
    EraseConcat(w, Tag(q, r));
    EraseTag(q, r);
    assert |Erase(w)| == |w|;
  }

  /** What an admitted request leaves behind is a dead end. */
  lemma RestIsDeadEnd(admitted: Admitted, q: seq<byte>)
    requires SelfContained(admitted) && q in admitted && HasFrame(q)
    ensures DeadEnd(admitted, Rest(q)) && !HasFrame(Rest(q))
  {
    if Rest(q) != [] && HasFrame(Rest(q)) {
      FrameOfPrefix(Rest(q), q);
      assert false;
    }
  }

  // ---------- steps of the pools ----------

  lemma LeasedWire(s: System, l: Lease)
    requires WellFormed(s) && IsLease(s, l)
    ensures WireOf(s, l) in s.wires
    ensures Pools.At(s.pools[l.pool], WireOf(s, l).conn, Pools.Leased(l.call))
  {
    LeaseHasWire(s, l);
  }

  /** Different leases have different connections, and no leased connection is idle. */
  lemma WiresDiffer(s: System, l: Lease, l': Lease)
    requires WellFormed(s) && IsLease(s, l) && IsLease(s, l') && l != l'
    ensures WireOf(s, l) != WireOf(s, l')
  {
    LeasedWire(s, l);
    LeasedWire(s, l');
  }

  lemma NotIdle(s: System, l: Lease, x: Pools.Place)
    requires WellFormed(s) && IsLease(s, l) && Idle(x)
    ensures !Pools.At(s.pools[l.pool], WireOf(s, l).conn, x)
  {
    LeasedWire(s, l);
  }

  lemma IdleAfterPoolStep(admitted: Admitted, s: System, i: nat, a: Pools.Action, j: nat, c: Pools.ConnId, y: Pools.Place)
    requires Inv(admitted, s) && PoolEnabled(s, i, a) && j < |s.pools|
    requires a.Return? ==>
               && WireId(i, s.pools[i].leases[a.call]) in s.wires
               && Clean(admitted, s.wires[WireId(i, s.pools[i].leases[a.call])])
    ensures IdleClean(admitted, PoolStep(s, i, a), j, c, y)
  {
    var t := PoolStep(s, i, a);
    PoolStepWires(s, i, a);
    if Pools.At(t.pools[j], c, y) && Idle(y) {
      if j != i {
        assert IdleClean(admitted, s, j, c, y);
      } else {
        var x := Pools.PlaceBackward(s.pools[i], a, c, y);
        assert IdleClean(admitted, s, i, c, x);
      }
    }
  }

  /** A request and its wire that a step does not touch. */
  lemma RequestUntouched(admitted: Admitted, s: System, t: System, r: RequestId)
    requires WellFormed(s) && WellFormed(t) && r in s.requests && r in t.requests && t.requests[r] == s.requests[r]
    requires RequestOk(admitted, s, r) && s.log <= t.log
    requires InTransaction(s.requests[r].phase) ==>
               var l := s.requests[r].phase.lease;
               && IsLease(s, l) && IsLease(t, l) && WireOf(t, l) == WireOf(s, l)
               && WireOf(s, l) in t.wires && t.wires[WireOf(s, l)] == s.wires[WireOf(s, l)]
    ensures RequestOk(admitted, t, r)
  {
  }

  lemma RequestAfterPoolStep(admitted: Admitted, s: System, i: nat, a: Pools.Action, t: System, r: RequestId)
    requires Inv(admitted, s) && PoolEnabled(s, i, a) && WellFormed(t) && r in s.requests && r in t.requests
    requires t.pools == PoolStep(s, i, a).pools && t.wires == PoolStep(s, i, a).wires && t.log == s.log
    requires t.requests[r] == s.requests[r]
    requires (a.Return? || a.Destroy?) && InTransaction(s.requests[r].phase) ==> s.requests[r].phase.lease != Lease(i, a.call)
    ensures RequestOk(admitted, t, r)
  {
    assert RequestOk(admitted, s, r) && RequestBound(s, s.requests[r]);
    PoolStepWires(s, i, a);
    if InTransaction(s.requests[r].phase) {
      LeaseKept(s, i, a, s.requests[r].phase.lease);
    }
    RequestUntouched(admitted, s, t, r);
  }

  lemma ClosingAfterPoolStep(admitted: Admitted, s: System, i: nat, a: Pools.Action, t: System, l: Lease)
    requires Inv(admitted, s) && PoolEnabled(s, i, a) && WellFormed(t) && l in s.closing && l in t.closing
    requires t.pools == PoolStep(s, i, a).pools && t.wires == PoolStep(s, i, a).wires
    requires (a.Return? || a.Destroy?) ==> l != Lease(i, a.call)
    ensures ClosingClean(admitted, t, l)
  {
    assert ClosingClean(admitted, s, l);
    PoolStepWires(s, i, a);
    LeaseKept(s, i, a, l);
  }

  /** The step of a pool that an action takes, if it takes one. */
  ghost function PoolPart(s: System, a: Action): (nat, Pools.Action)
    requires WellFormed(s) && (a.Background? || a.Acquire? || a.Connect? || a.Settle?)
    requires a.Connect? ==> a.r in s.requests && s.requests[a.r].phase.Connecting?
  {
    if a.Background? then (a.i, a.step)
    else if a.Acquire? then (a.i, Pools.Pop(a.call, a.entry))
    else if a.Connect? then (s.requests[a.r].phase.lease.pool, a.step)
    else (a.lease.pool, if a.lease in s.closing then Pools.Return(a.lease.call) else Pools.Destroy(a.lease.call))
  }

  /** What such an action does besides the pool's step. */
  lemma PoolPartOk(admitted: Admitted, s: System, a: Action)
    requires WellFormed(s) && Enabled(admitted, s, a)
    requires a.Background? || a.Acquire? || a.Connect? || a.Settle?
    ensures var (i, step) := PoolPart(s, a);
            var t := Apply(admitted, s, a);
            && PoolEnabled(s, i, step) && t.log == s.log && t.closing <= s.closing
            && t.pools == PoolStep(s, i, step).pools && t.wires == PoolStep(s, i, step).wires
            && t.requests.Keys == s.requests.Keys
            && (forall r :: r in s.requests && !((a.Acquire? || a.Connect?) && r == a.r) ==> t.requests[r] == s.requests[r])
            && (step.Return? || step.Destroy? ==>
                  && a.Settle? && a.lease == Lease(i, step.call) && a.lease !in t.closing
                  && (step.Return? ==> a.lease in s.closing))
  {
  }

  lemma PoolActionStep(admitted: Admitted, s: System, a: Action)
    requires Inv(admitted, s) && Enabled(admitted, s, a)
    requires a.Background? || a.Acquire? || a.Connect? || a.Settle?
    ensures Inv(admitted, Apply(admitted, s, a))
  {
    WellFormedStep(admitted, s, a);
    PoolPartOk(admitted, s, a);
    var (i, step) := PoolPart(s, a);
    PoolPartKeepsInv(admitted, s, i, step, Apply(admitted, s, a), a);
  }

  lemma PoolPartKeepsInv(admitted: Admitted, s: System, i: nat, step: Pools.Action, t: System, a: Action)
    requires Inv(admitted, s) && WellFormed(t) && PoolEnabled(s, i, step) && t.log == s.log && t.closing <= s.closing
    requires t.pools == PoolStep(s, i, step).pools && t.wires == PoolStep(s, i, step).wires
    requires t.requests.Keys == s.requests.Keys && Enabled(admitted, s, a)
    requires a.Acquire? || a.Connect? ==> t == Apply(admitted, s, a)
    requires forall r :: r in s.requests && !((a.Acquire? || a.Connect?) && r == a.r) ==> t.requests[r] == s.requests[r]
    requires step.Return? || step.Destroy? ==> Lease(i, step.call) in s.closing || Lease(i, step.call) in s.destroying
    requires step.Return? || step.Destroy? ==> Lease(i, step.call) !in t.closing
    requires step.Return? ==> Lease(i, step.call) in s.closing
    ensures Inv(admitted, t)
  {
    if step.Return? {
      assert ClosingClean(admitted, s, Lease(i, step.call));
    }
    forall j: nat, c: Pools.ConnId, x: Pools.Place | j < |t.pools|
      ensures IdleClean(admitted, t, j, c, x)
    {
      IdleAfterPoolStep(admitted, s, i, step, j, c, x);
      assert IdleClean(admitted, PoolStep(s, i, step), j, c, x);
    }
    forall l | l in t.closing
      ensures ClosingClean(admitted, t, l)
    {
      ClosingAfterPoolStep(admitted, s, i, step, t, l);
    }
    forall r | r in t.requests
      ensures RequestOk(admitted, t, r)
    {
      if (a.Acquire? || a.Connect?) && r == a.r {
        OwnConnectionStep(admitted, s, a);
      } else {
        RequestAfterPoolStep(admitted, s, i, step, t, r);
      }
    }
  }

  /** A connection that a request gets is clean: it was idle, or it is new. */
  lemma OwnConnectionStep(admitted: Admitted, s: System, a: Action)
    requires Inv(admitted, s) && Enabled(admitted, s, a) && (a.Acquire? || a.Connect?)
    requires WellFormed(Apply(admitted, s, a))
    ensures RequestOk(admitted, Apply(admitted, s, a), a.r)
  {
    var t := Apply(admitted, s, a);
    var (i, step) := PoolPart(s, a);
    PoolStepWires(s, i, step);
    assert RequestOk(admitted, s, a.r) && RequestBound(t, t.requests[a.r]);
    if step.Reuse? {
      var e := s.pools[i].calls[step.call].entry;
      assert IdleClean(admitted, s, i, e.value.conn, Pools.BeingChecked(step.call));
    }
    if step.Dial? && step.ok {
      assert WireId(i, s.pools[i].dialed) !in s.wires;
    }
  }

  // ---------- reading, writing, serving ----------

  /** A request works on the wire of its own lease; every other wire stays as it is. */
  ghost predicate TouchesOnly(s: System, t: System, r: RequestId) {
    && OneWire(s, t, r)
    && t.pools == s.pools && t.log == s.log && t.requests.Keys == s.requests.Keys
    && (forall r' :: r' in s.requests && r' != r ==> t.requests[r'] == s.requests[r'])
    && t.closing <= s.closing + {s.requests[r].phase.lease}
  }

  /** Nobody else depends on that wire. */
  lemma OthersUntouched(admitted: Admitted, s: System, t: System, r: RequestId)
    requires Inv(admitted, s) && WellFormed(t) && r in s.requests && InTransaction(s.requests[r].phase)
    requires TouchesOnly(s, t, r) && RequestOk(admitted, t, r)
    requires s.requests[r].phase.lease in t.closing ==> ClosingClean(admitted, t, s.requests[r].phase.lease)
    ensures Inv(admitted, t)
  {
    var l0 := s.requests[r].phase.lease;
    assert RequestBound(s, s.requests[r]);
    forall i: nat, c: Pools.ConnId, x: Pools.Place | i < |t.pools|
      ensures IdleClean(admitted, t, i, c, x)
    {
      assert IdleClean(admitted, s, i, c, x);
      if Pools.At(s.pools[i], c, x) && Idle(x) && WireId(i, c) == WireOf(s, l0) {
        NotIdle(s, l0, x);
      }
    }
    forall l | l in t.closing
      ensures ClosingClean(admitted, t, l)
    {
      if l != l0 {
        assert ClosingClean(admitted, s, l);
        WiresDiffer(s, l, l0);
      }
    }
    forall r' | r' in t.requests
      ensures RequestOk(admitted, t, r')
    {
      if r' != r {
        assert RequestOk(admitted, s, r') && RequestBound(s, s.requests[r']);
        if InTransaction(s.requests[r'].phase) {
          assert NotShared(s.requests[r].phase, s.requests[r'].phase);
          WiresDiffer(s, s.requests[r'].phase.lease, l0);
        }
        RequestUntouched(admitted, s, t, r');
      }
    }
  }

  lemma OutcomeTouches(s: System, t: System, r: RequestId)
    requires Progresses(s, t, r) || Fails(s, t, r) || Succeeds(s, t, r)
    ensures TouchesOnly(s, t, r)
  {
  }

  lemma WriteRequest(admitted: Admitted, s: System, a: Action)
    requires Inv(admitted, s) && Enabled(admitted, s, a) && a.Write?
    requires WellFormed(Apply(admitted, s, a))
    ensures RequestOk(admitted, Apply(admitted, s, a), a.r)
    ensures s.requests[a.r].phase.lease in Apply(admitted, s, a).closing ==>
              ClosingClean(admitted, Apply(admitted, s, a), s.requests[a.r].phase.lease)
  {
    var t, q := Apply(admitted, s, a), s.requests[a.r];
    assert RequestOk(admitted, s, a.r) && RequestBound(s, q);
    var w := WireOf(s, q.phase.lease);
    if a.ok && a.n == |q.bytes| {
      assert q.bytes[..a.n] == q.bytes;
      var inbox := s.wires[w].inbox + Tag(q.bytes, a.r);
      assert inbox[|inbox| - |q.bytes|..] == Tag(q.bytes, a.r);
      assert inbox[..|inbox| - |q.bytes|] == s.wires[w].inbox;
      assert t.wires[w].inbox == inbox;
    }
  }

  lemma WriteStep(admitted: Admitted, s: System, a: Action)
    requires Inv(admitted, s) && Enabled(admitted, s, a) && a.Write?
    ensures Inv(admitted, Apply(admitted, s, a))
  {
    WellFormedStep(admitted, s, a);
    IoOutcome(admitted, s, a);
    OutcomeTouches(s, Apply(admitted, s, a), a.r);
    WriteRequest(admitted, s, a);
    OthersUntouched(admitted, s, Apply(admitted, s, a), a.r);
  }

  lemma ReadHeaderRequest(admitted: Admitted, s: System, a: Action)
    requires Inv(admitted, s) && Enabled(admitted, s, a) && a.ReadHeader?
    requires WellFormed(Apply(admitted, s, a))
    ensures RequestOk(admitted, Apply(admitted, s, a), a.r)
    ensures s.requests[a.r].phase.lease in Apply(admitted, s, a).closing ==>
              ClosingClean(admitted, Apply(admitted, s, a), s.requests[a.r].phase.lease)
  {
    var t, q := Apply(admitted, s, a), s.requests[a.r];
    assert RequestOk(admitted, s, a.r) && RequestBound(s, q);
    var outbox := s.wires[WireOf(s, q.phase.lease)].outbox;
    if a.ok && a.n == 2 {
      assert outbox[..2] + outbox[2..] == outbox;
    }
  }

  lemma ReadHeaderStep(admitted: Admitted, s: System, a: Action)
    requires Inv(admitted, s) && Enabled(admitted, s, a) && a.ReadHeader?
    ensures Inv(admitted, Apply(admitted, s, a))
  {
    WellFormedStep(admitted, s, a);
    IoOutcome(admitted, s, a);
    OutcomeTouches(s, Apply(admitted, s, a), a.r);
    ReadHeaderRequest(admitted, s, a);
    OthersUntouched(admitted, s, Apply(admitted, s, a), a.r);
  }

  lemma ReadBodyRequest(admitted: Admitted, s: System, a: Action)
    requires Inv(admitted, s) && Enabled(admitted, s, a) && a.ReadBody? && SelfContained(admitted)
    requires WellFormed(Apply(admitted, s, a))
    ensures RequestOk(admitted, Apply(admitted, s, a), a.r)
    ensures s.requests[a.r].phase.lease in Apply(admitted, s, a).closing ==>
              ClosingClean(admitted, Apply(admitted, s, a), s.requests[a.r].phase.lease)
  {
    var t, q := Apply(admitted, s, a), s.requests[a.r];
    assert RequestOk(admitted, s, a.r) && RequestBound(s, q);
    var outbox := s.wires[WireOf(s, q.phase.lease)].outbox;
    var h := q.phase.header;
    if a.ok && a.n == Uint16(h) {
      assert Uint16(h + outbox) == Uint16(h);
      assert |h + outbox| == FrameSize(h + outbox) + |Rest(h + outbox)|;
      assert outbox[..a.n] == outbox && outbox[a.n..] == [];
      RestIsDeadEnd(admitted, q.bytes);
      EraseTag(Rest(q.bytes), a.r);
      assert ClosingClean(admitted, t, q.phase.lease);
    }
  }

  lemma ReadBodyStep(admitted: Admitted, s: System, a: Action)
    requires Inv(admitted, s) && Enabled(admitted, s, a) && a.ReadBody? && SelfContained(admitted)
    ensures Inv(admitted, Apply(admitted, s, a))
  {
    WellFormedStep(admitted, s, a);
    IoOutcome(admitted, s, a);
    OutcomeTouches(s, Apply(admitted, s, a), a.r);
    ReadBodyRequest(admitted, s, a);
    OthersUntouched(admitted, s, Apply(admitted, s, a), a.r);
  }

  /** What a server does to the wire of a request that has written. */
  lemma ServedAsked(admitted: Admitted, s: System, t: System, wire: Wire, r: RequestId, q: seq<byte>, body: seq<byte>)
    requires SelfContained(admitted) && q in admitted && Asked(admitted, s, wire, r, q)
    requires HasFrame(Erase(wire.inbox)) && |body| < 0x1_0000
    requires var size := FrameSize(Erase(wire.inbox)); Reply(wire.inbox[..size], Encode(body)) in t.log
    ensures var size := FrameSize(Erase(wire.inbox));
            Asked(admitted, t, Wire(wire.inbox[size..], wire.outbox + Encode(body)), r, q)
  {
    if wire.outbox == [] && |wire.inbox| >= |q| && wire.inbox[|wire.inbox| - |q|..] == Tag(q, r)
       && DeadEnd(admitted, Erase(wire.inbox[..|wire.inbox| - |q|]))
    {
      var w := wire.inbox[..|wire.inbox| - |q|];
      assert wire.inbox == w + Tag(q, r);
      OnlyFromEmpty(admitted, w, q, r);
      assert wire.inbox == Tag(q, r);
      EraseTag(q, r);
      TagSlices(q, r, FrameSize(q));
      EncodeRoundTrip(body);
      assert wire.outbox + Encode(body) == Encode(body);
    } else {
      NothingLeftToServe(admitted, wire.inbox, q, r);
    }
  }

  lemma NothingLeftToServe(admitted: Admitted, inbox: seq<Tagged>, q: seq<byte>, r: RequestId)
    requires SelfContained(admitted) && q in admitted && HasFrame(q) && inbox == Tag(Rest(q), r)
    ensures !HasFrame(Erase(inbox))
  {
    RestIsDeadEnd(admitted, q);
    EraseTag(Rest(q), r);
  }

  /** A server finds a message only on the wire of a request that has written and got no answer. */
  lemma ServedWire(admitted: Admitted, s: System, a: Action, r: RequestId)
    requires Inv(admitted, s) && Enabled(admitted, s, a) && a.Serve? && SelfContained(admitted)
    requires WellFormed(Apply(admitted, s, a)) && r in s.requests
    ensures RequestOk(admitted, Apply(admitted, s, a), r)
  {
    var t, q := Apply(admitted, s, a), s.requests[r];
    assert RequestOk(admitted, s, r) && RequestBound(s, q);
    if InTransaction(q.phase) && WireOf(s, q.phase.lease) == a.wire {
      var wire := s.wires[a.wire];
      if q.phase.Wrote? {
        ServedAsked(admitted, s, t, wire, r, q.bytes, a.body);
      } else if q.phase.GotHeader? {
        NothingLeftToServe(admitted, wire.inbox, q.bytes, r);
      }
    } else {
      RequestUntouched(admitted, s, t, r);
    }
  }

  lemma ServeStep(admitted: Admitted, s: System, a: Action)
    requires Inv(admitted, s) && Enabled(admitted, s, a) && a.Serve? && SelfContained(admitted)
    ensures Inv(admitted, Apply(admitted, s, a))
  {
    WellFormedStep(admitted, s, a);
    var t := Apply(admitted, s, a);
    forall i: nat, c: Pools.ConnId, x: Pools.Place | i < |t.pools|
      ensures IdleClean(admitted, t, i, c, x)
    {
      assert IdleClean(admitted, s, i, c, x);
    }
    forall l | l in t.closing
      ensures ClosingClean(admitted, t, l)
    {
      assert ClosingClean(admitted, s, l);
    }
    forall r | r in t.requests
      ensures RequestOk(admitted, t, r)
    {
      ServedWire(admitted, s, a, r);
    }
  }

  lemma ArrivalStep(admitted: Admitted, s: System, a: Action)
    requires Inv(admitted, s) && Enabled(admitted, s, a) && (a.Arrive? || a.Abort?)
    ensures Inv(admitted, Apply(admitted, s, a))
  {
    WellFormedStep(admitted, s, a);
    var t := Apply(admitted, s, a);
    assert a.Abort? ==> RequestOk(admitted, s, a.r);
    forall i: nat, c: Pools.ConnId, x: Pools.Place | i < |t.pools|
      ensures IdleClean(admitted, t, i, c, x)
    {
      assert IdleClean(admitted, s, i, c, x);
    }
    forall l | l in t.closing
      ensures ClosingClean(admitted, t, l)
    {
      assert ClosingClean(admitted, s, l);
    }
    forall r | r in t.requests
      ensures RequestOk(admitted, t, r)
    {
      if r != a.r {
        assert RequestBound(s, s.requests[r]);
        RequestUntouched(admitted, s, t, r);
      }
    }
  }

  lemma InvStep(admitted: Admitted, s: System, a: Action)
    requires Inv(admitted, s) && Enabled(admitted, s, a) && SelfContained(admitted)
    ensures Inv(admitted, Apply(admitted, s, a))
  {
    match a
    case Arrive(_, _, _) => ArrivalStep(admitted, s, a);
    case Abort(_) => ArrivalStep(admitted, s, a);
    case Write(_, _, _) => WriteStep(admitted, s, a);
    case ReadHeader(_, _, _) => ReadHeaderStep(admitted, s, a);
    case ReadBody(_, _, _) => ReadBodyStep(admitted, s, a);
    case Serve(_, _) => ServeStep(admitted, s, a);
    case _ => PoolActionStep(admitted, s, a);
  }

  lemma {:induction false} InvRun(admitted: Admitted, s: System, run: seq<Action>)
    requires Inv(admitted, s) && Legal(admitted, s, run) && SelfContained(admitted)
    ensures Inv(admitted, After(admitted, s, run))
    decreases |run|
  {
    if run != [] {
      InvStep(admitted, s, run[0]);
      InvRun(admitted, Apply(admitted, s, run[0]), run[1..]);
    }
  }

  lemma InitialInv(admitted: Admitted, s: System)
    requires Initial(s)
    ensures Inv(admitted, s)
  {
    assert forall i: nat, c: Pools.ConnId, x: Pools.Place :: i < |s.pools| ==> !Pools.At(s.pools[i], c, x);
  }

  ghost predicate Reaches(admitted: Admitted, s0: System, run: seq<Action>, s: System) {
    Initial(s0) && WellFormed(s0) && Legal(admitted, s0, run) && s == After(admitted, s0, run)
  }

  /** Every answered request got, byte for byte, the reply to the message it wrote itself. */
  ghost predicate AnswersAreOwn(s: System) {
    forall r :: r in s.requests && s.requests[r].phase.Answered? ==>
      OwnAnswer(s, r, s.requests[r].bytes, s.requests[r].phase.response)
  }

  /** No crossed answers: over every interleaving, if admitted requests are self-contained, every
      answer is the request's own and one message, and every idle connection has nothing unread
      and a server that owes nothing. */
  lemma NoCrossedAnswers(admitted: Admitted, s0: System, run: seq<Action>, s: System)
    requires SelfContained(admitted) && Reaches(admitted, s0, run, s)
    ensures AnswersAreOwn(s)
    ensures forall r :: r in s.requests && s.requests[r].phase.Answered? ==> OneFrame(s.requests[r].phase.response)
    ensures forall i: nat, e :: i < |s.pools| && e in s.pools[i].queue ==>
              && WireId(i, e.value.conn) in s.wires && s.wires[WireId(i, e.value.conn)].outbox == []
              && !HasFrame(Erase(s.wires[WireId(i, e.value.conn)].inbox))
  {
    InitialInv(admitted, s0);
    InvRun(admitted, s0, run);
    forall r | r in s.requests && s.requests[r].phase.Answered?
      ensures OwnAnswer(s, r, s.requests[r].bytes, s.requests[r].phase.response)
      ensures OneFrame(s.requests[r].phase.response)
    {
      assert RequestOk(admitted, s, r);
    }
    forall i: nat, e | i < |s.pools| && e in s.pools[i].queue
      ensures WireId(i, e.value.conn) in s.wires && s.wires[WireId(i, e.value.conn)].outbox == []
      ensures !HasFrame(Erase(s.wires[WireId(i, e.value.conn)].inbox))
    {
      assert IdleClean(admitted, s, i, e.value.conn, Pools.InQueue(e));
    }
  }
}
