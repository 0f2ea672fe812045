/** The condition of ProxyAnswers is exact: whenever admitted requests are not self-contained, some
    run gives a request the answer to bytes that another one wrote. */
module ProxyCrossing {
  import opened Collections
  import opened Wrappers
  import opened Framing
  import Pools = PoolProtocol
  import opened ProxyProtocol
  import opened ProxyAnswers

  ghost predicate CanReach(admitted: Admitted, s: System) {
    exists s0: System, run: seq<Action> :: Reaches(admitted, s0, run, s)
  }

  lemma {:induction false} RunOneMore(admitted: Admitted, s: System, run: seq<Action>, a: Action)
    requires WellFormed(s) && Legal(admitted, s, run) && Enabled(admitted, After(admitted, s, run), a)
    ensures Legal(admitted, s, run + [a])
    ensures After(admitted, s, run + [a]) == Apply(admitted, After(admitted, s, run), a)
    decreases |run|
  {
    if run == [] {
      assert run + [a] == [a] && [a][1..] == [];
      WellFormedStep(admitted, s, a);
    } else {
      WellFormedStep(admitted, s, run[0]);
      RunOneMore(admitted, Apply(admitted, s, run[0]), run[1..], a);
      TailAppend(run, a);
    }
  }

  lemma Reached(admitted: Admitted, s: System)
    requires CanReach(admitted, s)
    ensures WellFormed(s)
  {
    var s0, run :| Reaches(admitted, s0, run, s);
  }

  lemma Take(admitted: Admitted, s: System, a: Action) returns (t: System)
    requires CanReach(admitted, s) && WellFormed(s) && Enabled(admitted, s, a)
    ensures t == Apply(admitted, s, a) && CanReach(admitted, t)
  {
    t := Apply(admitted, s, a);
    var s0, run :| Reaches(admitted, s0, run, s);
    RunOneMore(admitted, s0, run, a);
    assert Reaches(admitted, s0, run + [a], t);
  }

  lemma UpdateTwice<K, V>(m: map<K, V>, k: K, v: V, v': V)
    ensures m[k := v][k := v'] == m[k := v']
  {
  }

  lemma SingleUpdate<K, V>(k: K, v: V, v': V)
    ensures map[k := v][k := v'] == map[k := v']
  {
  }

  /** A step of the only pool. */
  lemma OnlyPool(s: System, a: Pools.Action)
    requires |s.pools| == 1 && Pools.Enabled(s.pools[0], a)
    ensures var q := Pools.Apply(s.pools[0], a);
            PoolStep(s, 0, a) ==
            s.(pools := [q],
               wires := if q.dialed > s.pools[0].dialed then s.wires[WireId(0, s.pools[0].dialed) := Wire([], [])]
                        else s.wires)
  {
    assert s.pools[0 := Pools.Apply(s.pools[0], a)] == [Pools.Apply(s.pools[0], a)];
  }

  // ---------- one action at a time ----------

  lemma TakeArrive(admitted: Admitted, s: System, r: RequestId, q: seq<byte>) returns (t: System)
    requires CanReach(admitted, s) && q in admitted && r !in s.requests
    ensures CanReach(admitted, t)
    ensures t == s.(requests := s.requests[r := Request(q, 0, 16, Waiting, [], None)])
  {
    Reached(admitted, s);
    t := Take(admitted, s, Arrive(r, q, 0));
  }

  /** Request r asks the only pool for a connection. */
  lemma TakeAcquire(admitted: Admitted, s: System, r: RequestId, k: Pools.CallId, entry: Option<Pools.Pooled>)
    returns (t: System)
    requires CanReach(admitted, s) && |s.pools| == 1 && r in s.requests && s.requests[r].phase.Waiting?
    requires Lease(0, k) !in s.owner
    requires Pools.Enabled(s.pools[0], Pools.Pop(k, entry))
    ensures CanReach(admitted, t)
    ensures t == s.(pools := [Pools.Apply(s.pools[0], Pools.Pop(k, entry))],
                    requests := s.requests[r := s.requests[r].(phase := Connecting(Lease(0, k)))],
                    owner := s.owner[Lease(0, k) := r])
  {
    Reached(admitted, s);
    t := Take(admitted, s, Acquire(r, 0, k, entry));
    OnlyPool(s, Pools.Pop(k, entry));
  }

  lemma TakeDial(admitted: Admitted, s: System, r: RequestId, k: Pools.CallId) returns (t: System)
    requires CanReach(admitted, s) && |s.pools| == 1 && r in s.requests && s.requests[r].phase == Connecting(Lease(0, k))
    requires Pools.Enabled(s.pools[0], Pools.Dial(k, true))
    ensures CanReach(admitted, t)
    ensures t == s.(pools := [Pools.Apply(s.pools[0], Pools.Dial(k, true))],
                    wires := s.wires[WireId(0, s.pools[0].dialed) := Wire([], [])],
                    requests := s.requests[r := s.requests[r].(phase := Holding(Lease(0, k)))])
  {
    Reached(admitted, s);
    t := Take(admitted, s, Connect(r, Pools.Dial(k, true)));
    OnlyPool(s, Pools.Dial(k, true));
  }

  lemma TakeReuse(admitted: Admitted, s: System, r: RequestId, k: Pools.CallId) returns (t: System)
    requires CanReach(admitted, s) && |s.pools| == 1 && r in s.requests && s.requests[r].phase == Connecting(Lease(0, k))
    requires Pools.Enabled(s.pools[0], Pools.Reuse(k))
    ensures CanReach(admitted, t)
    ensures t == s.(pools := [Pools.Apply(s.pools[0], Pools.Reuse(k))],
                    requests := s.requests[r := s.requests[r].(phase := Holding(Lease(0, k)))])
  {
    Reached(admitted, s);
    t := Take(admitted, s, Connect(r, Pools.Reuse(k)));
    OnlyPool(s, Pools.Reuse(k));
  }

  lemma TakeReturn(admitted: Admitted, s: System, k: Pools.CallId) returns (t: System)
    requires CanReach(admitted, s) && |s.pools| == 1 && Lease(0, k) in s.closing && k in s.pools[0].leases
    ensures CanReach(admitted, t)
    ensures t == s.(pools := [Pools.Apply(s.pools[0], Pools.Return(k))], closing := s.closing - {Lease(0, k)},
                    returned := s.returned + {Lease(0, k)})
  {
    Reached(admitted, s);
    OnlyPool(s, Pools.Return(k));
    assert Pools.Apply(s.pools[0], Pools.Return(k)).dialed == s.pools[0].dialed;
    t := Take(admitted, s, Settle(Lease(0, k)));
  }

  /** Request r is at work on wire w. */
  ghost predicate WorksOn(s: System, r: RequestId, w: WireId) {
    && r in s.requests && InTransaction(s.requests[r].phase) && IsLease(s, s.requests[r].phase.lease)
    && w == WireOf(s, s.requests[r].phase.lease) && w in s.wires
  }

  lemma TakeWrite(admitted: Admitted, s: System, r: RequestId, w: WireId) returns (t: System)
    requires CanReach(admitted, s) && WorksOn(s, r, w) && s.requests[r].phase.Holding?
    ensures CanReach(admitted, t) && WorksOn(t, r, w)
    ensures var q := s.requests[r];
            t == s.(wires := s.wires[w := Wire(s.wires[w].inbox + Tag(q.bytes, r), s.wires[w].outbox)],
                    requests := s.requests[r := q.(phase := Wrote(q.phase.lease))])
  {
    Reached(admitted, s);
    var q := s.requests[r];
    assert q.bytes[..|q.bytes|] == q.bytes;
    t := Take(admitted, s, Write(r, |q.bytes|, true));
  }

  lemma TakeServe(admitted: Admitted, s: System, w: WireId) returns (t: System)
    requires CanReach(admitted, s) && w in s.wires && s.wires[w].outbox == [] && HasFrame(Erase(s.wires[w].inbox))
    ensures CanReach(admitted, t)
    ensures var inbox := s.wires[w].inbox;
            var size := FrameSize(Erase(inbox));
            t == s.(wires := s.wires[w := Wire(inbox[size..], EMPTY_REPLY)],
                    log := s.log + {Reply(inbox[..size], EMPTY_REPLY)})
  {
    Reached(admitted, s);
    assert [] + EMPTY_REPLY == EMPTY_REPLY;
    t := Take(admitted, s, Serve(w, []));
  }

  lemma TakeHeader(admitted: Admitted, s: System, r: RequestId, w: WireId) returns (t: System)
    requires CanReach(admitted, s) && WorksOn(s, r, w) && s.requests[r].phase.Wrote? && s.wires[w].outbox == EMPTY_REPLY
    ensures CanReach(admitted, t) && WorksOn(t, r, w)
    ensures var q := s.requests[r];
            t == s.(wires := s.wires[w := Wire(s.wires[w].inbox, [])],
                    requests := s.requests[r := q.(phase := GotHeader(q.phase.lease, EMPTY_REPLY))])
  {
    Reached(admitted, s);
    assert EMPTY_REPLY[..2] == EMPTY_REPLY && EMPTY_REPLY[2..] == [];
    t := Take(admitted, s, ReadHeader(r, 2, true));
  }

  lemma TakeBody(admitted: Admitted, s: System, r: RequestId, w: WireId) returns (t: System)
    requires CanReach(admitted, s) && WorksOn(s, r, w) && s.wires[w].outbox == []
    requires s.requests[r].phase.GotHeader? && s.requests[r].phase.header == EMPTY_REPLY
    ensures CanReach(admitted, t)
    ensures var q := s.requests[r];
            t == s.(requests := s.requests[r := q.(phase := Answered(EMPTY_REPLY), won := Some(q.phase.lease))],
                    closing := s.closing + {q.phase.lease})
  {
    Reached(admitted, s);
    BodyResult(admitted, s, r, w);
    t := Take(admitted, s, ReadBody(r, 0, true));
  }

  lemma BodyResult(admitted: Admitted, s: System, r: RequestId, w: WireId)
    requires WellFormed(s) && WorksOn(s, r, w) && s.wires[w].outbox == []
    requires s.requests[r].phase.GotHeader? && s.requests[r].phase.header == EMPTY_REPLY
    ensures Enabled(admitted, s, ReadBody(r, 0, true))
    ensures var q := s.requests[r];
            Apply(admitted, s, ReadBody(r, 0, true)) ==
            s.(requests := s.requests[r := q.(phase := Answered(EMPTY_REPLY), won := Some(q.phase.lease))],
               closing := s.closing + {q.phase.lease})
  {
    HeaderValue(0);
    assert EMPTY_REPLY + s.wires[w].outbox[..0] == EMPTY_REPLY;
    assert s.wires[w := Wire(s.wires[w].inbox, s.wires[w].outbox[0..])] == s.wires;
  }

  const EMPTY_REPLY: seq<byte> := Encode([])

  // ---------- the run ----------

  /** Request r writes, the server answers the first message it finds with an empty one, and the
      request takes that answer. */
  lemma Transaction(admitted: Admitted, s: System, r: RequestId, w: WireId) returns (t: System)
    requires CanReach(admitted, s) && WorksOn(s, r, w) && s.requests[r].phase.Holding? && s.wires[w].outbox == []
    requires HasFrame(Erase(s.wires[w].inbox + Tag(s.requests[r].bytes, r)))
    ensures CanReach(admitted, t)
    ensures var q := s.requests[r];
            var inbox := s.wires[w].inbox + Tag(q.bytes, r);
            var size := FrameSize(Erase(inbox));
            t == s.(closing := s.closing + {q.phase.lease},
                    requests := s.requests[r := q.(phase := Answered(EMPTY_REPLY), won := Some(q.phase.lease))],
                    wires := s.wires[w := Wire(inbox[size..], [])],
                    log := s.log + {Reply(inbox[..size], EMPTY_REPLY)})
  {
    var s1 := TakeWrite(admitted, s, r, w);
    var s2 := TakeServe(admitted, s1, w);
    var s3 := TakeHeader(admitted, s2, r, w);
    t := TakeBody(admitted, s3, r, w);
    UpdateTwice(s.wires, w, s1.wires[w], s2.wires[w]);
    UpdateTwice(s.wires, w, s2.wires[w], s3.wires[w]);
    UpdateTwice(s.requests, r, s1.requests[r], s3.requests[r]);
    UpdateTwice(s.requests, r, s3.requests[r], t.requests[r]);
  }

  const W: WireId := WireId(0, 0)

  /** The only pool never refuses a connection and never finds one stale. */
  ghost predicate Relaxed(s: System) {
    |s.pools| == 1 && s.pools[0].capacity == 0 && s.pools[0].staleTimeout == 0
  }

  /** A new pool after a call found it empty and dialed. */
  lemma DialedPool() returns (p1: Pools.Pool, p2: Pools.Pool)
    ensures var p := Pools.NewPool(0, 0, 0);
            && Pools.Enabled(p, Pools.Pop(1, None)) && p1 == Pools.Apply(p, Pools.Pop(1, None))
            && Pools.Enabled(p1, Pools.Dial(1, true)) && p2 == Pools.Apply(p1, Pools.Dial(1, true))
    ensures p1.dialed == 0
    ensures p2.queue == multiset{} && p2.leases == map[1 := 0] && p2.calls == map[]
    ensures p2.capacity == 0 && p2.staleTimeout == 0
  {
    var p := Pools.NewPool(0, 0, 0);
    p1 := Pools.Apply(p, Pools.Pop(1, None));
    p2 := Pools.Apply(p1, Pools.Dial(1, true));
    assert p1.calls == map[1 := Pools.Dialing] && p1.calls - {1} == map[];
  }

  /** That pool after the connection was put back and leased again. */
  lemma RecycledPool(p: Pools.Pool) returns (p1: Pools.Pool, e: Pools.Pooled, p2: Pools.Pool, p3: Pools.Pool)
    requires p.queue == multiset{} && p.leases == map[1 := 0] && p.calls == map[]
    requires p.capacity == 0 && p.staleTimeout == 0
    ensures p1 == Pools.Apply(p, Pools.Return(1))
    ensures Pools.Enabled(p1, Pools.Pop(2, Some(e))) && p2 == Pools.Apply(p1, Pools.Pop(2, Some(e)))
    ensures Pools.Enabled(p2, Pools.Reuse(2)) && p3 == Pools.Apply(p2, Pools.Reuse(2))
    ensures p3.leases == map[2 := 0] && p3.capacity == 0 && p3.staleTimeout == 0
  {
    e := Pools.Pooling(0, p.now);
    p1 := Pools.Apply(p, Pools.Return(1));
    assert p1.queue == multiset{e} && p1.leases == map[] && p1.calls == map[];
    p2 := Pools.Apply(p1, Pools.Pop(2, Some(e)));
    p3 := Pools.Apply(p2, Pools.Reuse(2));
  }

  lemma Start(admitted: Admitted) returns (s: System)
    ensures CanReach(admitted, s)
    ensures s == System([Pools.NewPool(0, 0, 0)], map[], map[], {}, {}, {}, {}, map[], {})
  {
    s := System([Pools.NewPool(0, 0, 0)], map[], map[], {}, {}, {}, {}, map[], {});
    InitialInv(admitted, s);
    assert Reaches(admitted, s, [], s);
  }

  lemma FirstAsks(admitted: Admitted, q: seq<byte>) returns (s: System)
    requires q in admitted
    ensures CanReach(admitted, s)
    ensures s == System([Pools.Apply(Pools.NewPool(0, 0, 0), Pools.Pop(1, None))], map[],
                        map[][1 := Request(q, 0, 16, Connecting(Lease(0, 1)), [], None)],
                        {}, {}, {}, {}, map[][Lease(0, 1) := 1], {})
  {
    var s0 := Start(admitted);
    var s1 := TakeArrive(admitted, s0, 1, q);
    s := TakeAcquire(admitted, s1, 1, 1, None);
    UpdateTwice(s0.requests, 1, s1.requests[1], s.requests[1]);
  }

  /** The first request finds an empty pool, dials and holds a new connection. */
  lemma FirstHolds(admitted: Admitted, q: seq<byte>) returns (s: System)
    requires q in admitted
    ensures CanReach(admitted, s) && Relaxed(s) && s.pools[0].queue == multiset{} && s.pools[0].leases == map[1 := 0]
    ensures s.pools[0].calls == map[] && s.wires == map[W := Wire([], [])] && s.closing == {} && s.log == {}
    ensures Lease(0, 2) !in s.owner
    ensures s.requests == map[][1 := Request(q, 0, 16, Holding(Lease(0, 1)), [], None)]
  {
    var p1, p2 := DialedPool();
    var s2 := FirstAsks(admitted, q);
    s := TakeDial(admitted, s2, 1, 1);
    UpdateTwice(map[], 1, s2.requests[1], s.requests[1]);
  }

  /** The first connection goes back to the pool, and the second request leases it. */
  lemma SecondHolds(admitted: Admitted, s: System, q: seq<byte>) returns (t: System)
    requires CanReach(admitted, s) && Relaxed(s) && s.pools[0].queue == multiset{} && s.pools[0].leases == map[1 := 0]
    requires s.pools[0].calls == map[] && Lease(0, 1) in s.closing && 2 !in s.requests && q in admitted
    requires Lease(0, 2) !in s.owner
    ensures CanReach(admitted, t) && Relaxed(t) && t.pools[0].leases == map[2 := 0]
    ensures t.wires == s.wires && t.log == s.log
    ensures t.requests == s.requests[2 := Request(q, 0, 16, Holding(Lease(0, 2)), [], None)]
  {
    var p1, e, p2, p3 := RecycledPool(s.pools[0]);
    var s1 := TakeReturn(admitted, s, 1);
    var s2 := TakeArrive(admitted, s1, 2, q);
    var s3 := TakeAcquire(admitted, s2, 2, 2, Some(e));
    UpdateTwice(s.requests, 2, s2.requests[2], s3.requests[2]);
    t := TakeReuse(admitted, s3, 2, 2);
    UpdateTwice(s.requests, 2, s3.requests[2], t.requests[2]);
  }

  /** Request r wrote q and has an answer that is not its own. */
  ghost predicate Crossed(s: System, r: RequestId, q: seq<byte>) {
    && r in s.requests && s.requests[r].bytes == q && s.requests[r].phase == Answered(EMPTY_REPLY)
    && !OwnAnswer(s, r, q, EMPTY_REPLY)
  }

  /** A request that leaves bytes behind, and one that completes them to a message: the second
      request gets the answer to a message that begins with bytes of the first. */
  lemma LeftoverCrosses(admitted: Admitted, q1: seq<byte>, q2: seq<byte>) returns (s: System)
    requires q1 in admitted && q2 in admitted
    requires HasFrame(q1) && Rest(q1) != [] && HasFrame(Rest(q1) + q2)
    ensures CanReach(admitted, s) && Crossed(s, 2, q2)
  {
    var s2 := FirstAnswered(admitted, q1);
    var s3 := SecondHolds(admitted, s2, q2);
    s := SecondAnswered(admitted, s3, q1, q2);
  }

  /** The second request writes after what the first one left over, and takes the answer. */
  lemma SecondAnswered(admitted: Admitted, s: System, q1: seq<byte>, q2: seq<byte>) returns (t: System)
    requires HasFrame(q1) && Rest(q1) != [] && HasFrame(Rest(q1) + q2)
    requires CanReach(admitted, s) && |s.pools| == 1 && s.pools[0].leases == map[2 := 0]
    requires s.wires == map[W := Wire(Tag(Rest(q1), 1), [])] && s.log == {Reply(Tag(FirstFrame(q1), 1), EMPTY_REPLY)}
    requires 2 in s.requests && s.requests[2] == Request(q2, 0, 16, Holding(Lease(0, 2)), [], None)
    ensures CanReach(admitted, t) && Crossed(t, 2, q2)
  {
    var inbox := Tag(Rest(q1), 1) + Tag(q2, 2);
    EraseConcat(Tag(Rest(q1), 1), Tag(q2, 2));
    EraseTag(Rest(q1), 1);
    EraseTag(q2, 2);
    t := Transaction(admitted, s, 2, W);
    SecondIsCrossed(t, q1, q2, inbox[..FrameSize(Erase(inbox))]);
  }

  lemma FirstAnswered(admitted: Admitted, q: seq<byte>) returns (s: System)
    requires q in admitted && HasFrame(q)
    ensures CanReach(admitted, s) && Relaxed(s) && s.pools[0].queue == multiset{} && s.pools[0].leases == map[1 := 0]
    ensures s.pools[0].calls == map[] && Lease(0, 1) in s.closing && 2 !in s.requests
    ensures Lease(0, 2) !in s.owner
    ensures s.wires == map[W := Wire(Tag(Rest(q), 1), [])]
    ensures s.log == {Reply(Tag(FirstFrame(q), 1), EMPTY_REPLY)}
  {
    var s1 := FirstHolds(admitted, q);
    assert [] + Tag(q, 1) == Tag(q, 1);
    EraseTag(q, 1);
    TagSlices(q, 1, FrameSize(q));
    s := Transaction(admitted, s1, 1, W);
    SingleUpdate(W, Wire([], []), s.wires[W]);
  }

  lemma SecondIsCrossed(s: System, q1: seq<byte>, q2: seq<byte>, question: seq<Tagged>)
    requires HasFrame(q1) && |question| > 0 && question[0].owner == 1
    requires s.log == {Reply(Tag(FirstFrame(q1), 1), EMPTY_REPLY), Reply(question, EMPTY_REPLY)}
    requires 2 in s.requests && s.requests[2].phase == Answered(EMPTY_REPLY) && s.requests[2].bytes == q2
    ensures Crossed(s, 2, q2)
  {
    if HasFrame(q2) {
      var own := Tag(FirstFrame(q2), 2);
      assert own[0].owner == 2 && Tag(FirstFrame(q1), 1)[0].owner == 1;
    }
  }

  /** No run crosses answers. */
  ghost predicate NeverCrosses(admitted: Admitted) {
    forall s: System :: CanReach(admitted, s) ==> AnswersAreOwn(s)
  }

  /** Answers are never crossed if and only if admitted requests are self-contained. */
  lemma CrossingCondition(admitted: Admitted)
    ensures NeverCrosses(admitted) <==> SelfContained(admitted)
  {
    if SelfContained(admitted) {
      forall s: System | CanReach(admitted, s)
        ensures AnswersAreOwn(s)
      {
        var s0, run :| Reaches(admitted, s0, run, s);
        NoCrossedAnswers(admitted, s0, run, s);
      }
    } else {
      var q1, q2 :| q1 in admitted && q2 in admitted && HasFrame(q1) && Rest(q1) != [] && HasFrame(Rest(q1) + q2);
      var s := LeftoverCrosses(admitted, q1, q2);
      assert !AnswersAreOwn(s);
    }
  }

  /** What UDP clients send, and TCP requests that are one message per read, is self-contained. */
  lemma OneMessagePerRequest(admitted: Admitted)
    requires forall q :: q in admitted ==> OneFrame(q) || !HasFrame(q)
    ensures SelfContained(admitted) && NeverCrosses(admitted)
  {
    CrossingCondition(admitted);
  }

  /** All requests that UDP clients can cause. */
  ghost function UdpRequests(): Admitted {
    iset arrived: seq<byte> | true :: UpstreamRequest(UDP, ClientRead(arrived))
  }

  lemma UdpNeverCrosses()
    ensures NeverCrosses(UdpRequests())
  {
    forall q | q in UdpRequests()
      ensures OneFrame(q)
    {
      UdpIsOneFrame(q);
    }
    OneMessagePerRequest(UdpRequests());
  }

  /** All requests that TCP clients can cause: whatever one read delivers. */
  ghost function TcpRequests(): Admitted {
    iset arrived: seq<byte> | true :: UpstreamRequest(TCP, ClientRead(arrived))
  }

  /** TCP clients can make answers cross: a read may deliver one message and the beginning of
      another, such as two empty ones. */
  lemma TcpCanCross()
    ensures !NeverCrosses(TcpRequests())
  {
    var q: seq<byte> := [0, 0, 0, 0];
    assert q == UpstreamRequest(TCP, ClientRead(q)) && q in TcpRequests();
    assert HasFrame(q) && Rest(q) == [0, 0] && HasFrame(Rest(q) + q);
    var s := LeftoverCrosses(TcpRequests(), q, q);
    assert !AnswersAreOwn(s);
  }

  // ---------- UDP and TCP clients that share the pools ----------

  /** Every answered request of a UDP client got the reply to its own message. */
  ghost predicate UdpAnswersAreOwn(s: System) {
    forall r :: r in s.requests && s.requests[r].phase.Answered? && s.requests[r].bytes in UdpRequests() ==>
      OwnAnswer(s, r, s.requests[r].bytes, s.requests[r].phase.response)
  }

  /** No run over requests of UDP clients and these requests of TCP clients crosses the answers of a
      UDP client. */
  ghost predicate UdpSafeWith(tcp: Admitted) {
    forall s: System :: CanReach(UdpRequests() + tcp, s) ==> UdpAnswersAreOwn(s)
  }

  /** The longest request that a UDP client can cause. */
  function LongestUdp(): (q: seq<byte>)
    ensures |q| == CLIENT_BUFFER + 2 && q[0] == 4
  {
    Encode(seq(CLIENT_BUFFER, _ => 0))
  }

  lemma LongestIsUdp()
    ensures LongestUdp() in UdpRequests()
  {
    var arrived: seq<byte> := seq(CLIENT_BUFFER, _ => 0);
    assert LongestUdp() == UpstreamRequest(UDP, ClientRead(arrived));
  }

  lemma UdpIsOneFrame(q: seq<byte>)
    requires q in UdpRequests()
    ensures OneFrame(q)
  {
    var arrived: seq<byte> :| q == UpstreamRequest(UDP, ClientRead(arrived));
    EncodeRoundTrip(ClientRead(arrived));
  }

  lemma TcpIsShort(q: seq<byte>)
    requires q in TcpRequests()
    ensures |q| <= CLIENT_BUFFER
  {
    var arrived: seq<byte> :| q == UpstreamRequest(TCP, ClientRead(arrived));
  }

  /** What some request completes to a message, the longest UDP request completes as well. */
  lemma LongestCompletes(rest: seq<byte>, q: seq<byte>)
    requires rest != [] && HasFrame(rest + q) && |q| <= CLIENT_BUFFER
    ensures HasFrame(rest + LongestUdp())
  {
    var w, u := rest + q, rest + LongestUdp();
    if |rest| == 1 {
      assert w[0] == u[0] == rest[0] && u[1] == LongestUdp()[0];
    } else {
      assert w[0] == u[0] && w[1] == u[1];
    }
  }

  /** If anything a TCP client leaves over can be completed, a UDP client can be the one who does. */
  lemma UdpCompletes(tcp: Admitted, q1: seq<byte>, q2: seq<byte>) returns (u: seq<byte>)
    requires tcp <= TcpRequests() && q1 in UdpRequests() + tcp && q2 in UdpRequests() + tcp
    requires HasFrame(q1) && Rest(q1) != [] && HasFrame(Rest(q1) + q2)
    ensures u in UdpRequests() && HasFrame(Rest(q1) + u)
  {
    u := q2;
    if q2 !in UdpRequests() {
      u := LongestUdp();
      LongestIsUdp();
      TcpIsShort(q2);
      LongestCompletes(Rest(q1), q2);
    }
  }

  /** Answers of UDP clients are never crossed, whatever else goes on, if and only if the requests
      of all clients together are self-contained; otherwise LeftoverCrosses has a UDP client get an
      answer to what a TCP client left over. */
  lemma SharedPoolsCondition(tcp: Admitted)
    requires tcp <= TcpRequests()
    ensures UdpSafeWith(tcp) <==> SelfContained(UdpRequests() + tcp)
  {
    var admitted := UdpRequests() + tcp;
    if SelfContained(admitted) {
      forall s: System | CanReach(admitted, s)
        ensures UdpAnswersAreOwn(s)
      {
        CrossingCondition(admitted);
        assert AnswersAreOwn(s);
      }
    } else {
      var q1, q2 :| q1 in admitted && q2 in admitted && HasFrame(q1) && Rest(q1) != [] && HasFrame(Rest(q1) + q2);
      var u := UdpCompletes(tcp, q1, q2);
      var s := LeftoverCrosses(admitted, q1, u);
      assert !UdpAnswersAreOwn(s);
    }
  }

  /** With the TCP listener open to everyone, UDP clients can get crossed answers, too. */
  lemma TcpCrossesUdp()
    ensures !UdpSafeWith(TcpRequests())
  {
    SharedPoolsCondition(TcpRequests());
    TcpCanCross();
    OnlyFewerCross(TcpRequests(), UdpRequests() + TcpRequests());
  }

  lemma OnlyFewerCross(few: Admitted, many: Admitted)
    requires few <= many && !NeverCrosses(few)
    ensures !SelfContained(many)
  {
    CrossingCondition(few);
  }
}
