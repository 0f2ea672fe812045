/** When requests get anywhere: what can be done for a request that is not finished, exactly when
    nothing can be done without a failure, and exactly which requests can always be served. */
module ProxyProgress {
  import opened Wrappers
  import opened Framing
  import Pools = PoolProtocol
  import opened ProxyProtocol
  import opened ProxyRetries
  import opened ProxyTermination
  import ProxyAnswers
  import ProxyCrossing

  // ---------- requests of at most one message ----------

  ghost function OneMessages(): Admitted {
    iset q: seq<byte> | OneFrame(q) || !HasFrame(q)
  }

  lemma OneMessagesContained()
    ensures ProxyAnswers.SelfContained(OneMessages())
  {
  }

  /** Whatever a server has received of a message, some request of less than one message completes
      it, so among them there are no dead ends. */
  lemma NoDeadEnds(w: seq<byte>)
    requires ProxyAnswers.DeadEnd(OneMessages(), w)
    ensures w == []
  {
    var q: seq<byte> := seq(0x1_0000, _ => 255);
    assert !HasFrame(q) && q in OneMessages();
    assert w != [] ==> HasFrame(w + q);
  }

  /** What can happen with few requests can happen with more. */
  lemma EnabledMore(few: Admitted, many: Admitted, s: System, a: Action)
    requires few <= many && WellFormed(s) && Enabled(few, s, a)
    ensures Enabled(many, s, a) && Apply(many, s, a) == Apply(few, s, a)
  {
  }

  lemma {:induction false} LegalMore(few: Admitted, many: Admitted, s: System, run: seq<Action>)
    requires few <= many && WellFormed(s) && Legal(few, s, run)
    ensures Legal(many, s, run) && After(many, s, run) == After(few, s, run)
    decreases |run|
  {
    if run != [] {
      EnabledMore(few, many, s, run[0]);
      WellFormedStep(few, s, run[0]);
      LegalMore(few, many, Apply(few, s, run[0]), run[1..]);
    }
  }

  /** What holds of a connection in a state reached by such requests. */
  lemma ReachedOneMessages(admitted: Admitted, s0: System, run: seq<Action>, s: System)
    requires admitted <= OneMessages() && ProxyAnswers.Reaches(admitted, s0, run, s)
    ensures ProxyAnswers.Inv(OneMessages(), s)
  {
    LegalMore(admitted, OneMessages(), s0, run);
    OneMessagesContained();
    ProxyAnswers.InitialInv(OneMessages(), s0);
    ProxyAnswers.InvRun(OneMessages(), s0, run);
  }

  /** Among requests of at most one message every pooled connection is empty in both directions. */
  lemma PooledIsEmpty(admitted: Admitted, s0: System, run: seq<Action>, s: System, i: nat, e: Pools.Pooled)
    requires admitted <= OneMessages() && ProxyAnswers.Reaches(admitted, s0, run, s)
    requires i < |s.pools| && e in s.pools[i].queue
    ensures WireId(i, e.value.conn) in s.wires && s.wires[WireId(i, e.value.conn)] == Wire([], [])
  {
    ReachedOneMessages(admitted, s0, run, s);
    assert ProxyAnswers.IdleClean(OneMessages(), s, i, e.value.conn, Pools.InQueue(e));
    NoDeadEnds(Erase(s.wires[WireId(i, e.value.conn)].inbox));
  }

  // ---------- what helps a request ----------

  ghost predicate Uses(s: System, r: RequestId, w: WireId) {
    && r in s.requests && InTransaction(s.requests[r].phase) && IsLease(s, s.requests[r].phase.lease)
    && w == WireOf(s, s.requests[r].phase.lease) && w in s.wires
  }

  /** An action of r that is no failure, or the server's answer to what r wrote. */
  ghost predicate Helps(admitted: Admitted, s: System, r: RequestId, a: Action)
    requires WellFormed(s)
  {
    && Enabled(admitted, s, a)
    && if a.Serve? then Uses(s, r, a.wire) && s.requests[r].phase.Wrote?
       else IsOwn(a, r) && !a.Abort? && !IsFailedDial(a, r) && !IsFailure(admitted, s, a)
  }

  /** The request has written and has nothing to read, and what the server has received is not one
      message of this request alone: the request was no whole message, or came after bytes that
      another one left over. If requests are self-contained the server will never answer. */
  ghost predicate Stuck(s: System, r: RequestId) {
    && r in s.requests && s.requests[r].phase.Wrote?
    && exists w :: Uses(s, r, w) && WaitsInVain(s.wires[w], s.requests[r].bytes)
  }

  predicate WaitsInVain(wire: Wire, q: seq<byte>) {
    wire.outbox == [] && (!HasFrame(q) || |wire.inbox| != |q|)
  }

  lemma TransactionWire(s: System, r: RequestId) returns (w: WireId)
    requires WellFormed(s) && r in s.requests && InTransaction(s.requests[r].phase)
    ensures Uses(s, r, w)
  {
    assert RequestBound(s, s.requests[r]);
    LeaseHasWire(s, s.requests[r].phase.lease);
    w := WireOf(s, s.requests[r].phase.lease);
  }

  lemma FullWriteHelps(admitted: Admitted, s: System, r: RequestId, w: WireId)
    requires WellFormed(s) && Uses(s, r, w) && s.requests[r].phase.Holding?
    ensures var a := Write(r, |s.requests[r].bytes|, true);
            Helps(admitted, s, r, a) && Apply(admitted, s, a).requests[r].phase.Wrote?
  {
  }

  lemma FullHeaderHelps(admitted: Admitted, s: System, r: RequestId, w: WireId)
    requires WellFormed(s) && Uses(s, r, w) && s.requests[r].phase.Wrote? && |s.wires[w].outbox| >= 2
    ensures var a := ReadHeader(r, 2, true);
            Helps(admitted, s, r, a) && Apply(admitted, s, a).requests[r].phase.GotHeader?
  {
  }

  lemma FullBodyHelps(admitted: Admitted, s: System, r: RequestId, w: WireId)
    requires WellFormed(s) && Uses(s, r, w) && s.requests[r].phase.GotHeader? && |s.requests[r].phase.header| == 2
    requires |s.wires[w].outbox| >= Uint16(s.requests[r].phase.header)
    ensures var a := ReadBody(r, Uint16(s.requests[r].phase.header), true);
            Helps(admitted, s, r, a) && Apply(admitted, s, a).requests[r].phase.Answered?
  {
  }

  lemma AnswerHelps(admitted: Admitted, s: System, r: RequestId, w: WireId)
    requires WellFormed(s) && Uses(s, r, w) && s.requests[r].phase.Wrote? && HasFrame(Erase(s.wires[w].inbox))
    ensures Helps(admitted, s, r, Serve(w, []))
    ensures var t := Apply(admitted, s, Serve(w, []));
            t.requests == s.requests && t.pools == s.pools && Uses(t, r, w) && t.wires[w].outbox != []
  {
  }

  lemma {:induction false} FreshName(names: set<nat>) returns (k: nat)
    ensures k !in names && forall n :: n in names ==> n < k
    decreases |names|
  {
    k := 0;
    if names != {} {
      var n :| n in names;
      var rest := names - {n};
      var k' := FreshName(rest);
      assert forall m :: m in names ==> m == n || m in rest;
      k := if n < k' then k' else n + 1;
    }
  }

  /** What Pop may find in a pool's queue. */
  lemma CanPop(p: Pools.Pool, k: Pools.CallId) returns (entry: Option<Pools.Pooled>)
    requires k !in p.calls && k !in p.leases
    ensures Pools.Enabled(p, Pools.Pop(k, entry))
  {
    entry := None;
    if p.queue != multiset{} {
      var e := MostRecent(p.queue);
      entry := Some(e);
    }
  }

  lemma {:induction false} MostRecent(queue: multiset<Pools.Pooled>) returns (e: Pools.Pooled)
    requires queue != multiset{}
    ensures Pools.MruQueues.IsMostRecent(queue, e)
    decreases |queue|
  {
    var d :| d in queue;
    e := d;
    var rest := queue - multiset{d};
    assert forall g :: g in queue ==> g == d || g in rest;
    if rest != multiset{} {
      var f := MostRecent(rest);
      if d.priority < f.priority {
        e := f;
      }
    }
  }

  /** The next action of a request that waits for a connection from pool i. */
  lemma CanAcquire(admitted: Admitted, s: System, r: RequestId, i: nat) returns (a: Action)
    requires WellFormed(s) && r in s.requests && s.requests[r].phase.Waiting? && i < |s.pools|
    ensures IsOwn(a, r) && a.Acquire? && a.i == i && Enabled(admitted, s, a)
  {
    var p := s.pools[i];
    var names := p.calls.Keys + p.leases.Keys + set l | l in s.owner.Keys :: l.call;
    var k := FreshName(names);
    assert Lease(i, k) in s.owner ==> k in names;
    var entry := CanPop(p, k);
    a := Acquire(r, i, k, entry);
  }

  lemma CanConnect(admitted: Admitted, s: System, r: RequestId) returns (a: Action)
    requires WellFormed(s) && r in s.requests && s.requests[r].phase.Connecting?
    ensures IsOwn(a, r) && !IsFailedDial(a, r) && Enabled(admitted, s, a)
  {
    assert RequestBound(s, s.requests[r]);
    var l := s.requests[r].phase.lease;
    var p := s.pools[l.pool];
    if p.calls[l.call].Dialing? {
      a := Connect(r, Pools.Dial(l.call, true));
    } else if Pools.Fresh(p.staleTimeout, p.calls[l.call].entry.priority, p.now) {
      a := Connect(r, Pools.Reuse(l.call));
    } else {
      a := Connect(r, Pools.Discard(l.call));
    }
  }

  // ---------- exactly when something helps ----------

  /** How far r is from its answer. */
  ghost function Distance(s: System, r: RequestId): nat
    requires r in s.requests
  {
    2 * Rank(s, s.requests[r].phase) + (if Unanswered(s, r) then 1 else 0)
  }

  /** The server has yet to answer r. */
  ghost predicate Unanswered(s: System, r: RequestId) {
    r in s.requests && s.requests[r].phase.Wrote? && exists w :: Uses(s, r, w) && s.wires[w].outbox == []
  }

  /** The action takes r closer to its answer and keeps its bytes and its budget. */
  ghost predicate Advances(s: System, t: System, r: RequestId) {
    && r in s.requests && r in t.requests && t.requests[r].bytes == s.requests[r].bytes
    && t.requests[r].retries == s.requests[r].retries && !t.requests[r].phase.GaveUp?
    && Distance(t, r) < Distance(s, r)
  }

  /** A connection for r from pool i, or a step of getting one. */
  lemma HelpConnecting(admitted: Admitted, s: System, r: RequestId, i: nat) returns (a: Action)
    requires WellFormed(s) && r in s.requests && i < |s.pools|
    requires s.requests[r].phase.Waiting? || s.requests[r].phase.Connecting?
    ensures Helps(admitted, s, r, a) && Advances(s, Apply(admitted, s, a), r) && (a.Acquire? ==> a.i == i)
  {
    if s.requests[r].phase.Waiting? {
      a := CanAcquire(admitted, s, r, i);
    } else {
      a := CanConnect(admitted, s, r);
      ConnectBilled(admitted, s, r, a);
    }
  }

  /** The inbox of a request that is not stuck and not answered yet is what it wrote. */
  lemma AskedAlone(admitted: Admitted, s: System, wire: Wire, r: RequestId, q: seq<byte>)
    requires ProxyAnswers.Asked(admitted, s, wire, r, q) && wire.outbox == [] && !WaitsInVain(wire, q)
    ensures HasFrame(Erase(wire.inbox))
  {
    assert wire.inbox == Tag(q, r);
    ProxyAnswers.EraseTag(q, r);
  }

  lemma HelpWrote(known: Admitted, admitted: Admitted, s: System, r: RequestId, w: WireId) returns (a: Action)
    requires WellFormed(s) && Uses(s, r, w) && s.requests[r].phase.Wrote? && !Stuck(s, r)
    requires ProxyAnswers.Asked(known, s, s.wires[w], r, s.requests[r].bytes)
    ensures Helps(admitted, s, r, a) && Advances(s, Apply(admitted, s, a), r) && !a.Acquire?
  {
    if s.wires[w].outbox == [] {
      AskedAlone(known, s, s.wires[w], r, s.requests[r].bytes);
      a := Serve(w, []);
      AnswerHelps(admitted, s, r, w);
    } else {
      a := ReadHeader(r, 2, true);
      FullHeaderHelps(admitted, s, r, w);
    }
  }

  lemma HelpTransaction(known: Admitted, admitted: Admitted, s: System, r: RequestId, w: WireId) returns (a: Action)
    requires WellFormed(s) && Uses(s, r, w) && !Stuck(s, r) && ProxyAnswers.RequestOk(known, s, r)
    ensures Helps(admitted, s, r, a) && Advances(s, Apply(admitted, s, a), r) && !a.Acquire?
  {
    match s.requests[r].phase
    case Holding(_) =>
      a := Write(r, |s.requests[r].bytes|, true);
      FullWriteHelps(admitted, s, r, w);
    case Wrote(_) => a := HelpWrote(known, admitted, s, r, w);
    case GotHeader(_, header) =>
      a := ReadBody(r, Uint16(header), true);
      assert |s.wires[w].outbox| == Uint16(header) by {
        var all := header + s.wires[w].outbox;
        assert all[0] == header[0] && all[1] == header[1];
      }
      FullBodyHelps(admitted, s, r, w);
  }

  /** A request that is not finished and not stuck can be helped, from whichever pool its balancer
      picks. */
  lemma HelpOnce(known: Admitted, admitted: Admitted, s: System, r: RequestId, i: nat) returns (a: Action)
    requires WellFormed(s) && r in s.requests && ProxyAnswers.RequestOk(known, s, r)
    requires !Finished(s.requests[r]) && !Stuck(s, r) && i < |s.pools|
    ensures Helps(admitted, s, r, a) && Advances(s, Apply(admitted, s, a), r) && (a.Acquire? ==> a.i == i)
  {
    if InTransaction(s.requests[r].phase) {
      var w := TransactionWire(s, r);
      a := HelpTransaction(known, admitted, s, r, w);
    } else {
      a := HelpConnecting(admitted, s, r, i);
    }
  }

  /** Nothing to read yet: reading the header fails. */
  lemma EmptyReadFails(admitted: Admitted, s: System, r: RequestId, w: WireId, a: Action)
    requires WellFormed(s) && Uses(s, r, w) && s.wires[w].outbox == [] && a.ReadHeader? && a.r == r && Enabled(admitted, s, a)
    ensures IsFailure(admitted, s, a)
  {
    HeaderOutcome(admitted, s, a);
  }

  /** The server cannot make a message of what it has. */
  lemma NothingToServe(known: Admitted, s: System, wire: Wire, r: RequestId, q: seq<byte>)
    requires q in known && ProxyAnswers.Asked(known, s, wire, r, q) && WaitsInVain(wire, q)
    ensures !HasFrame(Erase(wire.inbox))
  {
    var n := |wire.inbox| - |q|;
    var before := wire.inbox[..n];
    assert wire.inbox == before + Tag(q, r);
    if HasFrame(Erase(wire.inbox)) {
      ProxyAnswers.OnlyFromEmpty(known, before, q, r);
      ProxyAnswers.EraseTag(q, r);
    }
  }

  lemma StuckHelpless(admitted: Admitted, s: System, r: RequestId, w: WireId, a: Action)
    requires WellFormed(s) && Uses(s, r, w) && s.requests[r].phase.Wrote?
    requires s.wires[w].outbox == [] && !HasFrame(Erase(s.wires[w].inbox))
    ensures !Helps(admitted, s, r, a)
  {
    if a.ReadHeader? && a.r == r && Enabled(admitted, s, a) {
      EmptyReadFails(admitted, s, r, w, a);
    }
  }

  /** No deadlock. If admitted requests are self-contained, a request that is not finished can be
      helped, by an action of its own that is no failure or by the server's answer, exactly if it
      is not stuck: with any pool its balancer picks, and without giving up. One that is finished
      takes no more actions. */
  lemma NeverStuck(admitted: Admitted, s0: System, run: seq<Action>, s: System, r: RequestId, i: nat)
    requires ProxyAnswers.SelfContained(admitted) && ProxyAnswers.Reaches(admitted, s0, run, s)
    requires r in s.requests && i < |s.pools|
    ensures !Finished(s.requests[r]) ==>
              ((exists a :: Helps(admitted, s, r, a) && (a.Acquire? ==> a.i == i)) <==> !Stuck(s, r))
    ensures Finished(s.requests[r]) ==> forall a :: IsOwn(a, r) ==> !Enabled(admitted, s, a)
  {
    ProxyAnswers.InitialInv(admitted, s0);
    ProxyAnswers.InvRun(admitted, s0, run);
    assert ProxyAnswers.RequestOk(admitted, s, r);
    if !Finished(s.requests[r]) {
      if Stuck(s, r) {
        var w :| Uses(s, r, w) && WaitsInVain(s.wires[w], s.requests[r].bytes);
        NothingToServe(admitted, s, s.wires[w], r, s.requests[r].bytes);
        forall a
          ensures !Helps(admitted, s, r, a)
        {
          StuckHelpless(admitted, s, r, w, a);
        }
      } else {
        var a := HelpOnce(admitted, admitted, s, r, i);
      }
    }
  }

  /** Among requests of at most one message, stuck is exactly who wrote less than one. */
  lemma StuckIsIncomplete(s: System, r: RequestId)
    requires WellFormed(s) && r in s.requests && ProxyAnswers.RequestOk(OneMessages(), s, r)
    ensures Stuck(s, r) <==> s.requests[r].phase.Wrote? && !HasFrame(s.requests[r].bytes)
  {
    if s.requests[r].phase.Wrote? {
      var w := TransactionWire(s, r);
      AskedInFull(s, s.wires[w], r, s.requests[r].bytes);
    }
  }

  lemma AskedInFull(s: System, wire: Wire, r: RequestId, q: seq<byte>)
    requires ProxyAnswers.Asked(OneMessages(), s, wire, r, q)
    ensures wire.outbox == [] ==> |wire.inbox| == |q|
    ensures !HasFrame(q) ==> wire.outbox == []
  {
    if wire.outbox == [] {
      NoDeadEnds(Erase(wire.inbox[..|wire.inbox| - |q|]));
    }
  }

  // ---------- exactly who is served ----------

  predicate IsIo(a: Action, r: RequestId) {
    (a.Write? || a.ReadHeader? || a.ReadBody?) && a.r == r
  }

  /** On a dead connection r's reads and writes fail, and otherwise what happens is a help to r. */
  ghost predicate Prescribed(admitted: Admitted, s: System, a: Action, dead: set<WireId>, r: RequestId)
    requires WellFormed(s)
  {
    if IsIo(a, r) && exists w :: w in dead && Uses(s, r, w) then Enabled(admitted, s, a) && IsFailure(admitted, s, a)
    else Helps(admitted, s, r, a)
  }

  /** A continuation in which transactions of r fail on dead connections and only there, no dial of
      r fails, and r is not given up for lack of a connection. */
  ghost predicate FailsOnDead(admitted: Admitted, s: System, run: seq<Action>, dead: set<WireId>, r: RequestId)
    requires WellFormed(s) && Legal(admitted, s, run)
    decreases |run|
  {
    run == [] ||
    (Prescribed(admitted, s, run[0], dead, r) &&
     (WellFormedStep(admitted, s, run[0]); FailsOnDead(admitted, Apply(admitted, s, run[0]), run[1..], dead, r)))
  }

  /** The transaction of r fails at once. */
  lemma FailNow(admitted: Admitted, s: System, r: RequestId, w: WireId) returns (a: Action)
    requires WellFormed(s) && Uses(s, r, w) && (s.requests[r].phase.GotHeader? ==> |s.requests[r].phase.header| == 2)
    ensures IsIo(a, r) && Enabled(admitted, s, a) && IsFailure(admitted, s, a)
  {
    match s.requests[r].phase
    case Holding(_) =>
      a := Write(r, 0, false);
      WriteOutcome(admitted, s, a);
    case Wrote(_) =>
      a := ReadHeader(r, 0, false);
      HeaderOutcome(admitted, s, a);
    case GotHeader(_, _) =>
      a := ReadBody(r, 0, false);
      BodyOutcome(admitted, s, a);
  }

  /** A failure costs a retry. */
  lemma RetriesAfterFailure(s: System, t: System, r: RequestId)
    requires Fails(s, t, r) && s.requests[r].retries > 0
    ensures r in t.requests && t.requests[r].retries == s.requests[r].retries - 1
    ensures t.requests[r].bytes == s.requests[r].bytes && t.requests[r].phase.Waiting?
  {
  }

  /** What has to hold for r to be served although these connections are dead. */
  ghost predicate Servable(s: System, dead: set<WireId>, r: RequestId) {
    && ProxyAnswers.Inv(OneMessages(), s) && |s.pools| > 0 && dead <= s.wires.Keys
    && r in s.requests && HasFrame(s.requests[r].bytes) && !s.requests[r].phase.GaveUp?
    && s.requests[r].retries >= |UsableAmong(s, dead)|
  }

  /** The next action for r, which keeps it servable. */
  lemma ServeOnce(admitted: Admitted, s: System, dead: set<WireId>, r: RequestId) returns (a: Action)
    requires admitted <= OneMessages() && Servable(s, dead, r) && !Finished(s.requests[r])
    ensures WellFormed(s) && Enabled(admitted, s, a) && !a.Arrive? && Prescribed(admitted, s, a, dead, r)
    ensures var t := Apply(admitted, s, a);
            && r in t.requests && t.requests[r].bytes == s.requests[r].bytes && !t.requests[r].phase.GaveUp?
            && (if IsFailure(admitted, s, a) then t.requests[r].retries == s.requests[r].retries - 1
                else t.requests[r].retries == s.requests[r].retries && Distance(t, r) < Distance(s, r))
            && (IsFailure(admitted, s, a) ==> a.r == r && exists w :: w in dead && Uses(s, r, w))
  {
    assert ProxyAnswers.RequestOk(OneMessages(), s, r);
    if w :| w in dead && Uses(s, r, w) {
      a := FailNow(admitted, s, r, w);
      FailureUsesUp(s, Apply(admitted, s, a), r);
      assert w in UsableAmong(s, dead);
      RetriesAfterFailure(s, Apply(admitted, s, a), r);
    } else {
      StuckIsIncomplete(s, r);
      a := HelpOnce(OneMessages(), admitted, s, r, 0);
    }
  }

  lemma PoolsKept(admitted: Admitted, s: System, a: Action)
    requires WellFormed(s) && Enabled(admitted, s, a)
    ensures |Apply(admitted, s, a).pools| == |s.pools|
  {
  }

  lemma StaysServable(admitted: Admitted, s: System, dead: set<WireId>, r: RequestId, a: Action)
    requires admitted <= OneMessages() && Servable(s, dead, r) && Enabled(admitted, s, a)
    requires var t := Apply(admitted, s, a);
             && r in t.requests && t.requests[r].bytes == s.requests[r].bytes && !t.requests[r].phase.GaveUp?
             && t.requests[r].retries >= s.requests[r].retries - (if IsFailure(admitted, s, a) then 1 else 0)
             && (IsFailure(admitted, s, a) ==> a.r == r && exists w :: w in dead && Uses(s, r, w))
    ensures Servable(Apply(admitted, s, a), dead, r)
    ensures |UsableAmong(Apply(admitted, s, a), dead)| + (if IsFailure(admitted, s, a) then 1 else 0) <= |UsableAmong(s, dead)|
  {
    EnabledMore(admitted, OneMessages(), s, a);
    OneMessagesContained();
    ProxyAnswers.InvStep(OneMessages(), s, a);
    PoolsKept(admitted, s, a);
    WiresGrow(admitted, s, a);
    UsableStep(admitted, s, a, dead);
  }

  /** A continuation that serves r. */
  lemma {:induction false} ServeRequest(admitted: Admitted, s: System, dead: set<WireId>, r: RequestId)
    returns (run: seq<Action>)
    requires admitted <= OneMessages() && Servable(s, dead, r)
    ensures WellFormed(s) && Legal(admitted, s, run) && FailsOnDead(admitted, s, run, dead, r)
    ensures r in After(admitted, s, run).requests && After(admitted, s, run).requests[r].phase.Answered?
    decreases |UsableAmong(s, dead)|, Distance(s, r)
  {
    run := [];
    if !s.requests[r].phase.Answered? {
      var a := ServeOnce(admitted, s, dead, r);
      StaysServable(admitted, s, dead, r, a);
      WellFormedStep(admitted, s, a);
      var rest := ServeRequest(admitted, Apply(admitted, s, a), dead, r);
      run := [a] + rest;
      assert run[1..] == rest;
    }
  }

  /** r can be served from s on without any failure. */
  ghost predicate CanBeServed(admitted: Admitted, s: System, r: RequestId)
    requires WellFormed(s)
  {
    exists run :: Legal(admitted, s, run) && FailsOnDead(admitted, s, run, {}, r) &&
                  r in After(admitted, s, run).requests && After(admitted, s, run).requests[r].phase.Answered?
  }

  /** Over requests of at most one message, from every state that a run can lead to, a request that
      has not given up can be served without any failed transaction, failed dial or lack of a
      connection, if and only if it is a whole message. */
  lemma ServedExactly(admitted: Admitted, s0: System, before: seq<Action>, s: System, r: RequestId)
    requires admitted <= OneMessages() && ProxyAnswers.Reaches(admitted, s0, before, s)
    requires r in s.requests && !s.requests[r].phase.GaveUp? && |s.pools| > 0
    ensures CanBeServed(admitted, s, r) <==> HasFrame(s.requests[r].bytes)
  {
    ReachedOneMessages(admitted, s0, before, s);
    if HasFrame(s.requests[r].bytes) {
      assert UsableAmong(s, {}) == {};
      var run := ServeRequest(admitted, s, {}, r);
    } else if CanBeServed(admitted, s, r) {
      var run :| Legal(admitted, s, run) && r in After(admitted, s, run).requests &&
                 After(admitted, s, run).requests[r].phase.Answered?;
      AnsweredIsWhole(admitted, s, run, r);
    }
  }

  /** Whatever else happens, only whole messages are answered. */
  lemma AnsweredIsWhole(admitted: Admitted, s: System, run: seq<Action>, r: RequestId)
    requires admitted <= OneMessages() && ProxyAnswers.Inv(OneMessages(), s) && Legal(admitted, s, run)
    requires r in s.requests && r in After(admitted, s, run).requests
    requires After(admitted, s, run).requests[r].phase.Answered?
    ensures HasFrame(s.requests[r].bytes)
  {
    LegalMore(admitted, OneMessages(), s, run);
    OneMessagesContained();
    ProxyAnswers.InvRun(OneMessages(), s, run);
    var t := After(admitted, s, run);
    assert ProxyAnswers.RequestOk(OneMessages(), t, r);
    BytesKept(admitted, s, run, r);
  }

  lemma {:induction false} BytesKept(admitted: Admitted, s: System, run: seq<Action>, r: RequestId)
    requires WellFormed(s) && Legal(admitted, s, run) && r in s.requests
    ensures r in After(admitted, s, run).requests && After(admitted, s, run).requests[r].bytes == s.requests[r].bytes
    decreases |run|
  {
    if run != [] {
      WellFormedStep(admitted, s, run[0]);
      BytesStep(admitted, s, run[0], r);
      BytesKept(admitted, Apply(admitted, s, run[0]), run[1..], r);
    }
  }

  lemma BytesStep(admitted: Admitted, s: System, a: Action, r: RequestId)
    requires WellFormed(s) && Enabled(admitted, s, a) && r in s.requests
    ensures r in Apply(admitted, s, a).requests && Apply(admitted, s, a).requests[r].bytes == s.requests[r].bytes
  {
    if a.Write? || a.ReadHeader? || a.ReadBody? {
      IoOutcome(admitted, s, a);
    }
  }

  // ---------- recovery ----------

  /** What is left of the budget covers the dead connections that are still usable. */
  lemma BudgetLeft(admitted: Admitted, s: System, run: seq<Action>, dead: set<WireId>, r: RequestId)
    requires Inv(s) && Legal(admitted, s, run) && dead <= s.wires.Keys && WorkingRun(admitted, s, run, dead, r)
    requires r in s.requests && s.requests[r].phase.Waiting? && s.requests[r].failed == []
    ensures var t := After(admitted, s, run);
            && Failures(admitted, s, run) <= |UsableAmong(s, dead)|
            && r in t.requests && |t.requests[r].failed| <= |UsableAmong(s, dead)|
            && (Budget(s.requests[r].configured) >= |UsableAmong(s, dead)| ==>
                  !t.requests[r].phase.GaveUp? && t.requests[r].retries >= |UsableAmong(t, dead)|)
  {
    FailuresUseUpDead(admitted, s, run, dead, r);
    InvRun(admitted, s, run);
    assert RequestInv(After(admitted, s, run), r);
  }

  /** Where the run leads, r can still be served. */
  lemma StillServable(admitted: Admitted, s: System, run: seq<Action>, dead: set<WireId>, r: RequestId)
    requires admitted <= OneMessages() && ProxyAnswers.Inv(OneMessages(), s) && Legal(admitted, s, run)
    requires dead <= s.wires.Keys && |s.pools| > 0 && r in s.requests && HasFrame(s.requests[r].bytes)
    requires var t := After(admitted, s, run);
             r in t.requests && !t.requests[r].phase.GaveUp? && t.requests[r].retries >= |UsableAmong(t, dead)|
    ensures Servable(After(admitted, s, run), dead, r)
  {
    LegalMore(admitted, OneMessages(), s, run);
    OneMessagesContained();
    ProxyAnswers.InvRun(OneMessages(), s, run);
    BytesKept(admitted, s, run, r);
    ConnectionsKept(admitted, s, run);
  }

  lemma {:induction false} ConnectionsKept(admitted: Admitted, s: System, run: seq<Action>)
    requires WellFormed(s) && Legal(admitted, s, run)
    ensures |After(admitted, s, run).pools| == |s.pools| && s.wires.Keys <= After(admitted, s, run).wires.Keys
    decreases |run|
  {
    if run != [] {
      WellFormedStep(admitted, s, run[0]);
      PoolsKept(admitted, s, run[0]);
      WiresGrow(admitted, s, run[0]);
      ConnectionsKept(admitted, Apply(admitted, s, run[0]), run[1..]);
    }
  }

  /** Recovery. From any state on, if transactions fail only on connections that were dead then and
      the request never fails to get a connection, all requests together suffer at most as many
      failures as dead connections were still usable. A request whose budget is no smaller does not
      give up and is answered, or has yet to take its six actions per dead connection and six more.
      If requests are of at most one message and this one is a whole message, it is served: wherever
      the run has led, it can be continued to its answer, with every transaction of the request on
      a dead connection failing and no other. This holds for every choice of pools, so for every
      balancing policy. */
  lemma RecoversFromDead(admitted: Admitted, s0: System, before: seq<Action>, run: seq<Action>, dead: set<WireId>, r: RequestId)
    returns (rest: seq<Action>)
    requires Initial(s0) && WellFormed(s0) && Legal(admitted, s0, before)
    requires var s := After(admitted, s0, before);
             && Legal(admitted, s, run) && dead <= s.wires.Keys && WorkingRun(admitted, s, run, dead, r)
             && r in s.requests && s.requests[r].phase.Waiting? && s.requests[r].failed == []
    ensures var s := After(admitted, s0, before);
            var t := After(admitted, s, run);
            var usable := |UsableAmong(s, dead)|;
            && Failures(admitted, s, run) <= usable
            && r in t.requests && |t.requests[r].failed| <= usable
            && ((if s.requests[r].configured > 0 then s.requests[r].configured else 16) >= usable ==>
                  && !t.requests[r].phase.GaveUp?
                  && (t.requests[r].phase.Answered? || OwnActions(run, r) < ActionLimit(usable, FailedDials(run, r)))
                  && (admitted <= OneMessages() && HasFrame(s.requests[r].bytes) && |s.pools| > 0 ==>
                        && Legal(admitted, t, rest) && FailsOnDead(admitted, t, rest, dead, r)
                        && r in After(admitted, t, rest).requests
                        && After(admitted, t, rest).requests[r].phase.Answered?))
  {
    var s := After(admitted, s0, before);
    ProxyRetries.InvRun(admitted, s0, before);
    BudgetLeft(admitted, s, run, dead, r);
    RequestEnds(admitted, s0, before, run, r);
    rest := [];
    if Budget(s.requests[r].configured) >= |UsableAmong(s, dead)| && admitted <= OneMessages() &&
       HasFrame(s.requests[r].bytes) && |s.pools| > 0
    {
      ReachedOneMessages(admitted, s0, before, s);
      StillServable(admitted, s, run, dead, r);
      rest := ServeRequest(admitted, After(admitted, s, run), dead, r);
    }
  }

  // ---------- leftovers ----------

  /** A request that leaves something over can leave any later one stuck, whole message or not. */
  lemma LeftoverPoisons(admitted: Admitted, q1: seq<byte>, q2: seq<byte>) returns (s: System)
    requires q1 in admitted && q2 in admitted && HasFrame(q1) && Rest(q1) != []
    ensures ProxyCrossing.CanReach(admitted, s) && Stuck(s, 2) && s.requests[2].bytes == q2
  {
    var s1 := ProxyCrossing.FirstAnswered(admitted, q1);
    var s2 := ProxyCrossing.SecondHolds(admitted, s1, q2);
    s := ProxyCrossing.TakeWrite(admitted, s2, 2, ProxyCrossing.W);
    assert Uses(s, 2, ProxyCrossing.W) && WaitsInVain(s.wires[ProxyCrossing.W], q2);
  }

  /** Only requests of less than one message are ever stuck: no whole message comes after bytes that
      another request left over. */
  ghost predicate WholeNeverStuck(admitted: Admitted) {
    forall s, r :: ProxyCrossing.CanReach(admitted, s) && Stuck(s, r) ==> !HasFrame(s.requests[r].bytes)
  }

  /** That is so if and only if all requests are of at most one message. */
  lemma PoisonCondition(admitted: Admitted)
    ensures WholeNeverStuck(admitted) <==> admitted <= OneMessages()
  {
    if admitted <= OneMessages() {
      forall s, r | ProxyCrossing.CanReach(admitted, s) && Stuck(s, r)
        ensures !HasFrame(s.requests[r].bytes)
      {
        var s0, run :| ProxyAnswers.Reaches(admitted, s0, run, s);
        ReachedOneMessages(admitted, s0, run, s);
        assert ProxyAnswers.RequestOk(OneMessages(), s, r);
        StuckIsIncomplete(s, r);
      }
    } else {
      var q :| q in admitted && q !in OneMessages();
      var s := LeftoverPoisons(admitted, q, q);
      assert ProxyCrossing.CanReach(admitted, s) && Stuck(s, 2);
    }
  }

  const LONG: seq<byte> := [0, 0, 255, 255]
  const SHORT: seq<byte> := [0, 0]

  lemma LongAndShort()
    ensures ProxyAnswers.SelfContained(iset{LONG, SHORT}) && LONG !in OneMessages()
  {
    assert HasFrame(LONG) && Rest(LONG) == [255, 255] && OneFrame(SHORT);
    assert (Rest(LONG) + LONG)[0] == 255 && (Rest(LONG) + SHORT)[0] == 255;
  }

  /** Requests that never cross answers can still leave each other stuck: after a message and the
      header of a long one, a whole message waits for the rest of the long one. */
  lemma PoisonExample()
    ensures ProxyAnswers.SelfContained(iset{LONG, SHORT}) && !WholeNeverStuck(iset{LONG, SHORT})
  {
    LongAndShort();
    assert LONG in iset{LONG, SHORT};
    PoisonCondition(iset{LONG, SHORT});
  }
}
