/** The proxy with its clients: what Handle in internal/protocol/dns_proxy.go reads from a client
    becomes a request of ProxyProtocol, and what it writes back goes to that client, over every
    interleaving of any number of clients. */
module ProxyClients {
  import opened Collections
  import opened Wrappers
  import opened Framing
  import opened ProxyProtocol
  import ProxyAnswers
  import ProxyCrossing
  import opened ProxyHandler

  type Addr = nat

  /** A client, and what arrived from it. */
  datatype Client = Client(transport: Transport, addr: Addr, arrived: seq<byte>)

  /** Bytes written to a client on behalf of request r. */
  datatype Delivery = Delivery(r: RequestId, addr: Addr, data: seq<byte>)

  datatype Proxy = Proxy(system: System, clients: map<RequestId, Client>, sent: seq<Delivery>)

  /** Deliver writes the first n bytes of the response; a datagram is sent whole. */
  datatype Event =
    | Receive(r: RequestId, client: Client, configured: int)
    | Inside(a: Action)
    | Deliver(r: RequestId, n: nat)

  /** What the proxy writes upstream for a client. */
  function Written(client: Client): seq<byte> {
    UpstreamRequest(client.transport, ClientRead(client.arrived))
  }

  predicate HasResponse(s: System, r: RequestId) {
    r in s.requests && s.requests[r].phase.Answered? && |s.requests[r].phase.response| >= 2
  }

  /** What the proxy has to say to a client. */
  function ResponseFor(p: Proxy, r: RequestId): seq<byte>
    requires HasResponse(p.system, r) && r in p.clients
  {
    ClientResponse(p.clients[r].transport, p.system.requests[r].phase.response)
  }

  /** What clients of each kind may cause the proxy to write upstream. Both kinds are served by the
      same handler, over the same pools. */
  datatype Traffic = Traffic(udp: Admitted, tcp: Admitted)

  ghost function All(traffic: Traffic): Admitted {
    traffic.udp + traffic.tcp
  }

  ghost predicate Allows(traffic: Traffic, client: Client) {
    Written(client) in (if client.transport == UDP then traffic.udp else traffic.tcp)
  }

  ghost predicate Possible(traffic: Traffic, p: Proxy, e: Event)
    requires WellFormed(p.system)
  {
    match e
    case Receive(r, client, configured) => r !in p.system.requests && Allows(traffic, client)
    case Inside(a) => !a.Arrive? && Enabled(All(traffic), p.system, a)
    case Deliver(r, n) =>
      && HasResponse(p.system, r) && r in p.clients && n <= |ResponseFor(p, r)|
      && (p.clients[r].transport == UDP ==> n == |ResponseFor(p, r)|)
      && forall m :: m in p.sent ==> m.r != r
  }

  ghost function Next(traffic: Traffic, p: Proxy, e: Event): (q: Proxy)
    requires WellFormed(p.system) && Possible(traffic, p, e)
    ensures WellFormed(q.system)
  {
    match e
    case Receive(r, client, configured) =>
      var a := Arrive(r, Written(client), configured);
      WellFormedStep(All(traffic), p.system, a);
      p.(system := Apply(All(traffic), p.system, a), clients := p.clients[r := client])
    case Inside(a) =>
      WellFormedStep(All(traffic), p.system, a);
      p.(system := Apply(All(traffic), p.system, a))
    case Deliver(r, n) => p.(sent := p.sent + [Delivery(r, p.clients[r].addr, ResponseFor(p, r)[..n])])
  }

  /** The events lead from p to q. */
  ghost predicate Leads(traffic: Traffic, p: Proxy, events: seq<Event>, q: Proxy)
    requires WellFormed(p.system)
    decreases |events|
  {
    if events == [] then q == p
    else Possible(traffic, p, events[0]) && Leads(traffic, Next(traffic, p, events[0]), events[1..], q)
  }

  ghost predicate Starts(p: Proxy) {
    Initial(p.system) && WellFormed(p.system) && p.clients == map[] && p.sent == []
  }

  // ---------- deliveries belong to their clients ----------

  /** Requests keep their bytes, and an answered one its answer. */
  lemma RequestKept(admitted: Admitted, s: System, a: Action, r: RequestId)
    requires WellFormed(s) && Enabled(admitted, s, a) && r in s.requests
    ensures var t := Apply(admitted, s, a);
            && r in t.requests && t.requests[r].bytes == s.requests[r].bytes
            && (s.requests[r].phase.Answered? ==> t.requests[r].phase == s.requests[r].phase)
  {
    if a.Write? || a.ReadHeader? || a.ReadBody? {
      IoOutcome(admitted, s, a);
      OutcomeKeeps(s, Apply(admitted, s, a), a.r, r);
    }
  }

  lemma OutcomeKeeps(s: System, t: System, r: RequestId, r': RequestId)
    requires (Progresses(s, t, r) || Fails(s, t, r) || Succeeds(s, t, r)) && r' in s.requests
    ensures r' in t.requests && t.requests[r'].bytes == s.requests[r'].bytes
    ensures s.requests[r'].phase.Answered? ==> t.requests[r'].phase == s.requests[r'].phase
  {
  }

  /** The request of a client is what it sent. */
  ghost predicate ClientOk(p: Proxy, r: RequestId) {
    r in p.clients ==> r in p.system.requests && p.system.requests[r].bytes == Written(p.clients[r])
  }

  /** A delivery went to the client of its request and is the response, or part of it over TCP. */
  ghost predicate DeliveryOk(p: Proxy, m: Delivery) {
    && m.r in p.clients && m.addr == p.clients[m.r].addr && HasResponse(p.system, m.r)
    && m.data <= ResponseFor(p, m.r)
    && (p.clients[m.r].transport == UDP ==> m.data == ResponseFor(p, m.r))
  }

  ghost predicate Inv(admitted: Admitted, p: Proxy) {
    && ProxyCrossing.CanReach(admitted, p.system)
    && (forall r :: ClientOk(p, r))
    && (forall m :: m in p.sent ==> DeliveryOk(p, m))
    && (forall i, j :: 0 <= i < j < |p.sent| ==> p.sent[i].r != p.sent[j].r)
  }

  /** An action of the system leaves clients and deliveries as they are. */
  lemma InsideStep(admitted: Admitted, p: Proxy, a: Action, q: Proxy)
    requires Inv(admitted, p) && WellFormed(p.system) && Enabled(admitted, p.system, a)
    requires q == p.(system := Apply(admitted, p.system, a))
    ensures Inv(admitted, q)
  {
    var _ := ProxyCrossing.Take(admitted, p.system, a);
    forall r
      ensures ClientOk(q, r)
    {
      if r in p.clients {
        assert ClientOk(p, r);
        RequestKept(admitted, p.system, a, r);
      }
    }
    forall m | m in q.sent
      ensures DeliveryOk(q, m)
    {
      assert DeliveryOk(p, m);
      RequestKept(admitted, p.system, a, m.r);
    }
  }

  lemma ReceiveStep(traffic: Traffic, p: Proxy, e: Event)
    requires Inv(All(traffic), p) && WellFormed(p.system) && e.Receive? && Possible(traffic, p, e)
    ensures Inv(All(traffic), Next(traffic, p, e))
  {
    var a := Arrive(e.r, Written(e.client), e.configured);
    var p' := p.(system := Apply(All(traffic), p.system, a));
    InsideStep(All(traffic), p, a, p');
    var q := Next(traffic, p, e);
    assert ClientOk(p, e.r);
    forall r
      ensures ClientOk(q, r)
    {
      assert ClientOk(p', r);
    }
    forall m | m in q.sent
      ensures DeliveryOk(q, m)
    {
      assert DeliveryOk(p, m) && DeliveryOk(p', m);
    }
  }

  lemma DeliverStep(traffic: Traffic, p: Proxy, e: Event)
    requires Inv(All(traffic), p) && WellFormed(p.system) && e.Deliver? && Possible(traffic, p, e)
    ensures Inv(All(traffic), Next(traffic, p, e))
  {
    var q := Next(traffic, p, e);
    forall r
      ensures ClientOk(q, r)
    {
      assert ClientOk(p, r);
    }
    forall m | m in q.sent
      ensures DeliveryOk(q, m)
    {
      if m in p.sent {
        assert DeliveryOk(p, m);
      }
    }
  }

  lemma InvStep(traffic: Traffic, p: Proxy, e: Event)
    requires Inv(All(traffic), p) && WellFormed(p.system) && Possible(traffic, p, e)
    ensures Inv(All(traffic), Next(traffic, p, e))
  {
    match e
    case Receive(_, _, _) => ReceiveStep(traffic, p, e);
    case Inside(a) => InsideStep(All(traffic), p, a, Next(traffic, p, e));
    case Deliver(_, _) => DeliverStep(traffic, p, e);
  }

  lemma {:induction false} InvRun(traffic: Traffic, p: Proxy, events: seq<Event>, q: Proxy)
    requires Inv(All(traffic), p) && WellFormed(p.system) && Leads(traffic, p, events, q)
    ensures Inv(All(traffic), q)
    decreases |events|
  {
    if events != [] {
      InvStep(traffic, p, events[0]);
      InvRun(traffic, Next(traffic, p, events[0]), events[1..], q);
    }
  }

  lemma LedInv(traffic: Traffic, p: Proxy, events: seq<Event>, q: Proxy)
    requires Starts(p) && Leads(traffic, p, events, q)
    ensures Inv(All(traffic), q)
  {
    assert ProxyAnswers.Reaches(All(traffic), p.system, [], p.system);
    InvRun(traffic, p, events, q);
  }

  ghost predicate Received(events: seq<Event>, r: RequestId, client: Client) {
    exists e :: e in events && e.Receive? && e.r == r && e.client == client
  }

  /** An event adds the client it receives and the delivery it makes, and nothing else. */
  lemma ClientsAfter(traffic: Traffic, p: Proxy, e: Event)
    requires WellFormed(p.system) && Possible(traffic, p, e)
    ensures var q := Next(traffic, p, e);
            && q.clients == (if e.Receive? then p.clients[e.r := e.client] else p.clients)
            && forall m :: m in q.sent ==> m in p.sent || e == Deliver(m.r, |m.data|)
  {
  }

  /** Clients are those that were received, and what was written to them was delivered. */
  lemma {:induction false} ClientsAreReceived(traffic: Traffic, p: Proxy, events: seq<Event>, q: Proxy)
    requires WellFormed(p.system) && Leads(traffic, p, events, q)
    ensures forall r :: r in q.clients ==>
              (r in p.clients && q.clients[r] == p.clients[r]) || Received(events, r, q.clients[r])
    ensures forall m :: m in q.sent ==> m in p.sent || Deliver(m.r, |m.data|) in events
    decreases |events|
  {
    if events != [] {
      var e, rest := events[0], events[1..];
      assert forall e :: e in rest ==> e in events;
      ClientsAfter(traffic, p, e);
      ClientsAreReceived(traffic, Next(traffic, p, e), rest, q);
    }
  }

  /** What the proxy writes upstream for a client, byte for byte: what arrived, cut off at 1024
      bytes, as it is for TCP, after its length in two bytes, most significant first, for UDP. */
  ghost predicate MadeOf(client: Client, request: seq<byte>) {
    var data := if |client.arrived| <= 1024 then client.arrived else client.arrived[..1024];
    request == if client.transport == TCP then data
               else [(|data| / 256) as byte, (|data| % 256) as byte] + data
  }

  lemma WrittenIsMadeOf(client: Client)
    ensures MadeOf(client, Written(client))
  {
  }

  /** The request of a client is made of what arrived from it. */
  lemma RequestIsWhatArrived(traffic: Traffic, p: Proxy, events: seq<Event>, q: Proxy, r: RequestId)
    requires Starts(p) && Leads(traffic, p, events, q) && r in q.clients
    ensures Received(events, r, q.clients[r])
    ensures r in q.system.requests && MadeOf(q.clients[r], q.system.requests[r].bytes)
  {
    LedInv(traffic, p, events, q);
    ClientsAreReceived(traffic, p, events, q);
    assert ClientOk(q, r);
    WrittenIsMadeOf(q.clients[r]);
  }

  // ---------- clients get the answers to their own questions ----------

  /** Some server answered the message of request r with reply. */
  ghost predicate Answers(s: System, r: RequestId, reply: seq<byte>) {
    && r in s.requests && HasFrame(s.requests[r].bytes) && OneFrame(reply)
    && Reply(Tag(FirstFrame(s.requests[r].bytes), r), reply) in s.log
  }

  /** What a client is given of a reply: over TCP the reply from its first byte on, header included,
      as far as the write got; over UDP all of it but the two bytes of the header. */
  ghost predicate GivenOf(client: Client, data: seq<byte>, reply: seq<byte>) {
    if client.transport == TCP then |data| <= |reply| && data == reply[..|data|]
    else |reply| >= 2 && reply == reply[..2] + data
  }

  lemma GivenOfResponse(client: Client, data: seq<byte>, reply: seq<byte>)
    requires |reply| >= 2 && data <= ClientResponse(client.transport, reply)
    requires client.transport == UDP ==> data == ClientResponse(UDP, reply)
    ensures GivenOf(client, data, reply)
  {
  }

  /** End to end: if admitted requests are self-contained, whatever is written to a client comes
      from a reply to the message that this client sent, and each request is responded to at most
      once. */
  lemma ClientsGetOwnAnswers(traffic: Traffic, p: Proxy, events: seq<Event>, q: Proxy, i: nat)
    returns (reply: seq<byte>)
    requires ProxyAnswers.SelfContained(All(traffic)) && Starts(p) && Leads(traffic, p, events, q) && i < |q.sent|
    ensures var m := q.sent[i];
            && Deliver(m.r, |m.data|) in events
            && m.r in q.clients && m.addr == q.clients[m.r].addr
            && Answers(q.system, m.r, reply) && GivenOf(q.clients[m.r], m.data, reply)
    ensures forall j :: 0 <= j < |q.sent| && j != i ==> q.sent[j].r != q.sent[i].r
  {
    ClientsAreReceived(traffic, p, events, q);
    LedInv(traffic, p, events, q);
    reply := DeliveredIsOwn(All(traffic), q, q.sent[i]);
  }

  lemma DeliveredIsOwn(admitted: Admitted, q: Proxy, m: Delivery) returns (reply: seq<byte>)
    requires ProxyAnswers.SelfContained(admitted) && Inv(admitted, q) && m in q.sent
    ensures m.r in q.clients && m.addr == q.clients[m.r].addr
    ensures Answers(q.system, m.r, reply) && GivenOf(q.clients[m.r], m.data, reply)
  {
    assert DeliveryOk(q, m) && ClientOk(q, m.r);
    reply := q.system.requests[m.r].phase.response;
    var s0, run :| ProxyAnswers.Reaches(admitted, s0, run, q.system);
    ProxyAnswers.NoCrossedAnswers(admitted, s0, run, q.system);
    GivenOfResponse(q.clients[m.r], m.data, reply);
  }

  /** The response to a datagram is the body of a reply to the message that carried it. */
  ghost predicate OwnDatagram(s: System, r: RequestId, arrived: seq<byte>, body: seq<byte>) {
    Reply(Tag(Encode(ClientRead(arrived)), r), Encode(body)) in s.log
  }

  /** This is the same as saying that the answer is the request's own. */
  lemma OwnUdpAnswer(s: System, r: RequestId, arrived: seq<byte>, response: seq<byte>)
    requires OneFrame(response)
    ensures OwnDatagram(s, r, arrived, ClientResponse(UDP, response)) <==>
            ProxyAnswers.OwnAnswer(s, r, UpstreamRequest(UDP, ClientRead(arrived)), response)
  {
    var request := UpstreamRequest(UDP, ClientRead(arrived));
    EncodeRoundTrip(ClientRead(arrived));
    assert FirstFrame(request) == request;
    EncodeBody(response);
  }

  /** A delivery to a UDP client went to its address and is the body of a reply to the message that
      carried its own datagram. */
  ghost predicate OwnDelivery(p: Proxy, m: Delivery)
    requires m.r in p.clients
  {
    m.addr == p.clients[m.r].addr && OwnDatagram(p.system, m.r, p.clients[m.r].arrived, m.data)
  }

  /** In no run of the proxy that serves all UDP clients and TCP clients with these requests does a
      UDP client get anything else. */
  ghost predicate UdpClientsSafeWith(tcp: Admitted) {
    forall p, events, q, i: nat :: UdpDelivery(tcp, p, events, q, i) ==> OwnDelivery(q, q.sent[i])
  }

  /** The i-th thing written to a client in this run is a datagram. */
  ghost predicate UdpDelivery(tcp: Admitted, p: Proxy, events: seq<Event>, q: Proxy, i: nat) {
    && Starts(p) && Leads(Shared(tcp), p, events, q) && i < |q.sent|
    && q.sent[i].r in q.clients && q.clients[q.sent[i].r].transport == UDP
  }

  /** All UDP clients, and TCP clients with these requests. */
  ghost function Shared(tcp: Admitted): Traffic {
    Traffic(ProxyCrossing.UdpRequests(), tcp)
  }

  lemma UdpDeliveryIsOwn(tcp: Admitted, p: Proxy, events: seq<Event>, q: Proxy, i: nat)
    requires ProxyAnswers.SelfContained(All(Shared(tcp))) && UdpDelivery(tcp, p, events, q, i)
    ensures OwnDelivery(q, q.sent[i])
  {
    LedInv(Shared(tcp), p, events, q);
    var m := q.sent[i];
    assert DeliveryOk(q, m) && ClientOk(q, m.r);
    var s0, run :| ProxyAnswers.Reaches(All(Shared(tcp)), s0, run, q.system);
    ProxyAnswers.NoCrossedAnswers(All(Shared(tcp)), s0, run, q.system);
    OwnUdpAnswer(q.system, m.r, q.clients[m.r].arrived, q.system.requests[m.r].phase.response);
  }

  // ---------- every run of the system is one of the proxy ----------

  /** Requests in the udp part come from UDP clients. */
  ghost predicate Known(traffic: Traffic, p: Proxy) {
    forall r :: r in p.system.requests ==>
      r in p.clients && (p.clients[r].transport == UDP <==> p.system.requests[r].bytes in traffic.udp)
      && Written(p.clients[r]) == p.system.requests[r].bytes
  }

  /** A client that causes this request. */
  lemma SomeClient(traffic: Traffic, q: seq<byte>) returns (client: Client)
    requires traffic.udp <= ProxyCrossing.UdpRequests() && traffic.tcp <= ProxyCrossing.TcpRequests() && q in All(traffic)
    ensures Allows(traffic, client) && Written(client) == q && (client.transport == UDP <==> q in traffic.udp)
  {
    if q in traffic.udp {
      assert q in ProxyCrossing.UdpRequests();
      var arrived: seq<byte> :| q == UpstreamRequest(UDP, ClientRead(arrived));
      client := Client(UDP, 0, arrived);
    } else {
      ProxyCrossing.TcpIsShort(q);
      client := Client(TCP, 0, q);
    }
  }

  lemma LiftStep(traffic: Traffic, p: Proxy, a: Action) returns (e: Event)
    requires traffic.udp <= ProxyCrossing.UdpRequests() && traffic.tcp <= ProxyCrossing.TcpRequests()
    requires WellFormed(p.system) && Known(traffic, p) && Enabled(All(traffic), p.system, a)
    ensures Possible(traffic, p, e) && Next(traffic, p, e).system == Apply(All(traffic), p.system, a)
    ensures Next(traffic, p, e).sent == p.sent && Known(traffic, Next(traffic, p, e))
  {
    if a.Arrive? {
      var client := SomeClient(traffic, a.bytes);
      e := Receive(a.r, client, a.configured);
    } else {
      e := Inside(a);
      RequestsKept(All(traffic), p.system, a);
    }
  }

  lemma RequestsKept(admitted: Admitted, s: System, a: Action)
    requires WellFormed(s) && Enabled(admitted, s, a) && !a.Arrive?
    ensures var t := Apply(admitted, s, a);
            && t.requests.Keys == s.requests.Keys
            && forall r :: r in s.requests ==> t.requests[r].bytes == s.requests[r].bytes
  {
    if a.Write? || a.ReadHeader? || a.ReadBody? {
      IoOutcome(admitted, s, a);
      OutcomeKeepsRequests(s, Apply(admitted, s, a), a.r);
    }
  }

  lemma OutcomeKeepsRequests(s: System, t: System, r: RequestId)
    requires Progresses(s, t, r) || Fails(s, t, r) || Succeeds(s, t, r)
    ensures t.requests.Keys == s.requests.Keys
    ensures forall r' :: r' in s.requests ==> t.requests[r'].bytes == s.requests[r'].bytes
  {
  }

  lemma {:induction false} LiftRun(traffic: Traffic, p: Proxy, run: seq<Action>) returns (events: seq<Event>, q: Proxy)
    requires traffic.udp <= ProxyCrossing.UdpRequests() && traffic.tcp <= ProxyCrossing.TcpRequests()
    requires WellFormed(p.system) && Known(traffic, p) && Legal(All(traffic), p.system, run)
    ensures Leads(traffic, p, events, q) && q.system == After(All(traffic), p.system, run)
    ensures q.sent == p.sent && Known(traffic, q)
    decreases |run|
  {
    events, q := [], p;
    if run != [] {
      var e := LiftStep(traffic, p, run[0]);
      var more;
      more, q := LiftRun(traffic, Next(traffic, p, e), run[1..]);
      events := [e] + more;
      assert events[1..] == more;
    }
  }

  lemma {:induction false} LeadsOneMore(traffic: Traffic, p: Proxy, events: seq<Event>, q: Proxy, e: Event)
    requires WellFormed(p.system) && Leads(traffic, p, events, q) && WellFormed(q.system) && Possible(traffic, q, e)
    ensures Leads(traffic, p, events + [e], Next(traffic, q, e))
    decreases |events|
  {
    if events == [] {
      assert events + [e] == [e] && [e][1..] == [];
    } else {
      LeadsOneMore(traffic, Next(traffic, p, events[0]), events[1..], q, e);
      TailAppend(events, e);
    }
  }

  /** The crossed answer is delivered. */
  lemma DeliverCrossed(tcp: Admitted, q: Proxy, u: seq<byte>)
    requires WellFormed(q.system) && Known(Shared(tcp), q) && q.sent == []
    requires u in ProxyCrossing.UdpRequests() && ProxyCrossing.Crossed(q.system, 2, u)
    ensures Possible(Shared(tcp), q, Deliver(2, 0))
    ensures var t := Next(Shared(tcp), q, Deliver(2, 0));
            && |t.sent| == 1 && t.sent[0].r == 2 && 2 in t.clients && t.clients[2].transport == UDP
            && !OwnDelivery(t, t.sent[0])
  {
    OwnUdpAnswer(q.system, 2, q.clients[2].arrived, ProxyCrossing.EMPTY_REPLY);
  }

  /** A run in which a UDP client gets what is not its own. */
  lemma CrossedDelivery(tcp: Admitted, s: System, u: seq<byte>) returns (p: Proxy, events: seq<Event>, q: Proxy)
    requires tcp <= ProxyCrossing.TcpRequests() && ProxyCrossing.CanReach(All(Shared(tcp)), s)
    requires u in ProxyCrossing.UdpRequests() && ProxyCrossing.Crossed(s, 2, u)
    ensures UdpDelivery(tcp, p, events, q, 0) && !OwnDelivery(q, q.sent[0])
  {
    var s0, run :| ProxyAnswers.Reaches(All(Shared(tcp)), s0, run, s);
    p := Proxy(s0, map[], []);
    var before, q' := LiftRun(Shared(tcp), p, run);
    DeliverCrossed(tcp, q', u);
    LeadsOneMore(Shared(tcp), p, before, q', Deliver(2, 0));
    events, q := before + [Deliver(2, 0)], Next(Shared(tcp), q', Deliver(2, 0));
  }

  /** End to end for UDP: over pools that are shared with these requests of TCP clients, every UDP
      client gets the whole body of a reply to its own datagram and nothing else, if and only if
      the requests of all clients together are self-contained. */
  lemma UdpClientsCondition(tcp: Admitted)
    requires tcp <= ProxyCrossing.TcpRequests()
    ensures UdpClientsSafeWith(tcp) <==> ProxyAnswers.SelfContained(ProxyCrossing.UdpRequests() + tcp)
  {
    var admitted := All(Shared(tcp));
    if ProxyAnswers.SelfContained(admitted) {
      forall p, events, q, i: nat | UdpDelivery(tcp, p, events, q, i)
        ensures OwnDelivery(q, q.sent[i])
      {
        UdpDeliveryIsOwn(tcp, p, events, q, i);
      }
    } else {
      var q1, q2 :| q1 in admitted && q2 in admitted && HasFrame(q1) && Rest(q1) != [] && HasFrame(Rest(q1) + q2);
      var u := ProxyCrossing.UdpCompletes(tcp, q1, q2);
      var s := ProxyCrossing.LeftoverCrosses(admitted, q1, u);
      var p, events, q := CrossedDelivery(tcp, s, u);
    }
  }

  /** Requests of at most one message leave nothing over. */
  lemma OneMessageEach(tcp: Admitted)
    requires forall q :: q in tcp ==> OneFrame(q) || !HasFrame(q)
    ensures ProxyAnswers.SelfContained(ProxyCrossing.UdpRequests() + tcp)
  {
    forall q | q in ProxyCrossing.UdpRequests()
      ensures OneFrame(q)
    {
      ProxyCrossing.UdpIsOneFrame(q);
    }
  }

  /** So without TCP clients, or with such as send one message per read, UDP clients are safe. */
  lemma UdpClientsSafe(tcp: Admitted)
    requires tcp <= ProxyCrossing.TcpRequests() && forall q :: q in tcp ==> OneFrame(q) || !HasFrame(q)
    ensures UdpClientsSafeWith(tcp)
  {
    OneMessageEach(tcp);
    UdpClientsCondition(tcp);
  }

  /** With the TCP listener open to everyone they are not. */
  lemma UdpClientsUnsafe()
    ensures !UdpClientsSafeWith(ProxyCrossing.TcpRequests())
  {
    UdpClientsCondition(ProxyCrossing.TcpRequests());
    ProxyCrossing.TcpCanCross();
    ProxyCrossing.OnlyFewerCross(ProxyCrossing.TcpRequests(), ProxyCrossing.UdpRequests() + ProxyCrossing.TcpRequests());
  }

  // ---------- Handle ----------

  /** Whatever is admitted, an answer is one message: its header and as many bytes as that says. */
  ghost predicate AnswersWhole(s: System) {
    forall r :: r in s.requests ==>
      && (s.requests[r].phase.GotHeader? ==> |s.requests[r].phase.header| == 2)
      && (s.requests[r].phase.Answered? ==> OneFrame(s.requests[r].phase.response))
  }

  lemma HeaderAndBody(header: seq<byte>, body: seq<byte>)
    requires |header| == 2 && |body| == Uint16(header)
    ensures OneFrame(header + body)
  {
    var w := header + body;
    assert w[0] == header[0] && w[1] == header[1];
  }

  lemma WholeAfterBody(admitted: Admitted, s: System, a: Action)
    requires WellFormed(s) && Enabled(admitted, s, a) && AnswersWhole(s) && a.ReadBody?
    ensures AnswersWhole(Apply(admitted, s, a))
  {
    var q := s.requests[a.r];
    var wire := s.wires[WireOf(s, q.phase.lease)];
    if a.n == Uint16(q.phase.header) {
      HeaderAndBody(q.phase.header, wire.outbox[..a.n]);
    }
  }

  lemma WholeAfterIo(admitted: Admitted, s: System, a: Action)
    requires WellFormed(s) && Enabled(admitted, s, a) && AnswersWhole(s) && (a.Write? || a.ReadHeader?)
    ensures AnswersWhole(Apply(admitted, s, a))
  {
  }

  lemma AnswersWholeStep(admitted: Admitted, s: System, a: Action)
    requires WellFormed(s) && Enabled(admitted, s, a) && AnswersWhole(s)
    ensures AnswersWhole(Apply(admitted, s, a))
  {
    if a.ReadBody? {
      WholeAfterBody(admitted, s, a);
    } else if a.Write? || a.ReadHeader? {
      WholeAfterIo(admitted, s, a);
    }
  }

  lemma {:induction false} AnswersWholeRun(admitted: Admitted, s: System, run: seq<Action>)
    requires WellFormed(s) && Legal(admitted, s, run) && AnswersWhole(s)
    ensures AnswersWhole(After(admitted, s, run))
    decreases |run|
  {
    if run != [] {
      WellFormedStep(admitted, s, run[0]);
      AnswersWholeStep(admitted, s, run[0]);
      AnswersWholeRun(admitted, Apply(admitted, s, run[0]), run[1..]);
    }
  }

  /** Handle for a UDP client, inside any run of the proxy in which r is the request made of its
      datagram, whatever other clients there are: what its UDPConn writes goes to the sender of the
      datagram, and it is the body of a reply to that datagram exactly if the answer is r's own. */
  method HandleUdpRequest(client: UdpConn<Addr>, datagram: seq<byte>, from: Addr, answer: Option<seq<byte>>,
                          readErr: bool, writeErr: bool, ghost admitted: Admitted, ghost s: System, ghost r: RequestId)
    returns (ok: bool)
    requires client.Valid() && client.remote == None && client.sent == []
    requires ProxyCrossing.CanReach(admitted, s) && r in s.requests
    requires s.requests[r].bytes == UpstreamRequest(UDP, ClientRead(datagram))
    requires answer == if HasResponse(s, r) then Some(s.requests[r].phase.response) else None
    modifies client
    ensures ok <==> !readErr && !writeErr && HasResponse(s, r)
    ensures !ok ==> client.sent == []
    ensures ok ==> |client.sent| == 1 && client.sent[0].0 == from
    ensures ok ==> (OwnDatagram(s, r, datagram, client.sent[0].1) <==>
                    ProxyAnswers.OwnAnswer(s, r, s.requests[r].bytes, s.requests[r].phase.response))
    ensures ok && ProxyAnswers.SelfContained(admitted) ==> OwnDatagram(s, r, datagram, client.sent[0].1)
  {
    if HasResponse(s, r) {
      DatagramAnswer(admitted, s, r, datagram);
      assert FirstFrame(answer.value) == answer.value;
    }
    var _, written := HandleUdp(client, datagram, from, answer, readErr, writeErr);
    return written;
  }

  lemma DatagramAnswer(admitted: Admitted, s: System, r: RequestId, datagram: seq<byte>)
    requires ProxyCrossing.CanReach(admitted, s) && HasResponse(s, r)
    requires s.requests[r].bytes == UpstreamRequest(UDP, ClientRead(datagram))
    ensures var response := s.requests[r].phase.response;
            && OneFrame(response)
            && (OwnDatagram(s, r, datagram, ClientResponse(UDP, response)) <==>
                ProxyAnswers.OwnAnswer(s, r, s.requests[r].bytes, response))
            && (ProxyAnswers.SelfContained(admitted) ==> OwnDatagram(s, r, datagram, ClientResponse(UDP, response)))
  {
    var s0, run :| ProxyAnswers.Reaches(admitted, s0, run, s);
    AnswersWholeRun(admitted, s0, run);
    OwnUdpAnswer(s, r, datagram, s.requests[r].phase.response);
    if ProxyAnswers.SelfContained(admitted) {
      ProxyAnswers.NoCrossedAnswers(admitted, s0, run, s);
    }
  }
}
