/** The reads and writes of one proxied request, as internal/protocol/dns_proxy.go and
    internal/network/conn.go perform them on their connections. How much a read or write moves,
    and whether it reports an error, is a parameter. */
module ProxyHandler {
  import opened Wrappers
  import opened Framing

  /** What one Read or Write did: the bytes it moved, and whether it returned an error. */
  datatype Io = Io(n: nat, err: bool)

  /** An upstream connection: what has been written to it, and what can be read from it. */
  class UpstreamConn {
    var sent: seq<byte>
    var unread: seq<byte>

    method Write(data: seq<byte>, io: Io)
      requires io.n <= |data|
      modifies this`sent
      ensures sent == old(sent) + data[..io.n]
    {
      sent := sent + data[..io.n];
    }

    method Read(size: nat, io: Io) returns (data: seq<byte>)
      requires io.n <= size && io.n <= |unread|
      modifies this`unread
      ensures data == old(unread)[..io.n] && unread == old(unread)[io.n..]
    {
      data := unread[..io.n];
      unread := unread[io.n..];
    }
  }

  /** The three outcomes fit the request and the bytes there are to read. */
  ghost predicate Possible(request: seq<byte>, unread: seq<byte>, write: Io, header: Io, body: Io) {
    && write.n <= |request| && header.n <= 2 && header.n <= |unread|
    && (header.n == 2 ==> body.n <= Uint16(unread) && body.n <= |unread| - 2)
  }

  predicate Complete(io: Io, size: nat) {
    !io.err && io.n == size
  }

  /** Write the request, read a header, read a body of the size it announces. It succeeds exactly
      if none of the three reports an error or falls short, and then it takes the first message
      out of the stream and returns it whole. */
  method UpstreamTransact(upstream: UpstreamConn, request: seq<byte>, write: Io, header: Io, body: Io)
    returns (r: Option<seq<byte>>)
    requires Possible(request, upstream.unread, write, header, body)
    modifies upstream
    ensures r.Some? <==>
            && Complete(write, |request|) && Complete(header, 2) && Complete(body, Uint16(old(upstream.unread)))
    ensures r.Some? ==>
              && HasFrame(old(upstream.unread)) && OneFrame(r.value)
              && r.value == FirstFrame(old(upstream.unread)) && upstream.unread == Rest(old(upstream.unread))
              && upstream.sent == old(upstream.sent) + request
    ensures upstream.sent == old(upstream.sent) + request[..write.n]
    ensures var taken := if !Complete(write, |request|) then 0 else if !Complete(header, 2) then header.n else 2 + body.n;
            taken <= |old(upstream.unread)| && upstream.unread == old(upstream.unread)[taken..]
    ensures r.Some? ==> |r.value| == 2 + r.value[0] as int * 256 + r.value[1] as int
  {
    ghost var before := upstream.unread;
    upstream.Write(request, write);
    if write.err || write.n != |request| {
      return None;
    }
    var h := upstream.Read(2, header);
    if header.err || header.n != 2 {
      return None;
    }
    var size := Uint16(h);
    assert size == Uint16(before);
    var data := upstream.Read(size, body);
    if body.err || body.n != size {
      return None;
    }
    assert h + data == FirstFrame(before);
    FirstFrameIsOne(before);
    return Some(h + data);
  }

  /** UDPConn: the first read ties the connection to the client it came from. */
  class UdpConn<Addr(==)> {
    var remote: Option<Addr>
    ghost var sent: seq<(Addr, seq<byte>)>

    /** Everything that was written went to the client the request came from. */
    ghost predicate Valid()
      reads this
    {
      forall m :: m in sent ==> remote == Some(m.0)
    }

    constructor ()
      ensures Valid() && remote == None && sent == []
    {
      remote := None;
      sent := [];
    }

    /** A second read is refused. The sender is remembered even if the read reports an error, and
        a datagram longer than the buffer is cut off. */
    method Read(size: nat, datagram: seq<byte>, from: Option<Addr>, err: bool) returns (r: Option<seq<byte>>)
      requires Valid()
      modifies this`remote
      ensures Valid()
      ensures old(remote).Some? ==> r == None && remote == old(remote)
      ensures old(remote).None? ==> remote == from
      ensures r.Some? <==> old(remote).None? && !err
      ensures r.Some? ==> r.value == if |datagram| <= size then datagram else datagram[..size]
    {
      if remote.Some? {
        return None;
      }
      remote := from;
      if err {
        return None;
      }
      return Some(if |datagram| <= size then datagram else datagram[..size]);
    }

    /** A write without a prior read is refused. */
    method Write(data: seq<byte>, err: bool) returns (ok: bool)
      requires Valid()
      modifies this`sent
      ensures Valid()
      ensures ok <==> remote.Some? && !err
      ensures sent == old(sent) + (if ok then [(remote.value, data)] else [])
    {
      if remote.None? || err {
        return false;
      }
      sent := sent + [(remote.value, data)];
      return true;
    }
  }

  /** Handle for a UDP client, given the answer to the request it wrote upstream: the upstream gets
      one message with the client's bytes as its body, and the client that sent them gets back the
      body of the answer and nothing else. */
  method HandleUdp<Addr(==)>(client: UdpConn<Addr>, datagram: seq<byte>, from: Addr,
                             answer: Option<seq<byte>>, readErr: bool, writeErr: bool)
    returns (request: Option<seq<byte>>, ok: bool)
    requires client.Valid() && client.remote == None && client.sent == []
    requires answer.Some? ==> OneFrame(answer.value)
    modifies client
    ensures request.Some? <==> !readErr
    ensures var data := if |datagram| <= 1024 then datagram else datagram[..1024];
            request.Some? ==>
              OneFrame(request.value) && request.value == [(|data| / 256) as byte, (|data| % 256) as byte] + data
    ensures ok <==> !readErr && answer.Some? && !writeErr
    ensures client.sent == if ok then [(from, answer.value[2..])] else []
  {
    var data := client.Read(CLIENT_BUFFER, datagram, Some(from), readErr);
    if data.None? {
      return None, false;
    }
    assert data.value == ClientRead(datagram);
    request := Some(UpstreamRequest(UDP, data.value));
    EncodeRoundTrip(data.value);
    assert FirstFrame(request.value) == request.value;
    if answer.None? {
      return request, false;
    }
    UdpFraming(datagram, answer.value);
    var response := ClientResponse(UDP, answer.value);
    assert FirstFrame(answer.value) == answer.value;
    ok := client.Write(response, writeErr);
  }
}
