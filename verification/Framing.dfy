/** Length-prefixed DNS messages (section 4.2.2 of RFC 1035) as internal/protocol/dns_proxy.go
    builds and reads them. */
module Framing {

  newtype byte = b: int | 0 <= b < 256

  datatype Transport = TCP | UDP

  /** The size of the buffer that a client request is read into. */
  const CLIENT_BUFFER: nat := 1024

  /** binary.BigEndian.PutUint16 after the conversion to uint16, which drops the higher bits. */
  function PutUint16(n: nat): (h: seq<byte>)
    ensures |h| == 2
  {
    [(n / 256 % 256) as byte, (n % 256) as byte]
  }

  function Uint16(h: seq<byte>): (n: nat)
    requires |h| >= 2
    ensures n < 0x1_0000
  {
    h[0] as int * 256 + h[1] as int
  }

  function Encode(payload: seq<byte>): seq<byte> {
    PutUint16(|payload|) + payload
  }

  /** The bytes begin with a complete message. */
  predicate HasFrame(w: seq<byte>) {
    |w| >= 2 && |w| >= 2 + Uint16(w)
  }

  function FrameSize(w: seq<byte>): nat
    requires HasFrame(w)
  {
    2 + Uint16(w)
  }

  function FirstFrame(w: seq<byte>): seq<byte>
    requires HasFrame(w)
  {
    w[..FrameSize(w)]
  }

  function Rest(w: seq<byte>): seq<byte>
    requires HasFrame(w)
  {
    w[FrameSize(w)..]
  }

  /** The bytes are one complete message and nothing else. */
  predicate OneFrame(w: seq<byte>) {
    HasFrame(w) && Rest(w) == []
  }

  /** Later bytes change neither whether there is a first message nor which. */
  lemma FrameOfPrefix(w: seq<byte>, more: seq<byte>)
    requires HasFrame(w)
    ensures HasFrame(w + more) && FirstFrame(w + more) == FirstFrame(w) && Rest(w + more) == Rest(w) + more
  {
    assert (w + more)[0] == w[0] && (w + more)[1] == w[1];
    assert (w + more)[..FrameSize(w)] == w[..FrameSize(w)];
    assert (w + more)[FrameSize(w)..] == w[FrameSize(w)..] + more;
  }

  lemma FirstFrameIsOne(w: seq<byte>)
    requires HasFrame(w)
    ensures OneFrame(FirstFrame(w))
  {
    var f := FirstFrame(w);
    assert f[0] == w[0] && f[1] == w[1];
  }

  lemma HeaderValue(n: nat)
    ensures Uint16(PutUint16(n)) == n % 0x1_0000
  {
    var q := n / 0x1_0000;
    assert n / 256 == q * 256 + n % 0x1_0000 / 256;
    assert n / 256 % 256 == n % 0x1_0000 / 256;
    assert n % 256 == n % 0x1_0000 % 256;
  }

  /** Encoding makes one message with the payload as its body exactly when the payload is shorter
      than 64 KiB; otherwise the truncated length leaves bytes over. */
  lemma EncodeRoundTrip(payload: seq<byte>)
    ensures OneFrame(Encode(payload)) <==> |payload| < 0x1_0000
    ensures OneFrame(Encode(payload)) ==> FirstFrame(Encode(payload))[2..] == payload
    ensures HasFrame(Encode(payload))
    ensures var w := Encode(payload); w[0] as int * 256 + w[1] as int == |payload| % 0x1_0000 && w[2..] == payload
  {
    HeaderValue(|payload|);
    var w := Encode(payload);
    assert w[0] == PutUint16(|payload|)[0] && w[1] == PutUint16(|payload|)[1];
    assert Uint16(w) == |payload| % 0x1_0000 <= |payload|;
    assert |Rest(w)| == |payload| - |payload| % 0x1_0000;
    if |payload| < 0x1_0000 {
      assert FirstFrame(w)[2..] == payload;
    }
  }

  /** A message is the encoding of its body. */
  lemma EncodeBody(w: seq<byte>)
    requires OneFrame(w)
    ensures Encode(w[2..]) == w
  {
    var h0, h1 := w[0] as int, w[1] as int;
    assert |w| == 2 + Uint16(w);
    assert (h0 * 256 + h1) / 256 == h0 && (h0 * 256 + h1) % 256 == h1;
    assert PutUint16(Uint16(w)) == w[..2];
  }

  // ---------- shaping in Handle ----------

  /** What clientRead keeps of the data that arrived: no more than its buffer holds. */
  function ClientRead(arrived: seq<byte>): (data: seq<byte>)
    ensures |data| <= CLIENT_BUFFER
  {
    if |arrived| <= CLIENT_BUFFER then arrived else arrived[..CLIENT_BUFFER]
  }

  /** The bytes that Handle writes upstream. */
  function UpstreamRequest(transport: Transport, data: seq<byte>): seq<byte> {
    if transport == UDP then Encode(data) else data
  }

  /** The bytes that Handle writes back to the client. */
  function ClientResponse(transport: Transport, response: seq<byte>): seq<byte>
    requires |response| >= 2
  {
    if transport == UDP then response[2..] else response
  }

  /** What a UDP client sends reaches the upstream as one message with that body; a message from
      the upstream reaches the client without its header, which held the body's length. */
  lemma UdpFraming(arrived: seq<byte>, response: seq<byte>)
    requires OneFrame(response)
    ensures var request := UpstreamRequest(UDP, ClientRead(arrived));
            OneFrame(request) && request[2..] == ClientRead(arrived)
    ensures |ClientResponse(UDP, response)| == Uint16(response)
    ensures response == response[..2] + ClientResponse(UDP, response)
  {
    EncodeRoundTrip(ClientRead(arrived));
    assert FirstFrame(response) + Rest(response) == response;
    var request := UpstreamRequest(UDP, ClientRead(arrived));
    assert FirstFrame(request) + Rest(request) == request;
  }
}
