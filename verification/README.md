# dotproxy: connection pools, balancing and proxying, verified

dotproxy forwards DNS requests from UDP and TCP clients to upstream servers over pools of
long-lived TLS connections. This project models the parts of it whose correctness depends on
several functions, or several goroutines, at once:

- the array max-heap and the most-recently-used queue behind a pool (`PriorityQueue.dfy`,
  `MruQueue.dfy`), as objects, with Go's container/heap algorithms written out;
- the connection pool, as a system of steps for calls that overlap (`PoolProtocol.dfy`,
  `PoolProperties.dfy`) and as an object over the heap-backed queue that is proved to refine it
  (`ConnPool.dfy`);
- the availability balancer's timed backoff, as a system of steps and as an object that is proved
  to refine it (`Availability*.dfy`);
- round robin, historical connections, failover and their stats (`RoundRobin.dfy`,
  `Historical*.dfy`, `Sharding.dfy`);
- framing, write-read transactions, retries and lease settlement, for any number of concurrent
  requests over any number of pools (`Framing.dfy`, `ProxyHandler.dfy`, `Proxy*.dfy`).

Concurrency is modelled as a state, actions, a predicate `Enabled` and a function `Apply`; a run is
a sequence of actions each of which is enabled when its turn comes, and the theorems speak of every
run. An action is what the code does between two points where goroutines can interfere: one mutex
section, one queue operation, one read or write on a connection, one clock reading. Clock readings,
dial outcomes, how many bytes a read or write moves, random picks and what servers answer are
chosen freely by the run. Clocks never go back. Times are nanoseconds.

## Main results

- **No crossed answers, exactly** (`ProxyCrossing.CrossingCondition`). Over every interleaving,
  every response a request gets is byte for byte what the server sent for that request's own
  message, if and only if the admitted requests are self-contained: what a request leaves over
  after its first message must not become a message by appending an admitted request. UDP requests
  by themselves always are (`UdpNeverCrosses`). TCP requests are as long as one read delivers one
  message or part of one, but not in general: two short messages in one read are enough to cross
  answers (`TcpCanCross`, `LeftoverCrosses`).
- **End to end, exactly** (`ProxyClients.UdpClientsCondition`, `ClientsGetOwnAnswers`). One handler
  serves UDP and TCP clients over the same pools (cmd/dotproxy/main.go:166-220). A UDP client always
  gets the whole body of a reply to its own datagram if and only if the requests of all clients
  together are self-contained. That is so without TCP clients, or with such as send one message per
  read (`UdpClientsSafe`); with the TCP listener open to everyone it is not (`UdpClientsUnsafe`): then a UDP
  client can get the answer to what a TCP client left over.
- **Backoff ceiling, exactly** (`AvailabilityExact.LagThreshold`, `CeilingAttained`). A call holds a
  client while it dials it or may still dial it because of a record it has read. If at most k calls
  hold a client whenever it fails, however many calls there are in all, its backoff never exceeds
  51.2 s * 2^(k-1); if no failure comes in the middle of a scan, only calls that dial it count. For every k this is so if and only if k is 1 or a record that a scan has read is
  tested within 21.2 s, and for every k the ceiling is attained.
- **Backoff interval, exactly** (`AvailabilityBackoff.IntervalExact`). In every reachable state a
  client's record is what the times of its failures say: the last of them, and 100 ms doubled once
  for each failure since the last one that was tested more than 30 s after the one before it.
- **Attempts per window, exactly** (`AttemptBound`, `AttemptsAttained`, `CallFailureBound`). In 30 s
  a client that at most k calls hold fails at most k + 9 times, and k + 8 times if k is 1 or 2,
  however late records are tested. Both are attained. This bounds the failover recursion, which has
  no other measure.
- **Round robin, exactly** (`RoundRobin.FairnessCondition`, `OverlapStarves`). Every run is fair if
  and only if there is one client or calls do not overlap. Otherwise a client can be starved for
  ever: two calls that overlap once per round are enough.
- **Historical connections, exactly** (`HistoricalExact.SpreadCondition`, `ExactDrift`,
  `HistoricalBounds.DriftBound`). A comparison reads two counts under separate locks. With at most k
  calls in progress or not yet in the stats, the success counts of m clients never differ by more
  than k if and only if m is at most 2, k is at most 2, or both are 3. They never differ by more than
  (m-1)(k-1) + 1. For two clients the largest difference is k, for three clients and k of two or
  more it is k - 1 + k/2 rounded down. If nothing is recorded between the two reads of a comparison
  it is at most k for every number of clients (`UninterruptedSpread`).
- **Retries, exactly** (`RetryAccounting`). A request may retry as often as is configured, 16 times if
  that is not positive. Its failures are its reads and writes that reported an error or fell short;
  failures and remaining retries add up to that number until it gives up after one failure more.
- **Ownership** (`OneOwnerEach`, `LeasesSettledOnce`). Every dialed connection is in exactly one
  place, and every lease is settled once, for the reason its transaction gave. The pool object's
  methods take exactly the protocol's steps, so this holds of its heap and back-indices too
  (`PoolAccounted`).
- **What the start-up fill loses, exactly** (`FillLossBound`, `FillCanLoseCapacity`). The fill
  ignores a refused push, so a pool can leak connections: at most its capacity, at most as many as
  leases were put back before the fill ended, and for every capacity some run loses that many.
- **Progress, exactly** (`ProxyTermination.RequestEnds`, `ProxyProgress.NeverStuck`,
  `ServedExactly`). A request takes at most six actions of its own for its first transaction and for
  each retry, and three for each dial that fails. As long as it is not finished there is an action
  that helps it, one of its own that is no failure or the server's answer, exactly if it is not
  stuck behind bytes that never become a message. Over requests of at most one message, a request
  that has not given up can be served from every reachable state without any failure, if and only
  if it is a whole message.
- **Leftovers, exactly** (`PoisonCondition`). No whole message is ever written after bytes that
  another request left over if and only if all admitted requests are of at most one message; then
  pooled connections are empty in both directions (`PooledIsEmpty`). Self-contained requests are not
  enough: with them nobody gets a crossed answer, but a whole message can be stuck (`PoisonExample`).
- **Recovery** (`RecoversFromDead`). Dead pooled connections cost all requests together at most one
  failure each, under every interleaving and every choice of pools. A request whose budget covers
  them does not give up, takes at most six actions for each of them and six more, and can be served
  wherever the run has led, with its transactions failing on dead connections and only there.

## Where the code and its comments differ

- `PersistentConn.Close` says that it does nothing once the connection is destroyed
  (internal/network/persistent.go:147-153). The code runs the callback every time.
  `ConnPools.CloseTwice` says what a second call does: a second close event if the lease is
  destroyed; otherwise a second copy in the pool if there is room, or a connection that is pooled and
  closed if there is room for one. The model follows the code, and `LeasesSettledOnce` shows that the
  proxy settles each lease once.
- `RoundRobinShardedClient` promises fairness and notes that its index is not safe under
  concurrency. `FairnessCondition` says exactly when the promise is kept.

## Model

| member | source | states |
|---|---|---|
| PriorityQueues.PriorityQueue.Swap | internal/data/priority.go:32-36 | the two items trade places, every back-index is its item's position, and the stored entries are a permutation |
| PriorityQueues.PriorityQueue.Append | internal/data/priority.go:39-44 | the item becomes the last one, with its position as back-index |
| PriorityQueues.PriorityQueue.RemoveLast | internal/data/priority.go:47-55 | the last item leaves with back-index -1 and the others keep theirs |
| PriorityQueues.PriorityQueue.Up | internal/data/priority.go:14-36 | container/heap's up restores heap order when one item outranks its parent, and permutes the items |
| PriorityQueues.PriorityQueue.Down | internal/data/priority.go:14-36 | container/heap's down restores heap order below a position, reports whether it moved anything, leaves the slots beyond its bound alone |
| PriorityQueues.PriorityQueue.Init | internal/data/mru.go:22-28 | container/heap's Init makes a heap of whatever is stored |
| PriorityQueues.PriorityQueue.Push | internal/data/mru.go:45-48 | the heap holds one item more and stays ordered and indexed |
| PriorityQueues.PriorityQueue.Pop | internal/data/mru.go:63-64 | an item of maximum priority leaves with back-index -1; nothing else is lost or duplicated, order and back-indices hold |
| PriorityQueues.PriorityQueue.Update | internal/data/priority.go:58-62 | any change of one item's value and priority at its back-index leaves a heap with the same items, of which only that one changed |
| PriorityQueues.RootIsMaximum | internal/data/priority.go:24-29 | in a heap under Less, no entry outranks the root |
| MruQueues.MruQueue.constructor | internal/data/mru.go:19-31 | a new queue is empty and valid for every capacity |
| MruQueues.MruQueue.Push | internal/data/mru.go:36-51 | accepted exactly if the capacity is not positive or not reached, and then exactly one entry with the truncated second is added |
| MruQueues.MruQueue.Pop | internal/data/mru.go:55-65 | nothing exactly when empty, otherwise an entry of the latest second and only that one is removed |
| MruQueues.MruQueue.Size | internal/data/mru.go:68-73 | the number of entries |
| MruQueues.MruQueue.Empty | internal/data/mru.go:76-81 | whether there is no entry |
| ConnPools.OneLookDecides | internal/network/persistent.go:82-102 | the popped entry is fresh exactly when any pooled entry is, so one look replaces a scan |
| ConnPools.ServedDialsOnlyIfNeeded | internal/network/persistent.go:81-124 | if any pooled connection is fresh the call leases a most recent one and dials nothing; otherwise it closes at most the entry it popped and leases a new connection exactly when the dial succeeds; only that entry leaves the queue, and each connection opened or closed has one event |
| ConnPools.ServedReachable | internal/network/persistent.go:81-124 | a whole Conn call is a run of the concurrent protocol |
| ConnPools.PersistentConnPool.Draw | internal/network/persistent.go:81-124 | removes a most recent entry; the queue, both event counts and the closed connections afterwards; the connection is the entry's exactly when it is fresh |
| ConnPools.PersistentConnPool.Fill | internal/network/persistent.go:54-68 | a dialed connection has an open event and is pooled with the current second unless a positive capacity is reached |
| ConnPools.PersistentConnPool.FillOne | internal/network/persistent.go:54-68 | one iteration refines the protocol's FillDial and FillPush |
| ConnPools.PersistentConnPool.Take | internal/network/persistent.go:81-124 | refines Pop followed by Reuse, by Discard and Dial, or by Dial; yields the leased connection, nothing exactly when the dial failed |
| ConnPools.PersistentConnPool.Conn | internal/network/persistent.go:81-124 | wraps that connection in an undestroyed lease of this pool |
| ConnPools.PersistentConnPool.Put | internal/network/persistent.go:134-140 | pooled with the current second, or closed without an event exactly when a positive capacity is reached |
| ConnPools.PersistentConn.Closer | internal/network/persistent.go:86-95 | closes with an event if destroyed, puts back otherwise, on every invocation |
| ConnPools.PersistentConn.Close | internal/network/persistent.go:151-153 | runs the callback whether the lease is settled or not; for one that is not, refines Destroy if it is marked destroyed and Return otherwise |
| ConnPools.PersistentConn.Destroy | internal/network/persistent.go:156-160 | marks the lease destroyed and closes its connection with an event, whether it is settled or not; for one that is not, refines Destroy |
| ConnPools.CloseTwice | internal/network/persistent.go:151-153 | exactly what two calls at two times do: two close events if destroyed; otherwise as many copies in the pool as there is room for, each with its own second, and closed unless there is room for both |
| ConnPools.PoolAccounted | internal/network/persistent.go:49-140 | through the refinement, the object's heap-backed queue holds no connection twice, none that is closed or leased, and the events account for every connection |
| PoolProtocol.OwnedStep | internal/network/persistent.go:49-140 | every step of the fill, Conn and put keeps each connection in exactly one place and queued at most once |
| PoolProperties.AlwaysInv | internal/network/persistent.go:49-140 | ownership, event balance, counts and timing hold after every run |
| PoolProperties.OneOwnerEach | internal/network/persistent.go:49-140 | in every reachable state each dialed connection is in exactly one place |
| PoolProperties.LeasesExclusive | internal/network/persistent.go:81-124 | a leased connection is leased once and neither pooled, closed nor dropped |
| PoolProperties.EventConservation | internal/network/persistent.go:49-140 | open events minus close events count what is pooled, leased, in transit, closed silently or dropped |
| PoolProperties.RunTallied | internal/network/persistent.go:49-140 | over every run: the fill dials at most capacity times, successful or not; one open event per successful dial and one close event per discarded or destroyed connection; every lease put back is pooled or overflows; no losses without a positive capacity |
| PoolProperties.RoomDecides | internal/network/persistent.go:54-68 | in every reachable state a connection put back or pushed by the fill is pooled with the current second unless a positive capacity is reached, and otherwise closed silently or dropped |
| PoolProperties.FillLossBound | internal/network/persistent.go:53-69 | the fill drops at most capacity connections, at most as many as leases were put back, at most as many as were dialed on demand; a positive capacity bounds the queue |
| PoolProperties.LossesEndWithFill | internal/network/persistent.go:53-69 | nothing is dropped after the fill is over |
| PoolProperties.FillCanLoseCapacity | internal/network/persistent.go:53-69 | for every positive capacity some run drops exactly that many |
| PoolProperties.StalenessError | internal/network/persistent.go:97-111 | a connection is reused exactly if the timeout is not positive or less than it has passed since the second it was pooled in; so reused ones were idle for less than the timeout, discarded ones for more than the timeout less a second |
| Availability.WellFormedStep | internal/network/sharding.go:183-248 | every step keeps the scan positions of all calls within the client list |
| AvailabilityBackoff.RecordedStep | internal/network/sharding.go:183-248 | every step keeps records equal to the last failure, each interval double the one before or 100 ms exactly as the 30 s test says, and what calls have read true of the past |
| AvailabilityBackoff.IntervalExact | internal/network/sharding.go:197-212 | in every reachable state a client's record is the time of its last failure in the run and 100 ms * 2^j, where j counts the failures since the last one tested more than 30 s after its predecessor |
| AvailabilityBackoff.PacingStep | internal/network/sharding.go:183-248 | if at most k calls hold a client whenever it fails, every step keeps this: of k + 1 failures in a row the last comes after the interval that the first one imposed |
| AvailabilityBackoff.BackoffCeiling | internal/network/sharding.go:183-218 | if at most k calls hold a client whenever it fails and k is 1 or records are tested within 21.2 s, its interval is 0 or 100 ms * 2^j, at most 51.2 s * 2^(k-1), below 2^63 ns for k up to 28 |
| AvailabilityBackoff.OnlyDialersHold | internal/network/sharding.go:183-248 | if no failure of a client comes in the middle of a scan, the calls that hold it are those that dial it |
| AvailabilityBackoff.OverlapHolds | internal/network/sharding.go:183-248 | where at most k calls overlap, at most k calls hold any client |
| AvailabilityExact.CeilingAttained | internal/network/sharding.go:183-248 | for every k some run of k overlapping calls gives a client exactly that interval |
| AvailabilityExact.AttemptsAttained | internal/network/sharding.go:183-248 | for every k some run of k overlapping calls makes a client fail as often within 30 s as AttemptBound allows |
| AvailabilityExact.LateTestBreaksCeiling | internal/network/sharding.go:230-241 | for every k of two or more, k calls of which one tests a record more than 21.2 s after reading it reach twice the ceiling |
| AvailabilityExact.LagThreshold | internal/network/sharding.go:183-248 | for every k the ceiling holds if and only if k is 1 or records are tested within 21.2 s, whether k counts the calls that hold the client or all calls |
| AvailabilityAttempts.SerialAttemptBound | internal/network/sharding.go:183-248 | m failures within 30 s of a client that one call at a time holds take more than 100 ms * (2^(m-1) - 1), so m is at most 9 |
| AvailabilityAttempts.AttemptBound | internal/network/sharding.go:183-248 | a client that at most k calls hold at once fails at most k + 9 times within 30 s, k + 8 times if k is 1 or 2, whatever the lag |
| AvailabilityAttempts.CallFailureBound | internal/network/sharding.go:195-215 | a Conn call over n clients that has run for at most 30 s has failed at most n times that bound, where its start and its failures are those of the run |
| AvailabilityAttempts.ErrorMeaning | internal/network/sharding.go:227-248 | Conn gives up only if its last scan found every client inside the interval of a failure recorded before |
| AvailabilityAttempts.DialedWasEligible | internal/network/sharding.go:227-248 | a client that is dialed had never failed or its interval was over when it was tested |
| AvailabilityAttempts.EligibleAgain | internal/network/sharding.go:236-240 | a client that at most k calls hold is eligible again 51.2 s * 2^(k-1) after its last failure, under the condition of LagThreshold; without overlap after 51.2 s for every lag |
| AvailabilityClients.AvailabilityShardedClient.constructor | internal/network/sharding.go:164-178 | no client has a failure on record |
| AvailabilityClients.AvailabilityShardedClient.SelectAvailable | internal/network/sharding.go:227-248 | one of the clients that pass the test, in list order, or an error exactly when none does |
| AvailabilityClients.AvailabilityShardedClient.NoneEligible | internal/network/sharding.go:243-245 | there is no eligible client exactly when every client is inside its interval at its reading |
| AvailabilityClients.AvailabilityShardedClient.RecordFailure | internal/network/sharding.go:197-212 | the time is stored; the interval is 100 ms if the client never failed or 30 s have passed, double otherwise; all other records stay |
| AvailabilityClients.RecordsExact | internal/network/sharding.go:183-218 | through the refinement, the object's records are exactly what the times of the failures in a run say |
| AvailabilityClients.AvailabilityShardedClient.Attempt | internal/network/sharding.go:190-217 | one round selects, dials and records a failure of that client only |
| AvailabilityClients.AvailabilityShardedClient.Try | internal/network/sharding.go:190-217 | one round is a run of the serial balancer, Read and Test for each client, then Choose and Succeed or Fail, or GiveUp; the client that failed, and no other, has one more failure |
| AvailabilityClients.RoundIsRun | internal/network/sharding.go:183-248 | the run that a round is, for every outcome |
| AvailabilityClients.NeverAwayForLong | internal/network/sharding.go:236-240 | through the refinement, every client of the object is eligible 51.2 s after its last failure |
| RoundRobin.RoundRobinShardedClient.Conn | internal/network/sharding.go:110-116 | the k-th call goes to client k mod m whether it delivers or not |
| RoundRobin.RoundRobinFair | internal/network/sharding.go:110-116 | after n calls in turn each of m clients was selected floor(n/m) or ceil(n/m) times, and which |
| RoundRobin.IndexStaysInRange | internal/network/sharding.go:110-116 | under any interleaving of index accesses the index and every selected client are in range |
| RoundRobin.OverlapStarves | internal/network/sharding.go:110-116 | for every m of two or more, two overlapping calls can starve a client for any number of rounds |
| RoundRobin.FairnessCondition | internal/network/sharding.go:110-116 | over m clients with a limit on overlapping calls every run is fair if and only if m is 1 or the limit is at most 1 |
| Sharding.FailoverConn | internal/network/sharding.go:257-265 | the first client that delivers, an error exactly when none does |
| Sharding.StatsAreLeafSums | internal/network/sharding.go:293-307 | for any nesting of sharded clients the stats are the successes and the failures of the leaf clients, each added up |
| Sharding.AggregateClientsStats | internal/network/sharding.go:293-307 | the two loops compute that sum |
| Historical.SelectFewest | internal/network/sharding.go:146-153 | the first client with the fewest recorded successes |
| Historical.UninterruptedSpread | internal/network/sharding.go:146-156 | if at most K calls are in progress or unrecorded at once and no candidate is recorded between the two reads of a comparison, true success counts differ by at most K in every run |
| HistoricalBounds.DriftBound | internal/network/sharding.go:146-156 | whatever is recorded between the two reads, the counts of m clients differ by at most (m-1)(K-1) + 1 in every run |
| HistoricalBounds.ThreeClients | internal/network/sharding.go:146-156 | the counts of three clients differ by at most K - 1 + K/2 rounded down, by 1 if K is 1 |
| HistoricalBounds.TwoAtATime | internal/network/sharding.go:146-156 | with two calls at a time the counts differ by at most 2 for every number of clients |
| HistoricalExact.DriftAttained | internal/network/sharding.go:149-153 | for every K of two or more and three or more clients some run reaches a difference of K - 1 + K/2 |
| HistoricalExact.FourApart | internal/network/sharding.go:149-153 | three calls at a time over four or more clients: some run reaches a difference of four |
| HistoricalExact.SpreadCondition | internal/network/sharding.go:146-156 | the counts of m clients never differ by more than K if and only if m is at most 2, K is at most 2, or both are 3 |
| HistoricalExact.ExactDrift | internal/network/sharding.go:146-156 | the largest difference for two and for three clients, bounded and attained for every K |
| HistoricalExact.SpreadAttained | internal/network/client.go:123-140 | for every K and two or more clients some run reaches a difference of K |
| Historical.StatsConservation | internal/network/client.go:123-148 | for every policy, each client's recorded successes and failures plus its updates not yet applied are the outcomes of its own calls in the run |
| Historical.SelectedIsUsed | internal/network/sharding.go:110-131 | a call that another policy selected is on the client it was selected for |
| Framing.EncodeRoundTrip | internal/protocol/dns_proxy.go:73-78 | a header and a payload are one message with that body exactly when the payload is shorter than 64 KiB; the length comes first, most significant byte first |
| Framing.EncodeBody | internal/protocol/dns_proxy.go:73-79 | a message is the encoding of its body, the inverse of EncodeRoundTrip |
| Framing.UdpFraming | internal/protocol/dns_proxy.go:67-102 | a UDP request reaches the upstream as one message with the bytes read as its body; the client gets the body of the answer, whose header held its length |
| ProxyHandler.UpstreamTransact | internal/protocol/dns_proxy.go:143-203 | succeeds exactly if the write and both reads are complete, and then takes the first message out of the stream and returns it whole; what is written and taken off the stream in every other case |
| ProxyHandler.UdpConn.Read | internal/network/conn.go:38-52 | refused after a first read; remembers the sender; cuts a datagram at the buffer size |
| ProxyHandler.UdpConn.Write | internal/network/conn.go:56-68 | refused before a read; everything goes to the client that was read from |
| ProxyHandler.HandleUdp | internal/protocol/dns_proxy.go:51-122 | one message upstream with the client's bytes as body; exactly the body of the answer back, to the client that asked |
| ProxyClients.HandleUdpRequest | internal/protocol/dns_proxy.go:51-122 | inside any run, whatever other clients there are, what the UDPConn writes goes to the sender of the datagram; it is the body of a reply to the message made of it exactly if the answer is the request's own, so always if requests are self-contained |
| ProxyClients.RequestIsWhatArrived | internal/protocol/dns_proxy.go:67-79 | in every run the request of a client that was received is what arrived, cut off at 1024 bytes: as it is for TCP, after its length in two bytes for UDP |
| ProxyClients.ClientsGetOwnAnswers | internal/protocol/dns_proxy.go:93-102 | if admitted requests are self-contained, whatever is written to a client goes to its own address and comes from a reply to its own message, at most once per request: over TCP the reply with its header as far as the write got, over UDP all of it but the header |
| ProxyClients.UdpClientsCondition | cmd/dotproxy/main.go:166-220 | over pools shared with TCP clients, every UDP client gets the whole body of a reply to its own datagram in every run if and only if the requests of all clients together are self-contained |
| ProxyClients.UdpClientsSafe | internal/protocol/dns_proxy.go:51-122 | that is so without TCP clients and with such as send at most one message per read |
| ProxyClients.UdpClientsUnsafe | internal/protocol/dns_proxy.go:125-139 | with the TCP listener open to everyone some run delivers to a UDP client what is not a reply to its datagram |
| ProxyProtocol.WellFormedStep | internal/protocol/dns_proxy.go:143-246 | every step keeps each lease and each Conn call bound to at most one user |
| ProxyProtocol.WriteOutcome | internal/protocol/dns_proxy.go:150-154 | the server gets the bytes that the write moved; the transaction goes on exactly if that was all and no error was reported |
| ProxyProtocol.HeaderOutcome | internal/protocol/dns_proxy.go:166-175 | two bytes without an error are the header, anything else fails the transaction |
| ProxyProtocol.BodyOutcome | internal/protocol/dns_proxy.go:177-202 | the request is answered with header and body exactly if the read moved as much as the header says without an error |
| ProxyAnswers.NoCrossedAnswers | internal/protocol/dns_proxy.go:51-246 | if admitted requests are self-contained, every answer is the request's own and one message, and pooled connections have nothing unread and no message owed |
| ProxyCrossing.LeftoverCrosses | internal/protocol/dns_proxy.go:125-139 | two admitted requests, the second completing what the first leaves over, have a run in which the second is answered with an answer that is not its own |
| ProxyCrossing.CrossingCondition | internal/protocol/dns_proxy.go:51-246 | no run crosses answers if and only if the admitted requests are self-contained |
| ProxyCrossing.OneMessagePerRequest | internal/protocol/dns_proxy.go:125-139 | requests of at most one message per read never cross |
| ProxyCrossing.UdpNeverCrosses | internal/protocol/dns_proxy.go:67-79 | requests from UDP clients never cross |
| ProxyCrossing.TcpCanCross | internal/protocol/dns_proxy.go:125-139 | what TCP reads can deliver is not self-contained, and some run crosses answers |
| ProxyCrossing.SharedPoolsCondition | cmd/dotproxy/main.go:166-220 | answers of UDP requests are never crossed if and only if UDP and TCP requests together are self-contained |
| ProxyRetries.RetryAccounting | internal/protocol/dns_proxy.go:83-88 | over every run, with n retries as configured, 16 if not positive: at most n + 1 transactions; failures and remaining retries add up to n, or it gave up after failure n + 1; earlier only for lack of a connection; failures are reads and writes that reported an error or fell short; failed leases are destroyed, the successful one is closed |
| ProxyRetries.LeasesSettledOnce | internal/protocol/dns_proxy.go:219-245 | every lease given out is in use or scheduled to be settled; a settled lease is gone; leases are destroyed for a failure and closed for a success only |
| ProxyTermination.RequestEnds | internal/protocol/dns_proxy.go:208-246 | a request takes at most 6 * (failures + 1) actions of its own and three per failed dial, fewer as long as it is not finished, and it retries at most as often as configured, 16 times if that is not positive |
| ProxyProgress.NeverStuck | internal/protocol/dns_proxy.go:208-246 | if requests are self-contained, an unfinished request can be helped without a failure, with any pool, exactly if it is not stuck; one that is finished takes no more actions |
| ProxyProgress.ServedExactly | internal/protocol/dns_proxy.go:143-246 | over requests of at most one message, a request that has not given up can be served without any failure from every reachable state if and only if it is a whole message |
| ProxyProgress.PooledIsEmpty | internal/protocol/dns_proxy.go:239-245 | over requests of at most one message, every pooled connection is empty in both directions |
| ProxyProgress.PoisonCondition | internal/protocol/dns_proxy.go:143-203 | no whole message is stuck after bytes that another request left over, in any run, if and only if all admitted requests are of at most one message |
| ProxyProgress.PoisonExample | internal/protocol/dns_proxy.go:143-203 | two self-contained requests, of which one can leave the other stuck |
| ProxyProgress.RecoversFromDead | internal/protocol/dns_proxy.go:208-246 | if only connections that were dead at some moment fail, all requests together fail at most as often as such connections were usable; a request with that budget does not give up and takes at most 6 * (dead + 1) actions and three per failed dial; if it is a whole message among such of at most one, it can be served wherever the run has led, failing on dead connections and only there |

## Left out

- TLS dialing, handshakes, socket options, certificates: a dial succeeds with a new connection or fails.
- TCPConn deadlines and the server accept loops: a read or write that times out is one that reports an error.
- Metrics, logging, configuration files, policy names: not part of this model, except that open and close events are counted.
- RandomShardedClient: any choice of pool is already allowed in ProxyProtocol; nothing is said about probabilities.
- AvailabilityShardedClient.Conn as one method: its recursion has no termination measure, so AvailabilityClients.AvailabilityShardedClient.Try is one round of it and Availability repeats rounds as steps.
- proxyUpstream as one method: its retries are steps of ProxyProtocol, where they interleave with other requests.
- Reassembly of TCP client requests that arrive in several reads: the code has none, and ProxyCrossing.CrossingCondition says what follows from it.
- Servers that answer out of order, more than once or without being asked: a server sends one message for each message it receives, with any body, in order.
- HistoricalBounds.DriftBound: is exact for two clients and for one call at a time only; for four or more clients the largest difference is not determined, only when it exceeds K.
- Historical-connections over clients that are themselves sharded: a candidate's count is read under one lock, as a TLS client's is.
- Int64 overflow of durations: ruled out by AvailabilityBackoff.BackoffCeiling for clients held by up to 28 calls, not modelled beyond.
