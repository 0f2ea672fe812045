/** The connection pool of internal/network/persistent.go under concurrency: the start-up fill,
    any number of overlapping Conn calls and the settling of leases, interleaved at the points
    where they touch the shared queue or hand a connection over. */
module PoolProtocol {
  import opened Time
  import opened Wrappers
  import opened PriorityQueues
  import MruQueues

  type ConnId = nat

  /** Identifies one call of PersistentConnPool.Conn, and the lease it returns. */
  type CallId = nat

  /** A pooled connection, with the clock reading of which the queue keeps the second. */
  datatype Stamped = Stamped(conn: ConnId, pushedAt: int)

  /** An entry of the queue: its priority is the second at which the connection was put there. */
  type Pooled = Entry<Stamped>

  /** Where a Conn call is: it holds a popped connection whose age it has yet to look at, or it
      is about to dial. */
  datatype Call = Checking(entry: Pooled, poppedAt: int) | Dialing

  datatype Pool = Pool(
    capacity: int,
    staleTimeout: int,
    now: int,
    queue: multiset<Pooled>,
    filled: nat,              // iterations begun by the start-up fill
    hand: Option<ConnId>,     // dialed by the fill and not yet pushed
    calls: map<CallId, Call>,
    leases: map<CallId, ConnId>,
    closed: set<ConnId>,      // closed with a close event
    overflowed: set<ConnId>,  // closed without an event, because put found the pool full
    dropped: set<ConnId>,     // refused by the queue during the fill, and forgotten
    dialed: nat,              // connections dialed so far; the next one gets this number
    demanded: nat,            // how many of them were dialed by a Conn call
    returned: nat,            // leases put back into the queue
    popped: nat,              // connections taken out of the queue
    opens: nat,               // open events emitted
    closes: nat)              // close events emitted

  datatype Action =
    | Tick(elapsed: nat)
    | FillDial(ok: bool)
    | FillPush
    | Pop(call: CallId, entry: Option<Pooled>)
    | Reuse(call: CallId)
    | Discard(call: CallId)
    | Dial(call: CallId, ok: bool)
    | Return(call: CallId)
    | Destroy(call: CallId)

  function NewPool(capacity: int, staleTimeout: int, now: int): Pool {
    Pool(capacity, staleTimeout, now, multiset{}, 0, None, map[], map[], {}, {}, {}, 0, 0, 0, 0, 0, 0)
  }

  /** The test that lets Conn reuse a popped connection. */
  predicate Fresh(staleTimeout: int, second: int, now: int) {
    staleTimeout <= 0 || SinceSecond(now, second) < staleTimeout
  }

  /** The entry that MruQueue.Push adds for a connection. */
  function Pooling(c: ConnId, now: int): Pooled {
    Entry(Stamped(c, now), UnixSecond(now))
  }

  ghost predicate Enabled(p: Pool, a: Action) {
    match a
    case Tick(_) => true
    case FillDial(_) => p.hand.None? && p.filled < p.capacity
    case FillPush => p.hand.Some?
    case Pop(k, entry) =>
      && k !in p.calls && k !in p.leases
      && (if entry.Some? then MruQueues.IsMostRecent(p.queue, entry.value) else p.queue == multiset{})
    case Reuse(k) => k in p.calls && p.calls[k].Checking? && Fresh(p.staleTimeout, p.calls[k].entry.priority, p.now)
    case Discard(k) => k in p.calls && p.calls[k].Checking? && !Fresh(p.staleTimeout, p.calls[k].entry.priority, p.now)
    case Dial(k, _) => k in p.calls && p.calls[k].Dialing?
    case Return(k) => k in p.leases
    case Destroy(k) => k in p.leases
  }

  function Push(p: Pool, c: ConnId): Pool {
    p.(queue := p.queue + multiset{Pooling(c, p.now)})
  }

  ghost function Apply(p: Pool, a: Action): Pool
    requires Enabled(p, a)
  {
    match a
    case Tick(d) => p.(now := p.now + d)
    case FillDial(ok) =>
      if ok then
        p.(filled := p.filled + 1, hand := Some(p.dialed), dialed := p.dialed + 1, opens := p.opens + 1)
      else
        p.(filled := p.filled + 1)
    case FillPush =>
      if MruQueues.Full(p.capacity, |p.queue|) then
        p.(hand := None, dropped := p.dropped + {p.hand.value})
      else
        Push(p.(hand := None), p.hand.value)
    case Pop(k, entry) =>
      if entry.Some? then
        p.(queue := p.queue - multiset{entry.value}, popped := p.popped + 1,
           calls := p.calls[k := Checking(entry.value, p.now)])
      else
        p.(calls := p.calls[k := Dialing])
    case Reuse(k) => p.(calls := p.calls - {k}, leases := p.leases[k := p.calls[k].entry.value.conn])
    case Discard(k) =>
      p.(calls := p.calls[k := Dialing], closed := p.closed + {p.calls[k].entry.value.conn}, closes := p.closes + 1)
    case Dial(k, ok) =>
      if ok then
        p.(calls := p.calls - {k}, leases := p.leases[k := p.dialed], dialed := p.dialed + 1,
           demanded := p.demanded + 1, opens := p.opens + 1)
      else
        p.(calls := p.calls - {k})
    case Return(k) =>
      if MruQueues.Full(p.capacity, |p.queue|) then
        p.(leases := p.leases - {k}, overflowed := p.overflowed + {p.leases[k]})
      else
        Push(p.(leases := p.leases - {k}, returned := p.returned + 1), p.leases[k])
    case Destroy(k) =>
      p.(leases := p.leases - {k}, closed := p.closed + {p.leases[k]}, closes := p.closes + 1)
  }

  /** The actions can be taken one after another, starting from p. */
  ghost predicate Legal(p: Pool, run: seq<Action>)
    decreases |run|
  {
    run == [] || (Enabled(p, run[0]) && Legal(Apply(p, run[0]), run[1..]))
  }

  ghost function After(p: Pool, run: seq<Action>): Pool
    requires Legal(p, run)
    decreases |run|
  {
    if run == [] then p else After(Apply(p, run[0]), run[1..])
  }

  // ---------- ownership ----------

  datatype Place =
    | InQueue(entry: Pooled)
    | InHand
    | BeingChecked(call: CallId)
    | Leased(call: CallId)
    | Closed
    | Overflowed
    | Dropped

  ghost predicate At(p: Pool, c: ConnId, place: Place) {
    match place
    case InQueue(e) => e in p.queue && e.value.conn == c
    case InHand => p.hand == Some(c)
    case BeingChecked(k) => k in p.calls && p.calls[k].Checking? && p.calls[k].entry.value.conn == c
    case Leased(k) => k in p.leases && p.leases[k] == c
    case Closed => c in p.closed
    case Overflowed => c in p.overflowed
    case Dropped => c in p.dropped
  }

  ghost predicate Somewhere(p: Pool, c: ConnId) {
    exists x: Place :: At(p, c, x)
  }

  /** Every dialed connection is in exactly one place, and in the queue at most once. */
  ghost predicate Owned(p: Pool) {
    && (forall e :: e in p.queue ==> p.queue[e] == 1)
    && (forall c: ConnId, x: Place :: At(p, c, x) ==> c < p.dialed)
    && (forall c: ConnId, x: Place, y: Place :: At(p, c, x) && At(p, c, y) ==> x == y)
    && (forall c: ConnId :: c < p.dialed ==> Somewhere(p, c))
    && (forall k :: k in p.calls ==> k !in p.leases)
  }

  /** The one place an action moves a connection away from, if it moves one. */
  ghost function Source(p: Pool, a: Action): Option<Place>
    requires Enabled(p, a)
  {
    match a
    case FillPush => Some(InHand)
    case Pop(k, entry) => if entry.Some? then Some(InQueue(entry.value)) else None
    case Reuse(k) => Some(BeingChecked(k))
    case Discard(k) => Some(BeingChecked(k))
    case Return(k) => Some(Leased(k))
    case Destroy(k) => Some(Leased(k))
    case _ => None
  }

  /** The place the action moves that connection to. */
  ghost function Target(p: Pool, a: Action): Place
    requires Enabled(p, a) && Source(p, a).Some?
  {
    match a
    case FillPush =>
      if MruQueues.Full(p.capacity, |p.queue|) then Dropped
      else InQueue(Pooling(p.hand.value, p.now))
    case Pop(k, _) => BeingChecked(k)
    case Reuse(k) => Leased(k)
    case Discard(_) => Closed
    case Return(k) =>
      if MruQueues.Full(p.capacity, |p.queue|) then Overflowed
      else InQueue(Pooling(p.leases[k], p.now))
    case _ => Closed
  }

  ghost function MovedTo(p: Pool, a: Action, x: Place): Place
    requires Enabled(p, a)
  {
    if Source(p, a) == Some(x) then Target(p, a) else x
  }

  /** The place of a connection dialed by the action. */
  ghost function NewPlace(a: Action): Place {
    if a.Dial? then Leased(a.call) else InHand
  }

  lemma QueueForward(p: Pool, a: Action, c: ConnId, e: Pooled)
    requires Owned(p) && Enabled(p, a) && At(p, c, InQueue(e))
    ensures At(Apply(p, a), c, MovedTo(p, a, InQueue(e)))
  {
    if a.Pop? && a.entry.Some? && e != a.entry.value {
      assert Apply(p, a).queue[e] == p.queue[e];
    }
  }

  lemma PlaceForward(p: Pool, a: Action, c: ConnId, x: Place)
    requires Owned(p) && Enabled(p, a) && At(p, c, x)
    ensures At(Apply(p, a), c, MovedTo(p, a, x))
  {
    if x.InQueue? {
      QueueForward(p, a, c, x.entry);
    }
  }

  ghost predicate CameFrom(p: Pool, a: Action, c: ConnId, y: Place)
    requires Enabled(p, a)
  {
    || (c == p.dialed && y == NewPlace(a) && Apply(p, a).dialed == p.dialed + 1)
    || (Source(p, a) != Some(y) && At(p, c, y))
    || (Source(p, a).Some? && y == Target(p, a) && At(p, c, Source(p, a).value))
  }

  lemma QueueOrigin(p: Pool, a: Action, c: ConnId, e: Pooled)
    requires Owned(p) && Enabled(p, a) && At(Apply(p, a), c, InQueue(e))
    ensures CameFrom(p, a, c, InQueue(e))
  {
  }

  lemma HolderOrigin(p: Pool, a: Action, c: ConnId, y: Place)
    requires Owned(p) && Enabled(p, a) && At(Apply(p, a), c, y)
    requires y.BeingChecked? || y.Leased? || y.InHand?
    ensures CameFrom(p, a, c, y)
  {
  }

  /** A connection is where it was, or it was just dialed, or it is the one that moved. */
  lemma PlaceOrigin(p: Pool, a: Action, c: ConnId, y: Place)
    requires Owned(p) && Enabled(p, a) && At(Apply(p, a), c, y)
    ensures CameFrom(p, a, c, y)
  {
    match y
    case InQueue(e) => QueueOrigin(p, a, c, e);
    case BeingChecked(_) => HolderOrigin(p, a, c, y);
    case Leased(_) => HolderOrigin(p, a, c, y);
    case InHand => HolderOrigin(p, a, c, y);
    case _ =>
  }

  lemma PlaceBackward(p: Pool, a: Action, c: ConnId, y: Place) returns (x: Place)
    requires Owned(p) && Enabled(p, a) && At(Apply(p, a), c, y)
    ensures (c == p.dialed && y == NewPlace(a) && Apply(p, a).dialed == p.dialed + 1)
            || (At(p, c, x) && y == MovedTo(p, a, x))
  {
    PlaceOrigin(p, a, c, y);
    x := if Source(p, a) != Some(y) && At(p, c, y) then y else if Source(p, a).Some? then Source(p, a).value else y;
  }

  lemma OwnedStep(p: Pool, a: Action)
    requires Owned(p) && Enabled(p, a)
    ensures Owned(Apply(p, a))
  {
    var q := Apply(p, a);
    forall c: ConnId, y: Place | At(q, c, y)
      ensures c < q.dialed
    {
      var x := PlaceBackward(p, a, c, y);
    }
    forall c: ConnId, y: Place, z: Place | At(q, c, y) && At(q, c, z)
      ensures y == z
    {
      var x1 := PlaceBackward(p, a, c, y);
      var x2 := PlaceBackward(p, a, c, z);
    }
    forall c: ConnId | c < q.dialed
      ensures Somewhere(q, c)
    {
      if c < p.dialed {
        assert Somewhere(p, c);
        var x: Place :| At(p, c, x);
        PlaceForward(p, a, c, x);
      } else {
        assert At(q, c, NewPlace(a));
      }
    }
    forall e | e in q.queue
      ensures q.queue[e] == 1
    {
      QueuedOnce(p, a, e);
    }
  }

  lemma QueuedOnce(p: Pool, a: Action, e: Pooled)
    requires Owned(p) && Enabled(p, a) && e in Apply(p, a).queue
    ensures Apply(p, a).queue[e] == 1
  {
    if e in p.queue {
      assert At(p, e.value.conn, InQueue(e));
      assert Source(p, a).Some? && At(p, e.value.conn, Source(p, a).value) ==> Source(p, a).value == InQueue(e);
    }
  }
}
