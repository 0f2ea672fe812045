/** PersistentConnPool and PersistentConn of internal/network/persistent.go as objects, for calls
    that do not overlap. Each pool carries the state of PoolProtocol that it stands for, and each
    method is shown to take that state through steps of the protocol. The clock reading and the
    dialer's outcome are parameters; connections are numbered in the order they are dialed. */
module ConnPools {
  import opened Time
  import opened Wrappers
  import opened PriorityQueues
  import opened MruQueues
  import opened PoolProtocol
  import opened PoolProperties

  /** Some pooled connection could be reused at this moment. */
  ghost predicate AnyFresh(queue: multiset<Pooled>, staleTimeout: int, now: int) {
    exists e :: e in queue && Fresh(staleTimeout, e.priority, now)
  }

  /** The pool at a later time. */
  ghost function Later(p: Pool, now: int): Pool
    requires p.now <= now
  {
    Apply(p, Tick(now - p.now))
  }

  /** One iteration of the start-up fill. */
  ghost function Filled(p: Pool, dialed: bool): Pool
    requires Enabled(p, FillDial(dialed))
  {
    var q := Apply(p, FillDial(dialed));
    if dialed then Apply(q, FillPush) else q
  }

  /** Conn uses what it popped. */
  predicate Reusable(entry: Option<Pooled>, staleTimeout: int, now: int) {
    entry.Some? && Fresh(staleTimeout, entry.value.priority, now)
  }

  /** A whole Conn call that pops entry: it reuses a fresh connection, or discards a stale one and
      dials. */
  ghost function Served(p: Pool, call: CallId, entry: Option<Pooled>, dialed: bool): Pool
    requires Enabled(p, Pop(call, entry))
  {
    var q := Apply(p, Pop(call, entry));
    if Reusable(entry, p.staleTimeout, p.now) then Apply(q, Reuse(call))
    else
      var q' := if entry.Some? then Apply(q, Discard(call)) else q;
      Apply(q', Dial(call, dialed))
  }

  /** What a Conn call comes to. It opens a connection only if no pooled one is fresh, although it
      looks at one entry only; if one is fresh it leases a most recent one. Either way only the
      entry it looked at leaves the queue, and each connection opened or closed has one event. */
  lemma ServedDialsOnlyIfNeeded(p: Pool, call: CallId, entry: Option<Pooled>, dialed: bool)
    requires Enabled(p, Pop(call, entry))
    ensures var q := Served(p, call, entry, dialed);
            && q.queue == (if entry.Some? then p.queue - multiset{entry.value} else p.queue)
            && q.calls == p.calls && q.now == p.now && q.overflowed == p.overflowed && q.dropped == p.dropped
            && if AnyFresh(p.queue, p.staleTimeout, p.now) then
                 && entry.Some? && q.leases == p.leases[call := entry.value.value.conn]
                 && q.dialed == p.dialed && q.closed == p.closed && q.opens == p.opens && q.closes == p.closes
               else
                 && q.leases == (if dialed then p.leases[call := p.dialed] else p.leases)
                 && q.dialed == p.dialed + (if dialed then 1 else 0) && q.opens == p.opens + (if dialed then 1 else 0)
                 && q.closed == p.closed + (if entry.Some? then {entry.value.value.conn} else {})
                 && q.closes == p.closes + (if entry.Some? then 1 else 0)
  {
    OneLookDecides(p.queue, entry, p.staleTimeout, p.now);
  }

  /** A most recent entry is fresh exactly when any entry is, so one look replaces a scan. */
  lemma OneLookDecides(queue: multiset<Pooled>, entry: Option<Pooled>, staleTimeout: int, now: int)
    requires if entry.Some? then MruQueues.IsMostRecent(queue, entry.value) else queue == multiset{}
    ensures AnyFresh(queue, staleTimeout, now) <==> Reusable(entry, staleTimeout, now)
  {
    if other :| other in queue && Fresh(staleTimeout, other.priority, now) {
      assert other.priority * SECOND <= entry.value.priority * SECOND;
    }
  }

  /** Some run of the protocol leads from a new pool to this one. */
  ghost predicate Reachable(p: Pool) {
    exists start: int, run :: Reaches(p.capacity, p.staleTimeout, start, run, p)
  }

  lemma ReachableStep(p: Pool, a: Action)
    requires Reachable(p) && Enabled(p, a)
    ensures Reachable(Apply(p, a))
  {
    var start: int, run :| Reaches(p.capacity, p.staleTimeout, start, run, p);
    var q := Apply(p, a);
    assert [a][1..] == [];
    assert Legal(q, []) && Legal(p, [a]) && After(p, [a]) == After(q, []);
    RunConcat(NewPool(p.capacity, p.staleTimeout, start), run, [a]);
    assert Reaches(q.capacity, q.staleTimeout, start, run + [a], q);
  }

  lemma FilledReachable(p: Pool, dialed: bool)
    requires Reachable(p) && Enabled(p, FillDial(dialed))
    ensures Reachable(Filled(p, dialed))
  {
    ReachableStep(p, FillDial(dialed));
    if dialed {
      ReachableStep(Apply(p, FillDial(dialed)), FillPush);
    }
  }

  lemma ServedReachable(p: Pool, call: CallId, entry: Option<Pooled>, dialed: bool)
    requires Reachable(p) && Enabled(p, Pop(call, entry))
    ensures Reachable(Served(p, call, entry, dialed))
  {
    var q := Apply(p, Pop(call, entry));
    ReachableStep(p, Pop(call, entry));
    if Reusable(entry, p.staleTimeout, p.now) {
      ReachableStep(q, Reuse(call));
    } else if entry.Some? {
      ReachableStep(q, Discard(call));
      ReachableStep(Apply(q, Discard(call)), Dial(call, dialed));
    } else {
      ReachableStep(q, Dial(call, dialed));
    }
  }

  /** What an object holds of a pool of the protocol. */
  datatype Fields = Fields(queue: multiset<Pooled>, opens: nat, closes: nat, shut: set<ConnId>)

  ghost function FieldsOf(p: Pool): Fields {
    Fields(p.queue, p.opens, p.closes, p.closed + p.overflowed)
  }

  /** The fields after a connection is closed with an event. */
  ghost function FieldsClosed(f: Fields, conn: ConnId): Fields {
    f.(closes := f.closes + 1, shut := f.shut + {conn})
  }

  ghost function FieldsDialed(f: Fields, dialed: bool): Fields {
    if dialed then f.(opens := f.opens + 1) else f
  }

  /** The fields after a Conn call that popped entry. */
  ghost function FieldsServed(f: Fields, entry: Option<Pooled>, reused: bool, dialed: bool): Fields {
    var popped := if entry.Some? then f.(queue := f.queue - multiset{entry.value}) else f;
    if reused then popped
    else FieldsDialed(if entry.Some? then FieldsClosed(popped, entry.value.value.conn) else popped, dialed)
  }

  lemma ServedFields(p: Pool, call: CallId, entry: Option<Pooled>, dialed: bool)
    requires Enabled(p, Pop(call, entry))
    ensures var q := Served(p, call, entry, dialed);
            var reused := Reusable(entry, p.staleTimeout, p.now);
            && q.capacity == p.capacity && q.staleTimeout == p.staleTimeout
            && FieldsOf(q) == FieldsServed(FieldsOf(p), entry, reused, dialed)
            && (call in q.leases <==> reused || dialed)
            && (call in q.leases ==> q.leases[call] == if reused then entry.value.value.conn else p.dialed)
  {
    var q := Apply(p, Pop(call, entry));
    if !Reusable(entry, p.staleTimeout, p.now) {
      if entry.Some? {
        DiscardFields(q, call);
        DialFields(Apply(q, Discard(call)), call, dialed);
      } else {
        DialFields(q, call, dialed);
      }
    }
  }

  lemma DiscardFields(p: Pool, call: CallId)
    requires Enabled(p, Discard(call))
    ensures FieldsOf(Apply(p, Discard(call))) == FieldsClosed(FieldsOf(p), p.calls[call].entry.value.conn)
  {
    var c := p.calls[call].entry.value.conn;
    assert p.closed + {c} + p.overflowed == p.closed + p.overflowed + {c};
  }

  lemma DialFields(p: Pool, call: CallId, dialed: bool)
    requires Enabled(p, Dial(call, dialed))
    ensures var q := Apply(p, Dial(call, dialed));
            && FieldsOf(q) == FieldsDialed(FieldsOf(p), dialed)
            && q.leases == if dialed then p.leases[call := p.dialed] else p.leases
  {
  }

  /** The fields after a connection is put back, or pushed by the fill. */
  ghost function FieldsPut(f: Fields, capacity: int, conn: ConnId, now: int): Fields {
    if Full(capacity, |f.queue|) then f.(shut := f.shut + {conn})
    else f.(queue := f.queue + multiset{Pooling(conn, now)})
  }

  ghost function FieldsFilled(f: Fields, capacity: int, dialed: Option<ConnId>, now: int): Fields {
    if dialed.None? then f
    else f.(opens := f.opens + 1, queue := FieldsPut(f, capacity, dialed.value, now).queue)
  }

  lemma FilledFields(p: Pool, dialed: bool)
    requires Enabled(p, FillDial(dialed))
    ensures var q := Filled(p, dialed);
            && q.capacity == p.capacity && q.staleTimeout == p.staleTimeout
            && FieldsOf(q) == FieldsFilled(FieldsOf(p), p.capacity, if dialed then Some(p.dialed) else None, p.now)
  {
  }

  ghost function Settlement(call: CallId, destroyed: bool): Action {
    if destroyed then PoolProtocol.Destroy(call) else Return(call)
  }

  ghost function FieldsSettled(f: Fields, capacity: int, conn: ConnId, destroyed: bool, now: int): Fields {
    if destroyed then FieldsClosed(f, conn) else FieldsPut(f, capacity, conn, now)
  }

  lemma SettledFields(p: Pool, call: CallId, destroyed: bool)
    requires call in p.leases
    ensures var q := Apply(p, Settlement(call, destroyed));
            && q.capacity == p.capacity && q.staleTimeout == p.staleTimeout
            && FieldsOf(q) == FieldsSettled(FieldsOf(p), p.capacity, p.leases[call], destroyed, p.now)
  {
    var q := Apply(p, Settlement(call, destroyed));
    assert q.closed + q.overflowed ==
           FieldsSettled(FieldsOf(p), p.capacity, p.leases[call], destroyed, p.now).shut;
  }

  class PersistentConnPool {
    const staleTimeout: int
    const conns: MruQueue<Stamped>
    var opens: nat          // open events emitted
    var closes: nat         // close events emitted
    var shut: set<ConnId>   // connections closed, with or without an event
    ghost var model: Pool

    ghost function Now(): Fields
      reads this, conns.store, conns.store.items
      requires conns.Valid()
    {
      Fields(conns.Entries(), opens, closes, shut)
    }

    ghost predicate Configured()
      reads this
    {
      Reachable(model) && model.capacity == conns.capacity && model.staleTimeout == staleTimeout
    }

    /** The model is a reachable state of the protocol and the fields are what it says. */
    ghost predicate Valid()
      reads this, conns.store, conns.store.items
    {
      conns.Valid() && Configured() && FieldsOf(model) == Now()
    }

    constructor (capacity: int, staleTimeout: int, now: int)
      ensures Valid() && model == NewPool(capacity, staleTimeout, now)
      ensures fresh(conns) && fresh(conns.store) && conns.store.Stored() == {}
    {
      this.staleTimeout := staleTimeout;
      conns := new MruQueue(capacity);
      opens, closes, shut := 0, 0, {};
      model := NewPool(capacity, staleTimeout, now);
      assert Reaches(capacity, staleTimeout, now, [], NewPool(capacity, staleTimeout, now));
    }

    ghost method Become(p: Pool)
      requires conns.Valid() && FieldsOf(p) == Now()
      requires Reachable(p) && p.capacity == conns.capacity && p.staleTimeout == staleTimeout
      modifies this`model
      ensures Valid() && model == p
    {
      model := p;
    }

    method EmitOpen()
      requires conns.Valid()
      modifies this`opens
      ensures conns.Valid() && Now() == FieldsDialed(old(Now()), true)
    {
      opens := opens + 1;
    }

    /** Close a connection that is not put back. */
    method Shut(conn: ConnId)
      requires conns.Valid()
      modifies this`shut
      ensures conns.Valid() && Now() == old(Now()).(shut := old(shut) + {conn})
    {
      shut := shut + {conn};
    }

    /** Close a connection with a close event. */
    method ShutWithEvent(conn: ConnId)
      requires conns.Valid()
      modifies this`closes, this`shut
      ensures conns.Valid() && Now() == FieldsClosed(old(Now()), conn)
    {
      closes := closes + 1;
      Shut(conn);
    }

    /** The code of one iteration of the start-up fill: a refused push goes unnoticed. */
    method Fill(now: int, dialed: Option<ConnId>)
      requires conns.Valid()
      modifies this`opens, conns.store`items, conns.store.Stored()`index
      ensures conns.Valid() && fresh(conns.store.Stored() - old(conns.store.Stored()))
      ensures var pooled := dialed.Some? && (conns.capacity <= 0 || |old(conns.Entries())| < conns.capacity);
              && conns.Entries() == old(conns.Entries()) +
                 (if pooled then multiset{Entry(Stamped(dialed.value, now), now / 1_000_000_000)} else multiset{})
              && opens == old(opens) + (if dialed.Some? then 1 else 0)
      ensures Now() == FieldsFilled(old(Now()), conns.capacity, dialed, now)
    {
      if dialed.Some? {
        EmitOpen();
        var _ := conns.Push(Stamped(dialed.value, now), now);
      }
    }

    /** One iteration of the start-up fill is a FillDial and a FillPush. */
    method FillOne(now: int, dialed: Option<ConnId>)
      requires Valid() && model.now <= now && Enabled(model, FillDial(dialed.Some?))
      requires dialed.Some? ==> dialed.value == model.dialed
      modifies this, conns.store`items, conns.store.Stored()`index
      ensures Valid() && fresh(conns.store.Stored() - old(conns.store.Stored()))
      ensures model == Filled(Later(old(model), now), dialed.Some?)
    {
      Fill(now, dialed);
      BecomeFilled(now, dialed);
    }

    ghost method BecomeFilled(now: int, dialed: Option<ConnId>)
      requires conns.Valid() && Configured() && model.now <= now && Enabled(model, FillDial(dialed.Some?))
      requires dialed.Some? ==> dialed.value == model.dialed
      requires Now() == FieldsFilled(FieldsOf(model), conns.capacity, dialed, now)
      modifies this`model
      ensures Valid() && model == Filled(Later(old(model), now), dialed.Some?)
    {
      var p := Later(model, now);
      ReachableStep(model, Tick(now - model.now));
      FilledReachable(p, dialed.Some?);
      FilledFields(p, dialed.Some?);
      Become(Filled(p, dialed.Some?));
    }

    /** The code of Conn: pop, look at the age of what was popped, and dial if it cannot be used. */
    method Draw(now: int, dialed: Option<ConnId>) returns (c: Option<ConnId>, ghost entry: Option<Pooled>)
      requires conns.Valid()
      modifies this`opens, this`closes, this`shut, conns.store`items, conns.store.Stored()`index
      ensures conns.Valid() && conns.store.Stored() <= old(conns.store.Stored())
      ensures if entry.Some? then MruQueues.IsMostRecent(old(conns.Entries()), entry.value)
              else old(conns.Entries()) == multiset{}
      ensures var reused := Reusable(entry, staleTimeout, now);
              && c == (if reused then Some(entry.value.value.conn) else dialed)
              && Now() == FieldsServed(old(Now()), entry, reused, dialed.Some?)
    {
      var top := conns.Pop();
      entry := if top.Popped? then Some(Entry(top.value, top.second)) else None;
      if top.Popped? && (staleTimeout <= 0 || SinceSecond(now, top.second) < staleTimeout) {
        c := Some(top.value.conn);
      } else {
        if top.Popped? {
          ShutWithEvent(top.value.conn);
        }
        if dialed.Some? {
          EmitOpen();
        }
        c := dialed;
      }
    }

    /** Conn pops, and then reuses, discards or dials as the protocol says. */
    method Take(now: int, ghost call: CallId, dialed: Option<ConnId>)
      returns (c: Option<ConnId>, ghost entry: Option<Pooled>)
      requires Valid() && model.now <= now && call !in model.calls && call !in model.leases
      requires dialed.Some? ==> dialed.value == model.dialed
      modifies this, conns.store`items, conns.store.Stored()`index
      ensures Valid() && conns.store.Stored() <= old(conns.store.Stored())
      ensures Enabled(Later(old(model), now), Pop(call, entry))
      ensures model == Served(Later(old(model), now), call, entry, dialed.Some?)
      ensures c == if call in model.leases then Some(model.leases[call]) else None
    {
      ghost var p := Later(model, now);
      ReachableStep(model, Tick(now - model.now));
      c, entry := Draw(now, dialed);
      ServedReachable(p, call, entry, dialed.Some?);
      ServedFields(p, call, entry, dialed.Some?);
      Become(Served(p, call, entry, dialed.Some?));
    }

    /** Conn: lease the connection that was taken. */
    method Conn(now: int, ghost call: CallId, dialed: Option<ConnId>)
      returns (r: Option<PersistentConn>, ghost entry: Option<Pooled>)
      requires Valid() && model.now <= now && call !in model.calls && call !in model.leases
      requires dialed.Some? ==> dialed.value == model.dialed
      modifies this, conns.store`items, conns.store.Stored()`index
      ensures Valid() && conns.store.Stored() <= old(conns.store.Stored())
      ensures Enabled(Later(old(model), now), Pop(call, entry))
      ensures model == Served(Later(old(model), now), call, entry, dialed.Some?)
      ensures r.Some? <==> call in model.leases
      ensures r.Some? ==> fresh(r.value) && r.value.pool == this && r.value.call == call
      ensures r.Some? ==> r.value.conn == model.leases[call] && !r.value.destroyed
    {
      var c;
      c, entry := Take(now, call, dialed);
      if c.None? {
        return None, entry;
      }
      var lease := new PersistentConn(c.value, call, this);
      return Some(lease), entry;
    }

    /** put: push, or close without an event when the pool is full. */
    method Put(conn: ConnId, now: int)
      requires conns.Valid()
      modifies this`shut, conns.store`items, conns.store.Stored()`index
      ensures conns.Valid() && fresh(conns.store.Stored() - old(conns.store.Stored()))
      ensures var pooled := conns.capacity <= 0 || |old(conns.Entries())| < conns.capacity;
              && conns.Entries() ==
                 old(conns.Entries()) +
                 (if pooled then multiset{Entry(Stamped(conn, now), now / 1_000_000_000)} else multiset{})
              && shut == old(shut) + (if pooled then {} else {conn})
      ensures Now() == FieldsPut(old(Now()), conns.capacity, conn, now)
    {
      var ok := conns.Push(Stamped(conn, now), now);
      if !ok {
        Shut(conn);
      }
    }

    ghost method BecomeSettled(call: CallId, destroyed: bool, now: int)
      requires conns.Valid() && Configured() && model.now <= now && call in model.leases
      requires Now() == FieldsSettled(FieldsOf(model), conns.capacity, model.leases[call], destroyed, now)
      modifies this`model
      ensures Valid() && model == Apply(Later(old(model), now), Settlement(call, destroyed))
    {
      var p := Later(model, now);
      ReachableStep(model, Tick(now - model.now));
      ReachableStep(p, Settlement(call, destroyed));
      SettledFields(p, call, destroyed);
      Become(Apply(p, Settlement(call, destroyed)));
    }
  }

  class PersistentConn {
    const conn: ConnId
    ghost const call: CallId
    const pool: PersistentConnPool
    var destroyed: bool

    constructor (conn: ConnId, ghost call: CallId, pool: PersistentConnPool)
      ensures this.conn == conn && this.call == call && this.pool == pool && !destroyed
    {
      this.conn := conn;
      this.call := call;
      this.pool := pool;
      destroyed := false;
    }

    /** The lease is not settled yet. */
    ghost predicate Unsettled(now: int)
      reads pool, pool.conns.store, pool.conns.store.items
    {
      && pool.Valid() && pool.model.now <= now
      && call in pool.model.leases && pool.model.leases[call] == conn
    }

    /** The callback that Close runs, every time: a destroyed connection is closed with an event,
        any other is put back. */
    method Closer(now: int)
      requires pool.conns.Valid()
      modifies pool`closes, pool`shut, pool.conns.store`items, pool.conns.store.Stored()`index
      ensures pool.conns.Valid() && fresh(pool.conns.store.Stored() - old(pool.conns.store.Stored()))
      ensures pool.Now() == FieldsSettled(old(pool.Now()), pool.conns.capacity, conn, destroyed, now)
    {
      if destroyed {
        pool.ShutWithEvent(conn);
      } else {
        pool.Put(conn, now);
      }
    }

    /** Run the callback. For a lease that is not settled yet this is the protocol's Destroy or
        Return; for any other it is not a step of the protocol, but the code does it all the same. */
    method Close(now: int)
      requires pool.conns.Valid()
      modifies pool, pool.conns.store`items, pool.conns.store.Stored()`index
      ensures pool.conns.Valid() && fresh(pool.conns.store.Stored() - old(pool.conns.store.Stored()))
      ensures pool.Now() == FieldsSettled(old(pool.Now()), pool.conns.capacity, conn, destroyed, now)
      ensures old(Unsettled(now)) ==>
                pool.Valid() && pool.model == Apply(Later(old(pool.model), now), Settlement(call, destroyed))
      ensures !old(Unsettled(now)) ==> pool.model == old(pool.model)
    {
      ghost var unsettled := Unsettled(now);
      Closer(now);
      if unsettled {
        pool.BecomeSettled(call, destroyed, now);
      }
    }

    /** Mark the lease destroyed and close it, whether it was settled before or not. */
    method Destroy(now: int)
      requires pool.conns.Valid()
      modifies this`destroyed, pool, pool.conns.store`items, pool.conns.store.Stored()`index
      ensures destroyed && pool.conns.Valid() && fresh(pool.conns.store.Stored() - old(pool.conns.store.Stored()))
      ensures pool.Now() == FieldsClosed(old(pool.Now()), conn)
      ensures old(Unsettled(now)) ==>
                pool.Valid() && pool.model == Apply(Later(old(pool.model), now), PoolProtocol.Destroy(call))
      ensures !old(Unsettled(now)) ==> pool.model == old(pool.model)
    {
      destroyed := true;
      Close(now);
    }
  }

  /** How many of two connections the queue has room for. */
  function RoomForTwo(capacity: int, size: nat): nat {
    if capacity <= 0 || size + 2 <= capacity then 2 else if size < capacity then 1 else 0
  }

  /** What two calls of Close, now and later, amount to. A lease that is not destroyed pools its
      connection as often as there is room for it, and closes it if there is no room for both: with
      room for one it is pooled and closed. A destroyed lease emits a second close event. */
  ghost function FieldsClosedTwice(f: Fields, capacity: int, conn: ConnId, destroyed: bool, now: int, later: int): Fields {
    var first, second := Pooling(conn, now), Pooling(conn, later);
    if destroyed then f.(closes := f.closes + 2, shut := f.shut + {conn})
    else
      match RoomForTwo(capacity, |f.queue|)
      case 0 => f.(shut := f.shut + {conn})
      case 1 => f.(queue := f.queue + multiset{first}, shut := f.shut + {conn})
      case _ => f.(queue := f.queue + multiset{first, second})
  }

  lemma SettledTwice(f: Fields, capacity: int, conn: ConnId, destroyed: bool, now: int, later: int)
    requires capacity > 0 ==> |f.queue| <= capacity
    ensures FieldsSettled(FieldsSettled(f, capacity, conn, destroyed, now), capacity, conn, destroyed, later) ==
            FieldsClosedTwice(f, capacity, conn, destroyed, now, later)
  {
    var first, second := Pooling(conn, now), Pooling(conn, later);
    assert |f.queue + multiset{first}| == |f.queue| + 1;
    assert f.queue + multiset{first} + multiset{second} == f.queue + multiset{first, second};
    assert f.shut + {conn} + {conn} == f.shut + {conn};
  }

  /** Nothing notices a second Close, whenever it comes. */
  method CloseTwice(lease: PersistentConn, now: int, later: int)
    requires lease.pool.conns.Valid() && now <= later
    modifies lease.pool, lease.pool.conns.store`items, lease.pool.conns.store.Stored()`index
    ensures var pool := lease.pool;
            && pool.conns.Valid()
            && pool.Now() ==
               FieldsClosedTwice(old(lease.pool.Now()), pool.conns.capacity, lease.conn, lease.destroyed, now, later)
  {
    SettledTwice(lease.pool.Now(), lease.pool.conns.capacity, lease.conn, lease.destroyed, now, later);
    lease.Close(now);
    lease.Close(later);
  }

  /** What the protocol's invariant says of the fields of a pool: the queue holds no connection
      twice and none that is closed or leased, and the events account for every connection. */
  lemma PoolAccounted(pool: PersistentConnPool)
    requires pool.Valid()
    ensures var queue := pool.conns.Entries();
            forall e, f :: e in queue && f in queue && e.value.conn == f.value.conn ==> e == f
    ensures forall e :: e in pool.conns.Entries() ==> pool.conns.Entries()[e] == 1 && e.value.conn !in pool.shut
    ensures forall k :: k in pool.model.leases ==> pool.model.leases[k] !in pool.shut
    ensures forall e, k :: e in pool.conns.Entries() && k in pool.model.leases ==> e.value.conn != pool.model.leases[k]
    ensures var p := pool.model;
            pool.opens == pool.closes + |pool.conns.Entries()| + |p.leases| + |CheckingCalls(p)| + HandSize(p)
                          + |p.overflowed| + |p.dropped|
  {
    var p := pool.model;
    var start: int, run :| Reaches(p.capacity, p.staleTimeout, start, run, p);
    ReachedInv(p.capacity, p.staleTimeout, start, run, p);
    forall k | k in p.leases
      ensures p.leases[k] !in pool.shut && forall e :: e in p.queue ==> e.value.conn != p.leases[k]
    {
      LeaseIsOnlyPlace(p, k);
    }
    forall e | e in p.queue
      ensures e.value.conn !in pool.shut && forall f :: f in p.queue && f.value.conn == e.value.conn ==> e == f
    {
      QueuedIsOnlyPlace(p, e);
    }
  }

  lemma QueuedIsOnlyPlace(p: Pool, e: Pooled)
    requires Owned(p) && e in p.queue
    ensures e.value.conn !in p.closed + p.overflowed
    ensures forall f :: f in p.queue && f.value.conn == e.value.conn ==> e == f
  {
    var c := e.value.conn;
    assert At(p, c, InQueue(e));
    assert !At(p, c, Closed) && !At(p, c, Overflowed);
    forall f | f in p.queue && f.value.conn == c
      ensures e == f
    {
      assert At(p, c, InQueue(f));
    }
  }
}
