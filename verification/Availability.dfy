/** The availability load balancer of internal/network/sharding.go: per-client error records, the
    eligibility test, and every interleaving of overlapping Conn calls. A call reads the clients'
    records one by one, tests each with a clock reading of its own, picks an eligible client,
    dials it, and on failure records the error and starts over. */
module Availability {
  import opened Time
  import opened Wrappers

  const INITIAL_BACKOFF: int := 100 * MILLISECOND
  const RESET_WINDOW: int := 30 * SECOND

  /** lastError and errorExpiry of one client; None is the zero time. */
  datatype Backoff = Backoff(lastError: Option<int>, expiry: int)

  const NEVER_FAILED := Backoff(None, 0)

  predicate Eligible(b: Backoff, now: int) {
    b.lastError.None? || now - b.lastError.value > b.expiry
  }

  /** The update under the mutex: since is the reading taken by time.Since, now the one stored. */
  function RecordError(b: Backoff, since: int, now: int): Backoff {
    if b.lastError.None? || since - b.lastError.value > RESET_WINDOW
    then Backoff(Some(now), INITIAL_BACKOFF)
    else Backoff(Some(now), b.expiry * 2)
  }

  /** One recorded failure of a client: the reading its age test used, the one stored as its time,
      and the interval it left the client with. */
  datatype Failure = Failure(since: int, at: int, expiry: int)

  /** A client's record as a scan saw it after epoch failures, and the reading it was tested with. */
  datatype Seen = Seen(client: nat, backoff: Backoff, epoch: nat, at: int)

  datatype Phase =
    | Scanning
    | Reading(backoff: Backoff, epoch: nat, readAt: int)
    | Dialing(seen: Seen)

  datatype Call = Call(startedAt: int, failures: nat, tested: seq<Seen>, phase: Phase)

  type CallId = nat

  /** The balancer's records, the failures recorded so far per client, and the calls in progress. */
  datatype State = State(now: int, clients: seq<Backoff>, history: seq<seq<Failure>>, calls: map<CallId, Call>)

  datatype Action =
    | Tick(elapsed: nat)
    | Start(id: CallId)
    | Read(id: CallId)
    | Test(id: CallId)
    | Choose(id: CallId, i: nat)
    | GiveUp(id: CallId)
    | Succeed(id: CallId)
    | Fail(id: CallId, delay: nat)

  /** What a run may do at most: calls overlap, and a record that was read is tested within lag. */
  datatype Limits = Limits(overlap: nat, lag: nat)

  function NewState(n: nat, now: int): State {
    State(now, seq(n, _ => NEVER_FAILED), seq(n, _ => []), map[])
  }

  predicate Passed(seen: Seen) {
    Eligible(seen.backoff, seen.at)
  }

  ghost predicate WellFormed(s: State) {
    && |s.history| == |s.clients|
    && (forall id :: id in s.calls ==> WellFormedCall(s, s.calls[id]))
  }

  ghost predicate WellFormedCall(s: State, call: Call) {
    && |call.tested| <= |s.clients|
    && (forall i :: 0 <= i < |call.tested| ==> call.tested[i].client == i)
    && (call.phase.Reading? ==> |call.tested| < |s.clients|)
    && (call.phase.Dialing? ==> call.phase.seen.client < |s.clients|)
  }

  ghost predicate Enabled(l: Limits, s: State, a: Action)
    requires WellFormed(s)
  {
    match a
    case Tick(_) => true
    case Start(id) => id !in s.calls && |s.calls| < l.overlap
    case Read(id) => id in s.calls && s.calls[id].phase.Scanning? && |s.calls[id].tested| < |s.clients|
    case Test(id) => id in s.calls && s.calls[id].phase.Reading? && s.now - s.calls[id].phase.readAt <= l.lag
    case Choose(id, i) =>
      && id in s.calls && s.calls[id].phase.Scanning? && |s.calls[id].tested| == |s.clients|
      && i < |s.clients| && Passed(s.calls[id].tested[i])
    case GiveUp(id) =>
      && id in s.calls && s.calls[id].phase.Scanning? && |s.calls[id].tested| == |s.clients|
      && forall i :: 0 <= i < |s.clients| ==> !Passed(s.calls[id].tested[i])
    case Succeed(id) => id in s.calls && s.calls[id].phase.Dialing?
    case Fail(id, _) => id in s.calls && s.calls[id].phase.Dialing?
  }

  ghost function Apply(l: Limits, s: State, a: Action): State
    requires WellFormed(s) && Enabled(l, s, a)
  {
    match a
    case Tick(d) => s.(now := s.now + d)
    case Start(id) => s.(calls := s.calls[id := Call(s.now, 0, [], Scanning)])
    case Read(id) =>
      var call := s.calls[id];
      var c := |call.tested|;
      s.(calls := s.calls[id := call.(phase := Reading(s.clients[c], |s.history[c]|, s.now))])
    case Test(id) =>
      var call := s.calls[id];
      var seen := Seen(|call.tested|, call.phase.backoff, call.phase.epoch, s.now);
      s.(calls := s.calls[id := call.(tested := call.tested + [seen], phase := Scanning)])
    case Choose(id, i) =>
      var call := s.calls[id];
      s.(calls := s.calls[id := call.(phase := Dialing(call.tested[i]))])
    case GiveUp(id) => s.(calls := s.calls - {id})
    case Succeed(id) => s.(calls := s.calls - {id})
    case Fail(id, delay) =>
      var call := s.calls[id];
      var c := call.phase.seen.client;
      var b := RecordError(s.clients[c], s.now, s.now + delay);
      State(s.now + delay,
            s.clients[c := b],
            s.history[c := s.history[c] + [Failure(s.now, s.now + delay, b.expiry)]],
            s.calls[id := Call(call.startedAt, call.failures + 1, [], Scanning)])
  }

  lemma WellFormedStep(l: Limits, s: State, a: Action)
    requires WellFormed(s) && Enabled(l, s, a)
    ensures WellFormed(Apply(l, s, a)) && |Apply(l, s, a).clients| == |s.clients|
  {
    var t := Apply(l, s, a);
    forall id | id in t.calls
      ensures WellFormedCall(t, t.calls[id])
    {
      if id in s.calls {
        assert WellFormedCall(s, s.calls[id]);
      }
    }
  }

  ghost predicate Legal(l: Limits, s: State, run: seq<Action>)
    requires WellFormed(s)
    decreases |run|
  {
    run == [] || (Enabled(l, s, run[0]) && (WellFormedStep(l, s, run[0]); Legal(l, Apply(l, s, run[0]), run[1..])))
  }

  ghost function After(l: Limits, s: State, run: seq<Action>): State
    requires WellFormed(s) && Legal(l, s, run)
    decreases |run|
  {
    if run == [] then s else (WellFormedStep(l, s, run[0]); After(l, Apply(l, s, run[0]), run[1..]))
  }
}
