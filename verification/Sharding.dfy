/** The failover policy and stats aggregation of internal/network/sharding.go. */
module Sharding {
  import opened Wrappers

  // ---------- failover ----------

  /** FailoverShardedClient.Conn: the first client that delivers; the ones before it all failed. */
  method FailoverConn(delivers: seq<bool>) returns (r: Option<nat>)
    ensures r.None? <==> true !in delivers
    ensures r.Some? ==> r.value < |delivers| && delivers[r.value] && true !in delivers[..r.value]
  {
    for i := 0 to |delivers|
      invariant true !in delivers[..i]
    {
      if delivers[i] {
        return Some(i);
      }
    }
    return None;
  }

  // ---------- stats ----------

  datatype Stats = Stats(successful: int, failed: int)

  /** A client of its own, or a sharded client over others, nested in any way. */
  datatype Client = Leaf(stats: Stats) | Sharded(children: seq<Client>)

  function Plus(a: Stats, b: Stats): Stats {
    Stats(a.successful + b.successful, a.failed + b.failed)
  }

  function Sum(all: seq<Stats>): Stats {
    if all == [] then Stats(0, 0) else Plus(Sum(all[..|all| - 1]), all[|all| - 1])
  }

  /** Stats() of a client: its own, or those of its children added up. */
  function StatsOf(c: Client): Stats
    decreases c, 0
  {
    match c
    case Leaf(stats) => stats
    case Sharded(children) => Sum(ChildStats(children))
  }

  function ChildStats(children: seq<Client>): (all: seq<Stats>)
    ensures |all| == |children|
    decreases children, 1
  {
    if children == [] then [] else [StatsOf(children[0])] + ChildStats(children[1..])
  }

  /** The stats of all clients that are not sharded, left to right. */
  function LeafStats(c: Client): seq<Stats>
    decreases c, 0
  {
    match c
    case Leaf(stats) => [stats]
    case Sharded(children) => LeavesOf(children)
  }

  function LeavesOf(children: seq<Client>): seq<Stats>
    decreases children, 1
  {
    if children == [] then [] else LeafStats(children[0]) + LeavesOf(children[1..])
  }

  /** The numbers added up. */
  function Added(numbers: seq<int>): int {
    if numbers == [] then 0 else numbers[0] + Added(numbers[1..])
  }

  function Successes(all: seq<Stats>): seq<int> {
    seq(|all|, i requires 0 <= i < |all| => all[i].successful)
  }

  function Failures(all: seq<Stats>): seq<int> {
    seq(|all|, i requires 0 <= i < |all| => all[i].failed)
  }

  lemma {:induction false} AddedAppend(numbers: seq<int>, x: int)
    ensures Added(numbers + [x]) == Added(numbers) + x
    decreases |numbers|
  {
    if numbers == [] {
      assert numbers + [x] == [x] && [x][1..] == [];
    } else {
      var all := numbers + [x];
      assert all[0] == numbers[0] && all[1..] == numbers[1..] + [x];
      AddedAppend(numbers[1..], x);
    }
  }

  /** Sum adds up each kind of number by itself. */
  lemma {:induction false} SumAddsUp(all: seq<Stats>)
    ensures Sum(all) == Stats(Added(Successes(all)), Added(Failures(all)))
    decreases |all|
  {
    if all != [] {
      var front, last := all[..|all| - 1], all[|all| - 1];
      SumAddsUp(front);
      assert Successes(all) == Successes(front) + [last.successful];
      assert Failures(all) == Failures(front) + [last.failed];
      AddedAppend(Successes(front), last.successful);
      AddedAppend(Failures(front), last.failed);
    }
  }

  lemma {:induction false} SumConcat(a: seq<Stats>, b: seq<Stats>)
    ensures Sum(a + b) == Plus(Sum(a), Sum(b))
    decreases |b|
  {
    if b == [] {
      assert a + b == a;
    } else {
      var all, front, last := a + b, b[..|b| - 1], b[|b| - 1];
      assert all[..|all| - 1] == a + front && all[|all| - 1] == last;
      SumConcat(a, front);
      assert Sum(all) == Plus(Sum(a + front), last);
    }
  }

  /** Aggregated stats are the sum over the leaf clients, however sharded clients are nested. */
  lemma {:induction false} StatsAreLeafSums(c: Client)
    ensures StatsOf(c) == Sum(LeafStats(c))
    ensures StatsOf(c) == Stats(Added(Successes(LeafStats(c))), Added(Failures(LeafStats(c))))
    decreases c, 0
  {
    SumAddsUp(LeafStats(c));
    match c
    case Leaf(stats) => assert [stats][..0] == [];
    case Sharded(children) => ChildrenAreLeafSums(children);
  }

  lemma {:induction false} ChildrenAreLeafSums(children: seq<Client>)
    ensures Sum(ChildStats(children)) == Sum(LeavesOf(children))
    decreases children, 1
  {
    if children != [] {
      StatsAreLeafSums(children[0]);
      ChildrenAreLeafSums(children[1..]);
      var first := StatsOf(children[0]);
      assert [first][..0] == [] && Sum([first]) == first;
      SumConcat([first], ChildStats(children[1..]));
      SumConcat(LeafStats(children[0]), LeavesOf(children[1..]));
    }
  }

  /** aggregateClientsStats: collect the children's stats, then add them up. */
  method AggregateClientsStats(children: seq<Client>) returns (total: Stats)
    ensures total == StatsOf(Sharded(children)) == Sum(LeavesOf(children))
    ensures total == Stats(Added(Successes(LeavesOf(children))), Added(Failures(LeavesOf(children))))
  {
    var multiple: seq<Stats> := [];
    for i := 0 to |children|
      invariant multiple + ChildStats(children[i..]) == ChildStats(children)
    {
      assert children[i..][0] == children[i] && children[i..][1..] == children[i + 1..];
      multiple := multiple + [StatsOf(children[i])];
    }
    assert children[|children|..] == [] && multiple == ChildStats(children);
    total := Stats(0, 0);
    for i := 0 to |multiple|
      invariant total == Sum(multiple[..i])
    {
      assert multiple[..i + 1][..i] == multiple[..i];
      total := Stats(total.successful + multiple[i].successful, total.failed + multiple[i].failed);
    }
    assert multiple[..|multiple|] == multiple;
    ChildrenAreLeafSums(children);
    SumAddsUp(LeavesOf(children));
  }
}
