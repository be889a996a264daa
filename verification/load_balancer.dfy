/** `LoadBalancer`: the server pool, the connection table and the current
    strategy, with the operations run one at a time. Health is a predicate
    in place of the HTTP probe, and the random strategy's draw is an
    oracle index. */
module LoadBalancer {
  import opened Base
  import opened LoadBalancingStrategy
  import HealthCheck
  import RoundRobinStrategy

  datatype Balancer = Balancer(pool: seq<ServerId>, connections: Connections, strategy: Strategy)

  /** The state invariant: every pool member has a connection count, and
      the strategy can serve the pool. */
  predicate Valid(lb: Balancer)
  {
    AllCounted(lb.pool, lb.connections) && Fits(lb.strategy, |lb.pool|)
  }

  /** The constructor's loop: `activeConnections.put(server, 0)` for each
      initial server in order. */
  function ZeroCounts(servers: seq<ServerId>): (m: Connections)
    ensures forall s :: s in m <==> s in servers
    ensures forall s :: s in m ==> m[s] == 0
  {
    if |servers| == 0 then map[]
    else ZeroCounts(servers[..|servers| - 1])[servers[|servers| - 1] := 0]
  }

  /** `new LoadBalancer(serverPool, strategy)`: the pool is a copy of the
      list (duplicates and order kept) and every listed server starts with
      no connections. */
  function Create(servers: seq<ServerId>, strategy: Strategy): (lb: Balancer)
    ensures lb.pool == servers && lb.strategy == strategy
    ensures forall s :: s in lb.connections <==> s in servers
    ensures forall s :: s in servers ==> lb.connections[s] == 0
    ensures NonNegative(lb.connections)
    ensures Fits(strategy, |servers|) ==> Valid(lb)
  {
    Balancer(servers, ZeroCounts(servers), strategy)
  }

  /** `setStrategy`: the balancer holds the given strategy, with the state
      that strategy value carries; pool and counts are untouched. */
  function SetStrategy(lb: Balancer, s: Strategy): (r: Balancer)
    ensures r.pool == lb.pool && r.connections == lb.connections && r.strategy == s
    ensures AllCounted(lb.pool, lb.connections) && Fits(s, |lb.pool|) ==> Valid(r)
  {
    lb.(strategy := s)
  }

  /** `getServer`: the current strategy's choice over the current pool and
      counts. Only the strategy's own state changes. */
  function GetServer(lb: Balancer, draw: nat): (r: (Result<ServerId>, Balancer))
    requires Fits(lb.strategy, |lb.pool|)
    requires |lb.pool| > 0 ==> draw < |lb.pool|
    ensures r.1.pool == lb.pool && r.1.connections == lb.connections
    ensures var p := Select(lb.strategy, lb.pool, lb.connections, draw);
            r.0 == p.result && r.1.strategy == p.next
    ensures Fits(r.1.strategy, |r.1.pool|)
    ensures r.0.Ok? ==> r.0.value in lb.pool
    ensures |lb.pool| == 0 ==> r.0.Err?
    ensures Valid(lb) ==> Valid(r.1) && (r.0.Ok? <==> |lb.pool| > 0)
  {
    var p := Select(lb.strategy, lb.pool, lb.connections, draw);
    (p.result, lb.(strategy := p.next))
  }

  /** After `setStrategy(s)`, `getServer` answers with `s`'s selection. */
  lemma GetServerAfterSetStrategy(lb: Balancer, s: Strategy, draw: nat)
    requires Fits(s, |lb.pool|) && (|lb.pool| > 0 ==> draw < |lb.pool|)
    ensures GetServer(SetStrategy(lb, s), draw).0 == Select(s, lb.pool, lb.connections, draw).result
  {
  }

  /** Two `getServer` calls on a balancer holding a round-robin strategy
      with counter `c` return the servers at positions `c` and `c + 1`
      modulo the pool size, and leave the counter at `c + 2`. */
  lemma RoundRobinGetServerTwice(lb: Balancer, c: nat)
    requires lb.strategy == RoundRobin(c) && |lb.pool| > 0
    ensures var (first, lb1) := GetServer(lb, 0);
            var (second, lb2) := GetServer(lb1, 0);
            && first == Ok(lb.pool[c % |lb.pool|])
            && second == Ok(lb.pool[(c + 1) % |lb.pool|])
            && lb2.strategy == RoundRobin(c + 2)
  {
    var pool := lb.pool;
    RoundRobinStrategy.RunIndex(pool, c, 2, 0);
    RoundRobinStrategy.RunIndex(pool, c, 2, 1);
    assert RoundRobinStrategy.Run(pool, c, 2)[1] == RoundRobinStrategy.Run(pool, c + 1, 1)[0];
  }

  /** One health-check pass: unhealthy servers leave the pool, order is
      kept, and nobody is added; counts and strategy are untouched. */
  function CheckHealth(lb: Balancer, healthy: ServerId -> bool): (r: Balancer)
    ensures forall s :: s in r.pool <==> s in lb.pool && healthy(s)
    ensures |r.pool| <= |lb.pool|
    ensures r.connections == lb.connections && r.strategy == lb.strategy
    ensures Valid(lb) ==> Valid(r)
  {
    lb.(pool := HealthCheck.Filter(lb.pool, healthy))
  }

  /** `put(server, get(server) + 1)` when a request starts. */
  function Acquire(counts: Connections, s: ServerId): (r: Connections)
    requires s in counts
    ensures r.Keys == counts.Keys
    ensures r[s] == counts[s] + 1
    ensures forall t :: t in counts && t != s ==> r[t] == counts[t]
  {
    counts[s := counts[s] + 1]
  }

  /** `put(server, get(server) - 1)` when it completes. */
  function Release(counts: Connections, s: ServerId): (r: Connections)
    requires s in counts
    ensures r.Keys == counts.Keys
    ensures r[s] == counts[s] - 1
    ensures forall t :: t in counts && t != s ==> r[t] == counts[t]
  {
    counts[s := counts[s] - 1]
  }

  /** Releasing undoes acquiring. */
  lemma ReleaseUndoesAcquire(counts: Connections, s: ServerId)
    requires s in counts
    ensures Release(Acquire(counts, s), s) == counts
  {
  }

  /** How the simulated processing delay ends. */
  datatype Completion = Completed | Interrupted

  /** `sendRequestToServer`: count up, process, count down. An interrupt
      during processing is caught after the increment and before the
      decrement, so the decrement is skipped. A missing count fails when
      it is unboxed. */
  function Send(lb: Balancer, server: ServerId, how: Completion): (r: Result<Balancer>)
    ensures r.Ok? <==> server in lb.connections
    ensures r.Err? ==> r.failure == MissingConnectionCount
    ensures r.Ok? ==> r.value.pool == lb.pool && r.value.strategy == lb.strategy
    ensures r.Ok? ==> r.value.connections.Keys == lb.connections.Keys
    ensures r.Ok? && how == Completed ==> r.value.connections == lb.connections
    ensures r.Ok? && how == Interrupted ==>
              && r.value.connections[server] == lb.connections[server] + 1
              && forall t :: t in lb.connections && t != server ==>
                   r.value.connections[t] == lb.connections[t]
  {
    if server !in lb.connections then Err(MissingConnectionCount)
    else
      var during := Acquire(lb.connections, server);
      match how
      case Completed =>
        ReleaseUndoesAcquire(lb.connections, server);
        Ok(lb.(connections := Release(during, server)))
      case Interrupted =>
        Ok(lb.(connections := during))
  }

  /** While a request is in flight the chosen server carries one more
      connection than before, and no count is negative. */
  lemma InFlightCount(lb: Balancer, server: ServerId)
    requires server in lb.connections && NonNegative(lb.connections)
    ensures var during := Acquire(lb.connections, server);
            && during[server] == lb.connections[server] + 1
            && NonNegative(during)
  {
  }

  /** The body of the task `handleRequest` submits: pick a server, then
      send the request to it. */
  function HandleRequest(lb: Balancer, draw: nat, how: Completion): (r: (Result<ServerId>, Balancer))
    requires Fits(lb.strategy, |lb.pool|)
    requires |lb.pool| > 0 ==> draw < |lb.pool|
    ensures r.1.pool == lb.pool && r.1.connections.Keys == lb.connections.Keys
    ensures var (picked, chosen) := GetServer(lb, draw);
            && r.1.strategy == chosen.strategy
            && (r.0.Ok? <==> picked.Ok? && picked.value in lb.connections)
            && (r.0.Ok? ==> r.0 == picked)
    ensures Fits(r.1.strategy, |r.1.pool|)
    ensures Valid(lb) ==> Valid(r.1) && (r.0.Ok? <==> |lb.pool| > 0)
    ensures r.0.Ok? ==> r.0.value in lb.pool && r.0.value in lb.connections
    ensures r.0.Err? || how == Completed ==> r.1.connections == lb.connections
    ensures r.0.Ok? && how == Interrupted ==>
              r.1.connections == lb.connections[r.0.value := lb.connections[r.0.value] + 1]
    ensures NonNegative(lb.connections) ==> NonNegative(r.1.connections)
  {
    var (picked, chosen) := GetServer(lb, draw);
    match picked
    case Err(e) => (Err(e), chosen)
    case Ok(server) =>
      match Send(chosen, server, how)
      case Err(e) => (Err(e), chosen)
      case Ok(after) => (Ok(server), after)
  }

  // -----------------------------------------------------------------------
  // Sequential runs of requests, health-check passes and strategy changes.

  datatype Event =
    | Request(draw: nat, how: Completion)
    | HealthPass(healthy: ServerId -> bool)
    | Switch(strategy: Strategy)

  /** What an event needs of the state it meets: a draw inside the pool and
      a new strategy that fits it. */
  predicate Allowed(lb: Balancer, e: Event)
  {
    match e
    case Request(draw, _) => |lb.pool| > 0 ==> draw < |lb.pool|
    case HealthPass(_) => true
    case Switch(s) => Fits(s, |lb.pool|)
  }

  function Step(lb: Balancer, e: Event): (r: Balancer)
    requires Fits(lb.strategy, |lb.pool|) && Allowed(lb, e)
    ensures Fits(r.strategy, |r.pool|)
    ensures Valid(lb) ==> Valid(r)
    ensures NonNegative(lb.connections) ==> NonNegative(r.connections)
    ensures forall s :: s in r.pool ==> s in lb.pool
  {
    match e
    case Request(draw, how) => HandleRequest(lb, draw, how).1
    case HealthPass(healthy) =>
      FitsSmaller(lb.strategy, |lb.pool|, |CheckHealth(lb, healthy).pool|);
      CheckHealth(lb, healthy)
    case Switch(s) => SetStrategy(lb, s)
  }

  /** Every event of the run meets the state it finds. */
  predicate Admissible(lb: Balancer, events: seq<Event>)
    decreases |events|
  {
    && Fits(lb.strategy, |lb.pool|)
    && (|events| > 0 ==> Allowed(lb, events[0]) && Admissible(Step(lb, events[0]), events[1..]))
  }

  function Run(lb: Balancer, events: seq<Event>): Balancer
    requires Admissible(lb, events)
    decreases |events|
  {
    if |events| == 0 then lb else Run(Step(lb, events[0]), events[1..])
  }

  /** Over any run the invariant holds and no count goes negative. */
  lemma {:induction false} RunKeepsInvariant(lb: Balancer, events: seq<Event>)
    requires Admissible(lb, events) && Valid(lb) && NonNegative(lb.connections)
    ensures Valid(Run(lb, events)) && NonNegative(Run(lb, events).connections)
    decreases |events|
  {
    if |events| > 0 {
      RunKeepsInvariant(Step(lb, events[0]), events[1..]);
    }
  }

  /** Over any run the pool only loses members. */
  lemma {:induction false} RunShrinksPool(lb: Balancer, events: seq<Event>)
    requires Admissible(lb, events)
    ensures forall s :: s in Run(lb, events).pool ==> s in lb.pool
    decreases |events|
  {
    if |events| > 0 {
      RunShrinksPool(Step(lb, events[0]), events[1..]);
    }
  }

  /** Completed requests leave the pool and every connection count as
      they found them, however many there are. */
  lemma {:induction false} CompletedRequestsBalance(lb: Balancer, events: seq<Event>)
    requires Admissible(lb, events)
    requires forall i :: 0 <= i < |events| ==> events[i].Request? && events[i].how == Completed
    ensures Run(lb, events).pool == lb.pool
    ensures Run(lb, events).connections == lb.connections
    decreases |events|
  {
    if |events| > 0 {
      CompletedRequestsBalance(Step(lb, events[0]), events[1..]);
    }
  }

  /** A run splits at any point into the run of its prefix followed by the
      run of the rest. */
  lemma {:induction false} RunSplit(lb: Balancer, events: seq<Event>, k: nat)
    requires Admissible(lb, events) && k <= |events|
    ensures Admissible(lb, events[..k])
    ensures Admissible(Run(lb, events[..k]), events[k..])
    ensures Run(lb, events) == Run(Run(lb, events[..k]), events[k..])
    decreases k
  {
    if k == 0 {
      assert events[k..] == events;
    } else {
      var next := Step(lb, events[0]);
      RunSplit(next, events[1..], k - 1);
      assert events[..k][0] == events[0];
      assert events[..k][1..] == events[1..][..k - 1];
      assert events[1..][k - 1..] == events[k..];
    }
  }

  /** A server absent from the pool at some point of a run is absent from
      then on: nothing puts a removed server back. */
  lemma RemovedStaysOut(lb: Balancer, events: seq<Event>, k: nat)
    requires Admissible(lb, events) && k <= |events|
    ensures Admissible(lb, events[..k])
    ensures forall s :: s !in Run(lb, events[..k]).pool ==> s !in Run(lb, events).pool
  {
    RunSplit(lb, events, k);
    RunShrinksPool(Run(lb, events[..k]), events[k..]);
  }
}
