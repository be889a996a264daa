/** `LoadBalancingStrategy`: the four strategies as one datatype, each
    constructor carrying that strategy's own state, and one `Select` that
    returns the chosen server together with the strategy's next state. */
module LoadBalancingStrategy {
  import opened Base
  import RoundRobinStrategy
  import WeightedRoundRobinStrategy
  import LeastConnectionStrategy
  import RandomStrategy

  datatype Strategy =
    | RoundRobin(counter: nat)
    | WeightedRoundRobin(weights: seq<int>, cursor: WeightedRoundRobinStrategy.Cursor)
    | LeastConnection
    | Random

  /** `new RoundRobinStrategy()`: the counter starts at 0, so the first
      call takes position 0. */
  function NewRoundRobin(): (s: Strategy)
    ensures s.RoundRobin?
    ensures forall pool: seq<ServerId>, counts: Connections, draw: nat
              | |pool| > 0 && draw < |pool| ::
              Select(s, pool, counts, draw).result == Ok(pool[0])
  {
    RoundRobin(0)
  }

  /** `new WeightedRoundRobinStrategy(weights)`: the weights are kept by
      reference and the cursor starts at index 0, weight 0, which is below
      any positive total; so the new strategy can serve every pool the
      weights cover. */
  function NewWeightedRoundRobin(weights: seq<int>): (s: Strategy)
    ensures s.WeightedRoundRobin? && s.weights == weights
    ensures WeightedRoundRobinStrategy.WellFormed(weights) ==>
              forall n: nat | n <= |weights| :: Fits(s, n)
  {
    WeightedRoundRobin(weights, WeightedRoundRobinStrategy.Fresh)
  }

  /** The strategy can serve a pool of `n` servers: for the weighted
      strategy, well-formed weights covering every pool position and a
      cursor weight below the total; the others accept any pool. */
  predicate Fits(s: Strategy, n: nat)
  {
    match s
    case WeightedRoundRobin(weights, cursor) =>
      n > 0 ==> WeightedRoundRobinStrategy.Ready(weights, n, cursor)
    case _ => true
  }

  /** The result of one `selectServer` call: the server or the failure,
      and the strategy's state afterwards. */
  datatype Pick = Pick(result: Result<ServerId>, next: Strategy)

  /** `strategy.selectServer(serverPool, activeConnections)`; `draw` is the
      random strategy's oracle and ignored by the others. */
  function Select(s: Strategy, pool: seq<ServerId>, counts: Connections, draw: nat): (p: Pick)
    requires Fits(s, |pool|)
    requires |pool| > 0 ==> draw < |pool|
    ensures |pool| == 0 ==> p.result.Err?
    ensures |pool| > 0 && !s.LeastConnection? ==> p.result.Ok?
    ensures |pool| > 0 && AllCounted(pool, counts) ==> p.result.Ok?
    ensures p.result.Ok? ==> p.result.value in pool
    ensures Fits(p.next, |pool|)
    ensures s.LeastConnection? || s.Random? ==> p.next == s
    ensures s.RoundRobin? ==> p.next == RoundRobin(s.counter + 1)
    ensures s.WeightedRoundRobin? ==> p.next.WeightedRoundRobin? && p.next.weights == s.weights
  {
    match s
    case RoundRobin(counter) =>
      var (r, next) := RoundRobinStrategy.Select(pool, counter);
      Pick(r, RoundRobin(next))
    case WeightedRoundRobin(weights, cursor) =>
      var (r, next) := WeightedRoundRobinStrategy.Select(pool, weights, cursor);
      Pick(r, WeightedRoundRobin(weights, next))
    case LeastConnection =>
      Pick(LeastConnectionStrategy.Select(pool, counts), s)
    case Random =>
      Pick(RandomStrategy.Select(pool, draw), s)
  }

  /** Only the least-connection strategy reads the connection counts. */
  lemma CountsIgnored(s: Strategy, pool: seq<ServerId>, a: Connections, b: Connections, draw: nat)
    requires Fits(s, |pool|) && (|pool| > 0 ==> draw < |pool|)
    requires !s.LeastConnection?
    ensures Select(s, pool, a, draw) == Select(s, pool, b, draw)
  {
  }

  /** Fitting a pool is kept when the pool shrinks. */
  lemma FitsSmaller(s: Strategy, n: nat, m: nat)
    requires Fits(s, n) && m <= n
    ensures Fits(s, m)
  {
  }

  /** A new round-robin strategy visits an unchanged pool in pool order:
      its first |pool| calls return the pool itself. */
  lemma FreshRoundRobinInOrder(pool: seq<ServerId>)
    requires |pool| > 0
    ensures RoundRobinStrategy.Run(pool, NewRoundRobin().counter, |pool|) == pool
  {
    var n := |pool|;
    ModSmall(0, n);
    RoundRobinStrategy.RunIsRotation(pool, 0);
    assert pool[0..] + pool[..0] == pool;
  }

  /** The first call of a new weighted strategy over at least two servers
      returns the second server, whatever the weights (when usable). */
  lemma FreshWeightedPicksSecond(weights: seq<int>, pool: seq<ServerId>, counts: Connections, draw: nat)
    requires 2 <= |pool| <= |weights| && WeightedRoundRobinStrategy.WellFormed(weights)
    requires draw < |pool|
    ensures Select(NewWeightedRoundRobin(weights), pool, counts, draw).result == Ok(pool[1])
  {
    WeightedRoundRobinStrategy.FirstCallPicksSecond(pool, weights);
  }
}
