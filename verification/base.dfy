/** Shared vocabulary of the load balancer: server identities, the
    connection table, and the failures the selection code can raise. */
module Base {

  /** A backend server, identified by its URL. */
  type ServerId = string

  /** The `activeConnections` table: in-flight requests per server. */
  type Connections = map<ServerId, int>

  /** One constructor per exception the modelled inputs can raise. */
  datatype Failure =
    | DivisionByZero          // ArithmeticException from `% serverPool.size()` on an empty pool
    | NonPositiveBound        // IllegalArgumentException from `Random.nextInt(0)`
    | NoAvailableServers      // IllegalStateException("No available servers")
    | MissingConnectionCount  // NullPointerException when a missing count is unboxed

  datatype Result<T> = Ok(value: T) | Err(failure: Failure)

  /** Sum of a list of integers (`stream().mapToInt(...).sum()`). */
  function Sum(xs: seq<int>): int
  {
    if |xs| == 0 then 0 else Sum(xs[..|xs| - 1]) + xs[|xs| - 1]
  }

  function Min(a: int, b: int): int
  {
    if a <= b then a else b
  }

  /** Every pool member has an entry in the connection table. */
  predicate AllCounted(pool: seq<ServerId>, counts: Connections)
  {
    forall s :: s in pool ==> s in counts
  }

  /** No server has a negative number of in-flight requests. */
  predicate NonNegative(counts: Connections)
  {
    forall s :: s in counts ==> counts[s] >= 0
  }

  // Arithmetic helpers for reasoning about `%` by a variable divisor.

  lemma MulNonNeg(a: int, b: int)
    requires a >= 0 && b >= 0
    ensures a * b >= 0
  {
  }

  lemma MulZero(d: int, n: int)
    requires n > 0 && -n < d * n < n
    ensures d == 0
  {
    if d >= 1 {
      MulNonNeg(d - 1, n);
    } else if d <= -1 {
      MulNonNeg(-d - 1, n);
    }
  }

  /** `a % n` is the remainder of any decomposition `a == q * n + r`. */
  lemma ModUnique(a: int, n: int, q: int, r: int)
    requires n > 0 && 0 <= r < n && a == q * n + r
    ensures a % n == r
  {
    var q0, r0 := a / n, a % n;
    assert a == q0 * n + r0;
    assert (q - q0) * n == r0 - r;
    MulZero(q - q0, n);
  }

  /** Remainders of a value below the divisor and of the divisor itself. */
  lemma ModSmall(x: nat, n: nat)
    requires n > 0
    ensures x < n ==> x % n == x
    ensures x == n ==> x % n == 0
  {
    if x < n {
      ModUnique(x, n, 0, x);
    } else if x == n {
      ModUnique(x, n, 1, 0);
    }
  }
}
