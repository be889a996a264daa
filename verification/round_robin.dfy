/** `RoundRobinStrategy`: a call counter taken modulo the current pool size. */
module RoundRobinStrategy {
  import opened Base

  /** One `selectServer` call with counter value `counter`. The counter is
      incremented (`getAndIncrement`) before the modulo is taken, so it
      advances even when the empty pool makes `% 0` throw. Connection
      counts are not an input. */
  function Select(pool: seq<ServerId>, counter: nat): (r: (Result<ServerId>, nat))
    ensures r.1 == counter + 1
    ensures r.0.Ok? <==> |pool| > 0
    ensures r.0.Ok? ==> r.0.value in pool
    ensures r.0.Err? ==> r.0.failure == DivisionByZero
  {
    if |pool| == 0 then (Err(DivisionByZero), counter + 1)
    else (Ok(pool[counter % |pool|]), counter + 1)
  }

  /** The servers returned by `k` consecutive calls over an unchanged pool,
      starting with counter value `counter`. */
  function Run(pool: seq<ServerId>, counter: nat, k: nat): (r: seq<ServerId>)
    requires |pool| > 0
    ensures |r| == k
    ensures forall s :: s in r ==> s in pool
    decreases k
  {
    if k == 0 then []
    else
      [Select(pool, counter).0.value] + Run(pool, counter + 1, k - 1)
  }

  /** Call `j` of a run returns the server at position (counter + j) mod |pool|. */
  lemma {:induction false} RunIndex(pool: seq<ServerId>, counter: nat, k: nat, j: nat)
    requires |pool| > 0 && j < k
    ensures Run(pool, counter, k)[j] == pool[(counter + j) % |pool|]
    decreases k
  {
    if j > 0 {
      assert Run(pool, counter, k)[j] == Run(pool, counter + 1, k - 1)[j - 1];
      RunIndex(pool, counter + 1, k - 1, j - 1);
    }
  }

  /** |pool| consecutive calls visit the pool in order, rotated to start at
      the counter's position: every position exactly once. */
  lemma RunIsRotation(pool: seq<ServerId>, counter: nat)
    requires |pool| > 0
    ensures var m := counter % |pool|;
            Run(pool, counter, |pool|) == pool[m..] + pool[..m]
    ensures multiset(Run(pool, counter, |pool|)) == multiset(pool)
  {
    var n := |pool|;
    var m := counter % n;
    var run := Run(pool, counter, n);
    var rot := pool[m..] + pool[..m];
    forall j | 0 <= j < n
      ensures run[j] == rot[j]
    {
      RunIndex(pool, counter, n, j);
      RotatedPosition(counter, n, j);
    }
    assert run == rot;
    assert pool == pool[..m] + pool[m..];
  }

  /** Position `j` after the counter's position, wrapped at `n`. */
  lemma RotatedPosition(counter: nat, n: nat, j: nat)
    requires j < n
    ensures (counter + j) % n ==
              if counter % n + j < n then counter % n + j else counter % n + j - n
  {
    var q := counter / n;
    var m := counter % n;
    assert counter == q * n + m;
    if m + j < n {
      ModUnique(counter + j, n, q, m + j);
    } else {
      ModUnique(counter + j, n, q + 1, m + j - n);
    }
  }
}
