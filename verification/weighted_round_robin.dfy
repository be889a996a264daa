/** `WeightedRoundRobinStrategy`: the skip loop over `currentIndex` and
    `currentWeight`. Weights are indexed by pool position, and the total is
    the sum of the whole weight list, not only of the positions still in
    the pool. */
module WeightedRoundRobinStrategy {
  import opened Base

  /** The strategy's mutable state: `currentIndex` and `currentWeight`. */
  datatype Cursor = Cursor(index: nat, weight: nat)

  /** A fresh instance starts at index 0 and weight 0. */
  const Fresh := Cursor(0, 0)

  /** Weights the skip loop can work with: none negative and a positive
      total, so that `% totalWeight` is defined and the loop ends. */
  predicate WellFormed(weights: seq<int>)
  {
    && (forall k :: 0 <= k < |weights| ==> weights[k] >= 0)
    && Sum(weights) > 0
  }

  /** What one call needs: a non-empty pool no longer than the weight list
      (weights are read by pool position), well-formed weights, and a
      cursor weight inside `[0, totalWeight)`. */
  predicate Ready(weights: seq<int>, n: nat, c: Cursor)
  {
    0 < n <= |weights| && WellFormed(weights) && c.weight < Sum(weights)
  }

  /** Linear position of a cursor on the `total × n` grid of
      (weight, index) slots the loop walks through. */
  function Slot(n: nat, c: Cursor): nat
  {
    c.weight * n + c.index
  }

  /** One iteration of the loop's state update: the index moves to the
      next position and wraps to 0 after the last one; only on that wrap
      does the weight move, one step forward, wrapping to 0 at the total. */
  function Advance(n: nat, total: int, c: Cursor): (r: Cursor)
    requires n > 0 && total > 0
    ensures r.index < n
    ensures r.index != 0 ==> r.weight == c.weight
    ensures c.index + 1 < n ==> r == Cursor(c.index + 1, c.weight)
    ensures c.index + 1 == n ==> r.index == 0
    ensures r.index == 0 && c.weight < total ==>
              r.weight == if c.weight + 1 == total then 0 else c.weight + 1
    ensures c.weight < total ==> r.weight < total
  {
    ModSmall(c.index + 1, n);
    ModSmall(c.weight + 1, total);
    var i := (c.index + 1) % n;
    Cursor(i, if i == 0 then (c.weight + 1) % total else c.weight)
  }

  /** Read on the `total × n` grid of (weight, index) slots, one iteration
      moves the cursor exactly one slot forward, wrapping after the last. */
  lemma AdvanceSlot(n: nat, total: int, c: Cursor)
    requires n > 0 && total > 0 && c.index < n && c.weight < total
    ensures Slot(n, Advance(n, total, c)) == (Slot(n, c) + 1) % (total * n)
  {
    var r := Advance(n, total, c);
    var s := Slot(n, c);
    MulNonNeg(total - 1 - c.weight, n);
    assert (total - 1 - c.weight) * n == total * n - c.weight * n - n;
    if c.index + 1 < n {
      ModSmall(s + 1, total * n);
    } else if c.weight + 1 < total {
      assert s + 1 == (c.weight + 1) * n;
      ModSmall(s + 1, total * n);
    } else {
      assert s + 1 == total * n;
      ModSmall(s + 1, total * n);
    }
  }

  /** Steps left before the index wraps; an index beyond a pool that has
      since shrunk counts as a full round. */
  function Pending(n: nat, c: Cursor): nat
  {
    if c.index < n then n - c.index else n + 1
  }

  /** The loop of `selectServer`: advance until the weight at the cursor's
      index is at least the cursor's weight. The result is the cursor the
      call leaves behind; the server returned is `pool[r.index]`. */
  function Spin(weights: seq<int>, n: nat, c: Cursor): (r: Cursor)
    requires Ready(weights, n, c)
    ensures r.index < n
    ensures r.weight < Sum(weights)
    ensures weights[r.index] >= r.weight
    decreases Sum(weights) - c.weight, Pending(n, c)
  {
    var next := Advance(n, Sum(weights), c);
    if weights[next.index] >= next.weight then next
    else
      assert next.weight > 0;
      Spin(weights, n, next)
  }

  /** `selectServer` for the weighted strategy. An empty pool makes
      `% serverPool.size()` throw before the index is stored, so the state
      is left unchanged. */
  function Select(pool: seq<ServerId>, weights: seq<int>, c: Cursor): (r: (Result<ServerId>, Cursor))
    requires |pool| > 0 ==> Ready(weights, |pool|, c)
    ensures r.0.Ok? <==> |pool| > 0
    ensures r.0.Err? ==> r.0.failure == DivisionByZero && r.1 == c
    ensures r.0.Ok? ==> r.1.index < |pool| && r.0.value == pool[r.1.index]
    ensures r.0.Ok? ==> weights[r.1.index] >= r.1.weight
    ensures c.weight < Sum(weights) ==> r.1.weight < Sum(weights)
  {
    if |pool| == 0 then (Err(DivisionByZero), c)
    else
      var next := Spin(weights, |pool|, c);
      (Ok(pool[next.index]), next)
  }

  /** The `while (true)` loop as written, with the index and weight held in
      local state; it agrees with `Spin`. */
  method SelectLoop(pool: seq<ServerId>, weights: seq<int>, start: Cursor)
    returns (server: ServerId, c: Cursor)
    requires Ready(weights, |pool|, start)
    ensures c == Spin(weights, |pool|, start)
    ensures server == pool[c.index]
  {
    var n := |pool|;
    var total := Sum(weights);
    c := start;
    var found := false;
    while !found
      invariant c.weight < total
      invariant found ==> c.index < n && weights[c.index] >= c.weight
      invariant Spin(weights, n, start) == if found then c else Spin(weights, n, c)
      decreases !found, total - c.weight, Pending(n, c)
    {
      var index := (c.index + 1) % n;
      var weight := c.weight;
      if index == 0 {
        weight := (weight + 1) % total;
      }
      ghost var prev := c;
      c := Cursor(index, weight);
      assert c == Advance(n, total, prev);
      found := weights[index] >= weight;
      if !found {
        assert weights[index] >= 0;
        assert c.weight > prev.weight || (c.weight == prev.weight && Pending(n, c) < Pending(n, prev));
      }
    }
    server := pool[c.index];
  }

  /** A fresh instance over at least two servers first returns `pool[1]`:
      the first step moves the index to 1 without touching the weight 0. */
  lemma FirstCallPicksSecond(pool: seq<ServerId>, weights: seq<int>)
    requires 2 <= |pool| <= |weights| && WellFormed(weights)
    ensures Select(pool, weights, Fresh).0 == Ok(pool[1])
  {
  }

  // ---------------------------------------------------------------------
  // One full cycle of `currentWeight`, derived from the loop.

  /** Positions `from .. n-1` the loop accepts while the weight is `w`. */
  function Round(weights: seq<int>, n: nat, w: nat, from: nat): seq<nat>
    requires n <= |weights|
    decreases n - from
  {
    if from >= n then []
    else if weights[from] >= w then [from] + Round(weights, n, w, from + 1)
    else Round(weights, n, w, from + 1)
  }

  /** Positions accepted in the rounds after weight `w`, up to and
      including the slot (index 0, weight 0) that closes the cycle. */
  function Tail(weights: seq<int>, n: nat, w: nat): seq<nat>
    requires 0 < n <= |weights|
    decreases Sum(weights) - w
  {
    if w + 1 >= Sum(weights) then [0]
    else Round(weights, n, w + 1, 0) + Tail(weights, n, w + 1)
  }

  /** Positions the loop still accepts after the cursor `c`, up to the end
      of the current cycle. */
  function Rest(weights: seq<int>, n: nat, c: Cursor): seq<nat>
    requires 0 < n <= |weights|
  {
    Round(weights, n, c.weight, c.index + 1) + Tail(weights, n, c.weight)
  }

  /** `k` consecutive calls over an unchanged pool of size `n`: the
      positions returned and the cursor left behind. */
  function Calls(weights: seq<int>, n: nat, c: Cursor, k: nat): (r: (seq<nat>, Cursor))
    requires Ready(weights, n, c)
    ensures |r.0| == k && Ready(weights, n, r.1)
    ensures forall i :: i in r.0 ==> i < n
    decreases k
  {
    if k == 0 then ([], c)
    else
      var next := Spin(weights, n, c);
      var (tail, last) := Calls(weights, n, next, k - 1);
      ([next.index] + tail, last)
  }

  /** One call consumes exactly the next accepted position of the cycle;
      if it lands on the closing slot, the cycle is complete. */
  lemma {:induction false} SpinTakesNext(weights: seq<int>, n: nat, c: Cursor)
    requires Ready(weights, n, c) && c.index < n
    ensures var r := Spin(weights, n, c);
            Rest(weights, n, c) == [r.index] + (if r == Fresh then [] else Rest(weights, n, r))
    decreases Sum(weights) - c.weight, n - c.index
  {
    var total := Sum(weights);
    var next := Advance(n, total, c);
    if c.index + 1 < n {
      ModUnique(c.index + 1, n, 0, c.index + 1);
      assert next == Cursor(c.index + 1, c.weight);
      assert Rest(weights, n, c)
          == (if weights[next.index] >= next.weight then [next.index] else []) + Rest(weights, n, next);
      if weights[next.index] < next.weight {
        SpinTakesNext(weights, n, next);
      }
    } else {
      ModUnique(c.index + 1, n, 1, 0);
      assert Rest(weights, n, c) == Tail(weights, n, c.weight);
      if c.weight + 1 == total {
        ModUnique(c.weight + 1, total, 1, 0);
        assert next == Fresh;
      } else {
        ModUnique(c.weight + 1, total, 0, c.weight + 1);
        assert next == Cursor(0, c.weight + 1);
        assert Round(weights, n, c.weight + 1, 0)
            == (if weights[0] >= c.weight + 1 then [0] else []) + Round(weights, n, c.weight + 1, 1);
        assert Rest(weights, n, c)
            == (if weights[0] >= next.weight then [0] else []) + Rest(weights, n, next);
        if weights[0] < next.weight {
          SpinTakesNext(weights, n, next);
        }
      }
    }
  }

  /** From any cursor, the calls up to the end of the cycle return exactly
      the remaining accepted positions, in order, and leave a fresh cursor. */
  lemma {:induction false} CallsFinishCycle(weights: seq<int>, n: nat, c: Cursor)
    requires Ready(weights, n, c) && c.index < n
    ensures Calls(weights, n, c, |Rest(weights, n, c)|) == (Rest(weights, n, c), Fresh)
    decreases |Rest(weights, n, c)|
  {
    var r := Spin(weights, n, c);
    SpinTakesNext(weights, n, c);
    if r != Fresh {
      CallsFinishCycle(weights, n, r);
    }
  }

  /** How often position `x` occurs in the positions accepted from `from`
      on while the weight is `w`. */
  lemma {:induction false} RoundCount(weights: seq<int>, n: nat, w: nat, from: nat, x: nat)
    requires n <= |weights|
    ensures multiset(Round(weights, n, w, from))[x]
         == if from <= x < n && weights[x] >= w then 1 else 0
    decreases n - from
  {
    if from < n {
      var later := Round(weights, n, w, from + 1);
      if weights[from] >= w {
        assert multiset([from] + later) == multiset{from} + multiset(later);
      }
      RoundCount(weights, n, w, from + 1, x);
    }
  }

  /** How often position `x` occurs in the rounds after weight `w`: once for
      every later weight it is accepted at, plus the closing slot for 0. */
  lemma {:induction false} TailCount(weights: seq<int>, n: nat, w: nat, x: nat)
    requires Ready(weights, n, Cursor(0, w)) && x < n
    ensures multiset(Tail(weights, n, w))[x]
         == Min(weights[x] + 1, Sum(weights)) - Min(weights[x] + 1, w + 1) + (if x == 0 then 1 else 0)
    decreases Sum(weights) - w
  {
    if w + 1 < Sum(weights) {
      RoundCount(weights, n, w + 1, 0, x);
      TailCount(weights, n, w + 1, x);
    }
  }

  /** The positions one full cycle returns, starting from a fresh instance. */
  function Cycle(weights: seq<int>, n: nat): seq<nat>
    requires 0 < n <= |weights|
  {
    Rest(weights, n, Fresh)
  }

  /** Over one full cycle of `currentWeight` from a fresh instance, with the
      pool unchanged, the calls return the cycle's positions and come back
      to a fresh cursor; position `x` is returned `min(weights[x] + 1, total)`
      times, because it is accepted at every weight `0 .. weights[x]`. */
  lemma CycleShare(weights: seq<int>, n: nat, x: nat)
    requires 0 < n <= |weights| && WellFormed(weights) && x < n
    ensures Calls(weights, n, Fresh, |Cycle(weights, n)|) == (Cycle(weights, n), Fresh)
    ensures multiset(Cycle(weights, n))[x] == Min(weights[x] + 1, Sum(weights))
  {
    CallsFinishCycle(weights, n, Fresh);
    RoundCount(weights, n, 0, 1, x);
    TailCount(weights, n, 0, x);
  }

  /** Over a full cycle, a position with a larger weight is returned at
      least as often as one with a smaller weight. */
  lemma HeavierNotLess(weights: seq<int>, n: nat, x: nat, y: nat)
    requires 0 < n <= |weights| && WellFormed(weights) && x < n && y < n
    requires weights[x] <= weights[y]
    ensures multiset(Cycle(weights, n))[x] <= multiset(Cycle(weights, n))[y]
  {
    CycleShare(weights, n, x);
    CycleShare(weights, n, y);
  }

  /** With weights 3, 2, 5 over three servers, a full cycle is 13 calls
      split 4 : 3 : 6, not 3 : 2 : 5. The weights are a parameter pinned by
      `requires` so that the prover does not unroll `Sum` and `Cycle` on a
      literal list. */
  lemma DemoWeights(ws: seq<int>)
    requires ws == [3, 2, 5]
    ensures |Cycle(ws, 3)| == 13
    ensures multiset(Cycle(ws, 3))[0] == 4
    ensures multiset(Cycle(ws, 3))[1] == 3
    ensures multiset(Cycle(ws, 3))[2] == 6
  {
    DemoTotal(ws);
    CycleShare(ws, 3, 0);
    CycleShare(ws, 3, 1);
    CycleShare(ws, 3, 2);
    CycleLength(ws, 3);
    CountBelowThree(multiset(Cycle(ws, 3)));
  }

  lemma CountBelowThree(m: multiset<nat>)
    ensures CountBelow(m, 3) == m[0] + m[1] + m[2]
  {
    assert CountBelow(m, 1) == m[0];
    assert CountBelow(m, 2) == m[0] + m[1];
  }

  /** The demo weights total 10 (a parameter, as in `DemoWeights`). */
  lemma DemoTotal(ws: seq<int>)
    requires ws == [3, 2, 5]
    ensures Sum(ws) == 10 && WellFormed(ws)
  {
    var one, two := ws[..1], ws[..2];
    assert one[..0] == [] && Sum(one) == 3;
    assert two[..1] == one && Sum(two) == 5;
    assert ws[..2] == two;
  }

  /** The length of a cycle is the sum over positions of how often each
      is returned. */
  lemma CycleLength(weights: seq<int>, n: nat)
    requires 0 < n <= |weights| && WellFormed(weights)
    ensures |Cycle(weights, n)| == CountBelow(multiset(Cycle(weights, n)), n)
  {
    var cyc := Cycle(weights, n);
    CallsFinishCycle(weights, n, Fresh);
    assert Calls(weights, n, Fresh, |cyc|).0 == cyc;
    MultisetSize(cyc, n);
  }

  /** A sequence of positions below `n` has as many elements as the sum of
      the counts of those positions. */
  lemma {:induction false} MultisetSize(s: seq<nat>, n: nat)
    requires forall i :: i in s ==> i < n
    ensures |s| == CountBelow(multiset(s), n)
  {
    if |s| > 0 {
      var h := s[0];
      assert s == [h] + s[1..];
      assert h in s;
      assert forall i :: i in s[1..] ==> i in s;
      MultisetSize(s[1..], n);
      assert multiset(s) == multiset(s[1..]) + multiset{h};
      CountBelowAdd(multiset(s[1..]), h, n);
    } else {
      CountBelowEmpty(n);
    }
  }

  lemma {:induction false} CountBelowEmpty(n: nat)
    ensures CountBelow(multiset{}, n) == 0
  {
    if n > 0 {
      CountBelowEmpty(n - 1);
    }
  }

  function CountBelow(m: multiset<nat>, n: nat): nat
  {
    if n == 0 then 0 else CountBelow(m, n - 1) + m[n - 1]
  }

  lemma {:induction false} CountBelowAdd(m: multiset<nat>, h: nat, n: nat)
    requires h < n
    ensures CountBelow(m + multiset{h}, n) == CountBelow(m, n) + 1
    decreases n
  {
    if n - 1 != h {
      CountBelowAdd(m, h, n - 1);
    } else {
      CountBelowSame(m, h, n - 1);
    }
  }

  lemma {:induction false} CountBelowSame(m: multiset<nat>, h: nat, n: nat)
    requires h >= n
    ensures CountBelow(m + multiset{h}, n) == CountBelow(m, n)
    decreases n
  {
    if n > 0 {
      CountBelowSame(m, h, n - 1);
    }
  }
}
