/** `LeastConnectionStrategy`: `stream().min(comparingInt(activeConnections::get))`.
    `Stream.min` is a left fold with `minBy`, which keeps the accumulated
    element unless the next one is strictly smaller. */
module LeastConnectionStrategy {
  import opened Base

  /** Position `k` holds a least-loaded server, and every server before it
      is strictly busier: the earliest minimum in pool order. */
  predicate FirstMinimum(pool: seq<ServerId>, counts: Connections, k: nat)
    requires AllCounted(pool, counts)
  {
    && k < |pool|
    && (forall j :: 0 <= j < |pool| ==> counts[pool[k]] <= counts[pool[j]])
    && (forall j :: 0 <= j < k ==> counts[pool[k]] < counts[pool[j]])
  }

  /** Every pool position from `from` on has a count. */
  predicate CountedFrom(pool: seq<ServerId>, counts: Connections, from: nat)
  {
    forall j :: from <= j < |pool| ==> pool[j] in counts
  }

  /** The fold, with the accumulator held as a pool position: `best` is
      the element kept so far and `next` the one compared against it.
      Each comparison unboxes both counts, so a missing entry fails. */
  function Fold(pool: seq<ServerId>, counts: Connections, best: nat, next: nat): (r: Result<nat>)
    requires best < next <= |pool|
    requires AllCounted(pool[..next], counts) ==> FirstMinimum(pool[..next], counts, best)
    ensures r.Ok? <==> next == |pool| || (pool[best] in counts && CountedFrom(pool, counts, next))
    ensures r.Err? ==> r.failure == MissingConnectionCount
    ensures r.Ok? ==> r.value < |pool|
    ensures r.Ok? && AllCounted(pool, counts) ==> FirstMinimum(pool, counts, r.value)
    decreases |pool| - next
  {
    if next == |pool| then
      assert pool[..next] == pool;
      Ok(best)
    else if pool[best] !in counts || pool[next] !in counts then
      Err(MissingConnectionCount)
    else
      var kept := if counts[pool[best]] <= counts[pool[next]] then best else next;
      assert pool[..next + 1] == pool[..next] + [pool[next]];
      Fold(pool, counts, kept, next + 1)
  }

  /** `selectServer`. An empty pool fails with "No available servers"; a
      single server is returned without any comparison, so without reading
      its count; otherwise every count is read. */
  function Select(pool: seq<ServerId>, counts: Connections): (r: Result<ServerId>)
    ensures r.Err? && r.failure == NoAvailableServers <==> |pool| == 0
    ensures |pool| > 0 && r.Err? ==> r.failure == MissingConnectionCount
    ensures |pool| == 1 ==> r == Ok(pool[0])
    ensures |pool| >= 2 ==> (r.Ok? <==> AllCounted(pool, counts))
    ensures r.Ok? ==> r.value in pool
    ensures r.Ok? && AllCounted(pool, counts) ==>
              exists k: nat :: FirstMinimum(pool, counts, k) && r.value == pool[k]
  {
    if |pool| == 0 then Err(NoAvailableServers)
    else
      match Fold(pool, counts, 0, 1)
      case Ok(k) => Ok(pool[k])
      case Err(e) => Err(e)
  }

  /** The result's count is at most that of every pool member, and no
      earlier pool position holds a server with that count. */
  lemma SelectIsLeastAndEarliest(pool: seq<ServerId>, counts: Connections)
    requires |pool| > 0 && AllCounted(pool, counts)
    ensures Select(pool, counts).Ok?
    ensures var s := Select(pool, counts).value;
            && (forall x :: x in pool ==> counts[s] <= counts[x])
            && (forall j :: 0 <= j < |pool| && counts[pool[j]] == counts[s] ==>
                  exists i :: 0 <= i <= j && pool[i] == s)
  {
    var s := Select(pool, counts).value;
    var k: nat :| FirstMinimum(pool, counts, k) && s == pool[k];
    forall j | 0 <= j < |pool| && counts[pool[j]] == counts[s]
      ensures exists i :: 0 <= i <= j && pool[i] == s
    {
      assert k <= j;
    }
  }

  /** Loads {A:2, B:0, C:5} select B; the tie {A:1, B:1} selects A. */
  lemma DemoLoads()
    ensures Select(["A", "B", "C"], map["A" := 2, "B" := 0, "C" := 5]) == Ok("B")
    ensures Select(["A", "B"], map["A" := 1, "B" := 1]) == Ok("A")
  {
  }
}
