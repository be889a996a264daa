/** `RandomStrategy`: `serverPool.get(random.nextInt(serverPool.size()))`.
    The random source is an oracle: `draw` is the value `nextInt` returns. */
module RandomStrategy {
  import opened Base

  /** `selectServer` with the drawn index. `nextInt(0)` rejects a
      non-positive bound, so an empty pool fails; otherwise the draw lies in
      `[0, |pool|)`. Connection counts are not an input. */
  function Select(pool: seq<ServerId>, draw: nat): (r: Result<ServerId>)
    requires |pool| > 0 ==> draw < |pool|
    ensures r.Ok? <==> |pool| > 0
    ensures r.Err? ==> r.failure == NonPositiveBound
    ensures r.Ok? ==> r.value in pool && r.value == pool[draw]
  {
    if |pool| == 0 then Err(NonPositiveBound) else Ok(pool[draw])
  }

  /** Every pool member can come out of some draw. */
  lemma EveryServerReachable(pool: seq<ServerId>, s: ServerId)
    requires s in pool
    ensures exists draw: nat :: draw < |pool| && Select(pool, draw) == Ok(s)
  {
    var i :| 0 <= i < |pool| && pool[i] == s;
    assert Select(pool, i) == Ok(s);
  }
}
