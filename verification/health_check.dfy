/** One pass of the scheduled health check, with the HTTP probe replaced by
    a predicate `healthy` that says which servers answer 200. */
module HealthCheck {
  import opened Base

  /** The servers of `pool` that pass the probe, in pool order. */
  function Filter(pool: seq<ServerId>, healthy: ServerId -> bool): (r: seq<ServerId>)
    ensures |r| <= |pool|
    ensures forall s :: s in r <==> s in pool && healthy(s)
  {
    if |pool| == 0 then []
    else
      var last := pool[|pool| - 1];
      Filter(pool[..|pool| - 1], healthy) + (if healthy(last) then [last] else [])
  }

  /** `List.remove(Object)`: drop the first occurrence of `s`, if any. */
  function RemoveFirst(pool: seq<ServerId>, s: ServerId): (r: seq<ServerId>)
    ensures s in pool ==> |r| == |pool| - 1
    ensures s !in pool ==> r == pool
  {
    if |pool| == 0 then []
    else if pool[0] == s then pool[1..]
    else [pool[0]] + RemoveFirst(pool[1..], s)
  }

  /** `RemoveFirst` drops exactly the first occurrence, at position `i`,
      and keeps every other element in order. */
  lemma RemoveFirstAt(pool: seq<ServerId>, s: ServerId, i: nat)
    requires i < |pool| && pool[i] == s && s !in pool[..i]
    ensures RemoveFirst(pool, s) == pool[..i] + pool[i + 1..]
  {
    RemoveFirstAfter(pool[..i], pool[i..], s);
    assert pool == pool[..i] + pool[i..];
    assert pool[i..][1..] == pool[i + 1..];
  }

  /** Removing a value absent from a prefix removes it from the rest. */
  lemma {:induction false} RemoveFirstAfter(front: seq<ServerId>, back: seq<ServerId>, s: ServerId)
    requires s !in front
    ensures RemoveFirst(front + back, s) == front + RemoveFirst(back, s)
    decreases |front|
  {
    if |front| > 0 {
      var tail := front[1..] + back;
      assert (front + back)[0] == front[0] != s;
      assert (front + back)[1..] == tail;
      assert RemoveFirst(front + back, s) == [front[0]] + RemoveFirst(tail, s);
      RemoveFirstAfter(front[1..], back, s);
      assert [front[0]] + (front[1..] + RemoveFirst(back, s)) == front + RemoveFirst(back, s);
    } else {
      assert front + back == back;
    }
  }

  /** The pass as written: iterate over a snapshot of the pool, remove each
      unhealthy server, re-add a healthy server that is missing. Since the
      snapshot holds only current members, the re-add branch is dead, and
      the pass leaves exactly the healthy servers in their old order. */
  method Pass(pool: seq<ServerId>, healthy: ServerId -> bool) returns (live: seq<ServerId>)
    ensures live == Filter(pool, healthy)
  {
    var snapshot := pool;
    live := pool;
    for k := 0 to |snapshot|
      invariant live == Filter(snapshot[..k], healthy) + snapshot[k..]
    {
      var server := snapshot[k];
      PassStep(snapshot, k, healthy);
      if !healthy(server) {
        live := RemoveFirst(live, server);
      } else if server !in live {
        assert false;
      }
    }
    assert snapshot[..|snapshot|] == snapshot;
  }

  /** One iteration of the pass, on a pool whose first `k` snapshot
      entries are already processed: the server at `k` is still present,
      and removing it (when unhealthy) or keeping it (when healthy)
      extends the processed part by one. */
  lemma PassStep(snapshot: seq<ServerId>, k: nat, healthy: ServerId -> bool)
    requires k < |snapshot|
    ensures var live := Filter(snapshot[..k], healthy) + snapshot[k..];
            var next := Filter(snapshot[..k + 1], healthy) + snapshot[k + 1..];
            && snapshot[k] in live
            && (healthy(snapshot[k]) ==> live == next)
            && (!healthy(snapshot[k]) ==> RemoveFirst(live, snapshot[k]) == next)
  {
    var server := snapshot[k];
    var done := Filter(snapshot[..k], healthy);
    var rest := snapshot[k + 1..];
    assert snapshot[k..] == [server] + rest;
    assert snapshot[..k + 1][..k] == snapshot[..k];
    assert Filter(snapshot[..k + 1], healthy)
        == done + (if healthy(server) then [server] else []);
    if !healthy(server) {
      assert server !in done;
      RemoveFirstAfter(done, [server] + rest, server);
    } else {
      assert done + ([server] + rest) == (done + [server]) + rest;
    }
  }

  /** The pools left by a sequence of passes. */
  function Passes(pool: seq<ServerId>, probes: seq<ServerId -> bool>): (r: seq<ServerId>)
    decreases |probes|
  {
    if |probes| == 0 then pool else Passes(Filter(pool, probes[0]), probes[1..])
  }

  /** A server is in the pool after a sequence of passes exactly when it
      was there before and passed every probe: a server removed once is
      never restored. */
  lemma {:induction false} PassesKeep(pool: seq<ServerId>, probes: seq<ServerId -> bool>, s: ServerId)
    ensures s in Passes(pool, probes) <==>
              s in pool && forall k :: 0 <= k < |probes| ==> probes[k](s)
    decreases |probes|
  {
    if |probes| > 0 {
      PassesKeep(Filter(pool, probes[0]), probes[1..], s);
      assert forall k :: 1 <= k < |probes| ==> probes[1..][k - 1] == probes[k];
    }
  }
}
