# mini-alb load balancer, modelled in Dafny

This project models the routing core of the `mini-alb` load balancer. That core has four parts:

- the four server-selection strategies: round-robin, weighted round-robin, least-connections and random;
- the balancer's state: the server pool, the `activeConnections` table and the current strategy;
- one pass of the health check;
- the count updates made while a request is forwarded.

Everything is modelled as immutable values and pure functions, run one operation at a time.

Modules follow the Java files:

- `Base` (`base.dfy`): server identities, the connection table, the `Failure`/`Result` types with one failure per exception the modelled inputs can raise, and small arithmetic lemmas about `%`.
- `RoundRobinStrategy`, `WeightedRoundRobinStrategy`, `LeastConnectionStrategy`, `RandomStrategy`: one module per strategy class.
- `LoadBalancingStrategy` (`strategy.dfy`): the `Strategy` datatype has one constructor per strategy, carrying that strategy's state. `Select` returns the chosen server and the strategy's next state.
- `HealthCheck`: the body of the scheduled health check, with the HTTP probe replaced by a predicate `healthy`.
- `LoadBalancer`: the balancer state, its operations, and sequential runs of requests, health passes and strategy changes.

Behaviour worth knowing, all proved:

- Round-robin takes the counter modulo the *current* pool size. The counter advances even when an empty pool makes `% 0` throw.
- Weighted round-robin reads weights by pool position. Its total is the sum of the whole weight list. Each call walks a `total × n` grid of (weight, index) slots and stops at the first slot whose position has weight ≥ the current weight.
  - Over one full cycle, position `x` is returned `min(weights[x] + 1, total)` times.
  - With weights 3, 2, 5 that is 4 : 3 : 6 over 13 calls.
- Least-connections is `Stream.min`, a left fold that keeps the earlier element on ties. A one-server pool is returned without reading its count. With two or more servers, every count is read, so a missing entry fails.
- A health pass iterates a snapshot of the current pool. The branch that re-adds a healthy server that is missing can never run. So a pass leaves exactly the healthy servers in their old order, and a removed server never comes back.
- A completed request raises the chosen server's count by one and then restores it. An interrupted request skips the decrement.

## Behaviour a reader may not expect

Each point follows from the Java code alone:

- The demo weights 3, 2, 5 carry the comment "Higher weight, more requests" (`LoadBalancer.java:119`). The skip loop accepts a position at every weight from 0 up to its own weight, so one full cycle is 13 calls split 4 : 3 : 6 rather than proportionally 3 : 2 : 5 (`WeightedRoundRobinStrategy.DemoWeights`, `WeightedRoundRobinStrategy.CycleShare`).
- The health check iterates a copy of the current pool (`LoadBalancer.java:44`). The "Adding healthy server back" branch (`LoadBalancer.java:48-50`) runs only for a healthy server missing from the pool, and every server in the copy is still present when it is visited, so that branch never runs and a removed server never returns (`HealthCheck.Pass`, `LoadBalancer.RemovedStaysOut`).
- `sendRequestToServer` increments the count before the sleep and decrements it after. The `catch (InterruptedException e)` at `LoadBalancer.java:92-94` skips the decrement, so an interrupted request leaves the server one higher (`LoadBalancer.Send`).
- An empty pool fails differently per strategy:
  - `ArithmeticException` (`% 0`) for round-robin and weighted round-robin;
  - `IllegalArgumentException` from `nextInt(0)` for random;
  - `IllegalStateException("No available servers")` for least-connections.
- A server with no entry in `activeConnections` makes least-connections throw a `NullPointerException` when its count is unboxed. That happens only with at least two servers, because `Stream.min` returns a single element without comparing it (`LeastConnectionStrategy.Select`).

## Model

| member | source | states |
|---|---|---|
| `RoundRobinStrategy.Select` | src/main/java/in/sinsuren/mini/alb/RoundRobinStrategy.java:11-14 | Succeeds exactly when the pool is non-empty, returning a pool member; an empty pool fails with division by zero; the counter advances by one in both cases |
| `RoundRobinStrategy.RunIndex` | src/main/java/in/sinsuren/mini/alb/RoundRobinStrategy.java:12 | Call `j` of consecutive calls over an unchanged pool returns the server at position (counter + j) mod n |
| `RoundRobinStrategy.RunIsRotation` | src/main/java/in/sinsuren/mini/alb/RoundRobinStrategy.java:12 | n consecutive calls over an unchanged pool of n servers return the pool rotated to start at counter mod n: every position exactly once, in pool order |
| `WeightedRoundRobinStrategy.Advance` | src/main/java/in/sinsuren/mini/alb/WeightedRoundRobinStrategy.java:20-23 | One loop step: the index moves forward and wraps to 0 after the last position; the weight changes only on that wrap, by +1 modulo the total, and stays below the total |
| `WeightedRoundRobinStrategy.AdvanceSlot` | src/main/java/in/sinsuren/mini/alb/WeightedRoundRobinStrategy.java:20-23 | Read as a slot `weight × n + index`, one step moves exactly one slot forward modulo `total × n` |
| `WeightedRoundRobinStrategy.Spin` | src/main/java/in/sinsuren/mini/alb/WeightedRoundRobinStrategy.java:19-27 | The skip loop terminates when weights are non-negative with a positive total; it stops at an index inside the pool, a weight in `[0, total)`, and a position whose weight is at least the current weight |
| `WeightedRoundRobinStrategy.Select` | src/main/java/in/sinsuren/mini/alb/WeightedRoundRobinStrategy.java:17-28 | Succeeds exactly when the pool is non-empty and returns `pool[index]` of the new cursor, an accepted position; an empty pool fails with division by zero and leaves the cursor unchanged, whatever the weights |
| `WeightedRoundRobinStrategy.SelectLoop` | src/main/java/in/sinsuren/mini/alb/WeightedRoundRobinStrategy.java:17-28 | The loop written with mutable index and weight returns the same cursor as `Spin` and the server at its index |
| `WeightedRoundRobinStrategy.FirstCallPicksSecond` | src/main/java/in/sinsuren/mini/alb/WeightedRoundRobinStrategy.java:8-25 | A fresh instance over at least two servers first returns `pool[1]` |
| `WeightedRoundRobinStrategy.SpinTakesNext` | src/main/java/in/sinsuren/mini/alb/WeightedRoundRobinStrategy.java:19-27 | From any cursor whose index lies inside the pool (every call leaves one there), one call returns exactly the next accepted position of the current weight cycle, and ends the cycle when it lands on the slot (index 0, weight 0) |
| `WeightedRoundRobinStrategy.CallsFinishCycle` | src/main/java/in/sinsuren/mini/alb/WeightedRoundRobinStrategy.java:19-27 | From any cursor whose index lies inside the pool (every call leaves one there), the calls up to the end of the cycle return the remaining accepted positions in order and leave a fresh cursor |
| `WeightedRoundRobinStrategy.CycleShare` | src/main/java/in/sinsuren/mini/alb/WeightedRoundRobinStrategy.java:17-28 | From a fresh instance over an unchanged pool, one full cycle returns to a fresh cursor, and position `x` is returned `min(weights[x] + 1, total)` times |
| `WeightedRoundRobinStrategy.HeavierNotLess` | src/main/java/in/sinsuren/mini/alb/WeightedRoundRobinStrategy.java:19-26 | Over a full cycle, a position with a larger weight is returned at least as often as one with a smaller weight |
| `WeightedRoundRobinStrategy.CycleLength` | src/main/java/in/sinsuren/mini/alb/WeightedRoundRobinStrategy.java:19-26 | A full cycle has as many calls as the sum of the per-position counts |
| `WeightedRoundRobinStrategy.DemoWeights` | src/main/java/in/sinsuren/mini/alb/LoadBalancer.java:119-121 | With weights 3, 2, 5 over three servers, a full cycle is 13 calls split 4 : 3 : 6 |
| `LeastConnectionStrategy.Fold` | src/main/java/in/sinsuren/mini/alb/LeastConnectionStrategy.java:11-12 | The `minBy` fold fails exactly when a compared element lacks a count; otherwise it returns the earliest position of a least-loaded server |
| `LeastConnectionStrategy.Select` | src/main/java/in/sinsuren/mini/alb/LeastConnectionStrategy.java:10-14 | An empty pool fails with "No available servers"; one server is returned unread; with two or more it succeeds exactly when every member has a count, returning the first least-loaded server, and otherwise fails on the missing count |
| `LeastConnectionStrategy.SelectIsLeastAndEarliest` | src/main/java/in/sinsuren/mini/alb/LeastConnectionStrategy.java:11-12 | The result's count is at most every member's, and the result occurs in the pool no later than any server with the same count |
| `LeastConnectionStrategy.DemoLoads` | src/main/java/in/sinsuren/mini/alb/LeastConnectionStrategy.java:11-13 | Loads {A:2, B:0, C:5} select B; the tie {A:1, B:1} selects A |
| `RandomStrategy.Select` | src/main/java/in/sinsuren/mini/alb/RandomStrategy.java:12-15 | Succeeds exactly when the pool is non-empty, returning `pool[draw]`, a member; an empty pool fails as `nextInt(0)` does |
| `RandomStrategy.EveryServerReachable` | src/main/java/in/sinsuren/mini/alb/RandomStrategy.java:13-14 | Every pool member is the result of some draw |
| `LoadBalancingStrategy.NewRoundRobin` | src/main/java/in/sinsuren/mini/alb/RoundRobinStrategy.java:8 | A new round-robin strategy's first call over any non-empty pool returns the first server |
| `LoadBalancingStrategy.FreshRoundRobinInOrder` | src/main/java/in/sinsuren/mini/alb/RoundRobinStrategy.java:8-14 | The first n calls of a new round-robin strategy over an unchanged pool of n servers return the pool in order |
| `LoadBalancingStrategy.NewWeightedRoundRobin` | src/main/java/in/sinsuren/mini/alb/WeightedRoundRobinStrategy.java:8-14 | The new strategy keeps the given weights and, when they are non-negative with a positive total, can serve every pool no longer than the weight list |
| `LoadBalancingStrategy.FreshWeightedPicksSecond` | src/main/java/in/sinsuren/mini/alb/WeightedRoundRobinStrategy.java:8-25 | The first call of a new weighted strategy over at least two servers returns the second server |
| `LoadBalancingStrategy.Select` | src/main/java/in/sinsuren/mini/alb/LoadBalancingStrategy.java:6-8 | Every strategy fails on an empty pool and returns a pool member otherwise (least-connections when every member has a count); stateless strategies keep their state, round-robin advances its counter, and weighted keeps its weights and still fits the pool |
| `LoadBalancingStrategy.CountsIgnored` | src/main/java/in/sinsuren/mini/alb/LoadBalancingStrategy.java:6-8 | Round-robin, weighted round-robin and random never read the connection counts they receive, so each gives the same result and next state whatever the counts |
| `LoadBalancingStrategy.FitsSmaller` | src/main/java/in/sinsuren/mini/alb/WeightedRoundRobinStrategy.java:24 | A strategy that can serve a pool can serve any smaller pool, because weights are read by position |
| `LoadBalancer.ZeroCounts` | src/main/java/in/sinsuren/mini/alb/LoadBalancer.java:23-26 | The table built by the constructor's loop has exactly the listed servers as keys, each mapped to 0 |
| `LoadBalancer.Create` | src/main/java/in/sinsuren/mini/alb/LoadBalancer.java:18-26 | The pool equals the input list, every initial server and no other has count 0, and the state invariant holds when the strategy fits the pool |
| `LoadBalancer.SetStrategy` | src/main/java/in/sinsuren/mini/alb/LoadBalancer.java:32-34 | The strategy is replaced; pool and counts are unchanged |
| `LoadBalancer.GetServer` | src/main/java/in/sinsuren/mini/alb/LoadBalancer.java:36-38 | Returns the current strategy's selection over the current pool and counts and stores that strategy's next state; pool and counts are unchanged, any result is a pool member, and under the invariant it succeeds exactly when the pool is non-empty and keeps the invariant |
| `LoadBalancer.RoundRobinGetServerTwice` | src/main/java/in/sinsuren/mini/alb/LoadBalancer.java:36-38 | Two `getServer` calls with a round-robin strategy at counter `c` return the servers at positions `c` and `c + 1` modulo the pool size, and leave the counter at `c + 2` |
| `LoadBalancer.GetServerAfterSetStrategy` | src/main/java/in/sinsuren/mini/alb/LoadBalancer.java:32-38 | After `setStrategy(s)`, `getServer` returns `s`'s selection over the current pool and counts |
| `HealthCheck.Filter` | src/main/java/in/sinsuren/mini/alb/LoadBalancer.java:44-47 | The order-preserving filter keeps a server exactly when it is in the pool and healthy, and never grows the pool |
| `HealthCheck.RemoveFirst` | src/main/java/in/sinsuren/mini/alb/LoadBalancer.java:47 | Removing a member shortens the pool by one; removing a non-member changes nothing |
| `HealthCheck.RemoveFirstAt` | src/main/java/in/sinsuren/mini/alb/LoadBalancer.java:47 | `List.remove(Object)` drops exactly the first occurrence of the server and keeps every other element in order |
| `HealthCheck.Pass` | src/main/java/in/sinsuren/mini/alb/LoadBalancer.java:44-52 | The loop over a snapshot, with first-occurrence removal, leaves exactly the old pool filtered by health in its old order; the re-add branch is proved dead |
| `HealthCheck.PassStep` | src/main/java/in/sinsuren/mini/alb/LoadBalancer.java:45-51 | Midway through a pass the current server is still present, and removing or keeping it extends the filtered prefix by one |
| `HealthCheck.PassesKeep` | src/main/java/in/sinsuren/mini/alb/LoadBalancer.java:40-56 | After any number of passes a server is in the pool exactly when it was there before and passed every probe |
| `LoadBalancer.CheckHealth` | src/main/java/in/sinsuren/mini/alb/LoadBalancer.java:44-52 | A pass keeps exactly the healthy members, never grows the pool, leaves counts and strategy alone, and keeps the invariant |
| `LoadBalancer.Acquire` | src/main/java/in/sinsuren/mini/alb/LoadBalancer.java:84 | The chosen server's count rises by one; the keys and every other count are unchanged |
| `LoadBalancer.Release` | src/main/java/in/sinsuren/mini/alb/LoadBalancer.java:91 | The chosen server's count drops by one; the keys and every other count are unchanged |
| `LoadBalancer.ReleaseUndoesAcquire` | src/main/java/in/sinsuren/mini/alb/LoadBalancer.java:84-91 | Decrementing after incrementing restores the table |
| `LoadBalancer.InFlightCount` | src/main/java/in/sinsuren/mini/alb/LoadBalancer.java:84-87 | During processing the chosen server has one more connection than before and no count is negative |
| `LoadBalancer.Send` | src/main/java/in/sinsuren/mini/alb/LoadBalancer.java:81-95 | Succeeds exactly when the server has a count; a completed request leaves the table as it was; an interrupted one leaves the server one higher and every other count unchanged |
| `LoadBalancer.HandleRequest` | src/main/java/in/sinsuren/mini/alb/LoadBalancer.java:73-91 | The request goes to the server `getServer` picked and the strategy keeps the state that pick left; it succeeds exactly when the pick succeeds and the server has a count; it keeps the pool and the invariant, succeeds under the invariant exactly when the pool is non-empty, restores the counts when completed, leaves the chosen server one higher when interrupted, and keeps counts non-negative |
| `LoadBalancer.Step` | src/main/java/in/sinsuren/mini/alb/LoadBalancer.java:32-91 | Each request, health pass or strategy change keeps the invariant and non-negative counts, and adds nobody to the pool |
| `LoadBalancer.RunKeepsInvariant` | src/main/java/in/sinsuren/mini/alb/LoadBalancer.java:23-91 | Over any sequential run the invariant holds and no count goes negative |
| `LoadBalancer.RunShrinksPool` | src/main/java/in/sinsuren/mini/alb/LoadBalancer.java:44-51 | Over any run the pool only loses members |
| `LoadBalancer.CompletedRequestsBalance` | src/main/java/in/sinsuren/mini/alb/LoadBalancer.java:84-91 | Any number of completed requests leaves the pool and every count as it was |
| `LoadBalancer.RunSplit` | src/main/java/in/sinsuren/mini/alb/LoadBalancer.java:32-91 | A run is the run of any prefix followed by the run of the rest |
| `LoadBalancer.RemovedStaysOut` | src/main/java/in/sinsuren/mini/alb/LoadBalancer.java:44-51 | A server absent from the pool at some point of a run stays absent for the rest of the run |

## Left out

- The HTTP probe `isServerHealthy` (network I/O) is replaced by the `healthy` predicate given to each pass.
- Concurrency is not modelled: the request thread pool, the scheduled health-check executor, asynchronous `submit`, and `shutdown`/`awaitTermination`. Every operation runs alone and to completion.
- Data races are not modelled: the non-atomic get/put on `activeConnections`, the unsynchronised `currentWeight` and `strategy` fields, and the pool changing under a running selection.
- `Thread.sleep` and all logging are left out. Only whether the sleep completes or is interrupted is kept (`Completion`).
- The `java.util.Random` source is replaced by the oracle index `draw`.
- `LoadBalancingStrategy.Select`: requires `draw < |pool|` for a non-empty pool, which is the range `nextInt` guarantees.
- Java `int` overflow is not modelled: the round-robin counter is a `nat`, and connection counts and the weight total are unbounded integers.
- `WeightedRoundRobinStrategy.Spin`: requires non-negative weights, a positive total and a pool no longer than the weight list. Outside these, the Java loop may throw `ArithmeticException` or `IndexOutOfBoundsException`, or never return.
- `LoadBalancingStrategy.Select`: for a non-empty pool, the same weighted-strategy conditions are required through `Fits`. The cursor weight staying below the total is an invariant that every call keeps.
- `LoadBalancer.SetStrategy`: strategies are values, not shared mutable objects. Re-installing a Java strategy object that was used before resumes its counter or cursor; in the model that is a `Switch` to the state the balancer last held for it. One strategy object shared by two balancers is not modelled.
- `WeightedRoundRobinStrategy.SpinTakesNext`: a cursor whose index is past the end of a pool that a health pass has shrunk is not covered. The next call then continues at `(index + 1) % size`, not at the position the cycle description predicts; from the call after that on, the cursor is inside the pool again.
- `WeightedRoundRobinStrategy.CallsFinishCycle`: the same first call after the pool shrinks under the cursor is not covered.
- `HealthCheck.Pass`: health is one deterministic predicate per pass. The Java code probes each snapshot entry separately, so a server listed twice could get two different answers in one pass.
- The demo driver `main` is not modelled. Its weights 3, 2, 5 appear only in `WeightedRoundRobinStrategy.DemoWeights`.
