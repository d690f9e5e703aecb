# Application server: dispatcher bookkeeping, satellite tool cache, Fibonacci tool

A Dafny model of the core of a small three-tier job server. Clients send a job to
a dispatcher. The dispatcher picks a worker ("satellite") round robin and forwards
the job to it. The satellite loads the job's tool class over the network, caches
the tool instance, runs it and sends the result back along the same path.

The model covers:

- `LoadManager` (module `LoadManagement`): the append-only list of satellite names
  and the round-robin cursor. The class's two static fields are the fields of a
  single `LoadManager` object. The Java constructor resets the list but not the
  static cursor. So the Dafny constructor stands for class initialisation plus the
  first `new LoadManager()`, and `Reinitialize` stands for any later one, which
  keeps the cursor. The pure functions `Step` and `Run` describe one call and a
  series of calls of `nextSatellite`. The round-robin lemmas are proved about them.
- `SatelliteManager` (module `SatelliteRegistry`): the name-to-descriptor table,
  with Java's `Hashtable` behaviour. A `null` key throws, and a missing key yields
  `null`.
- `Satellite` (module `Worker`): `getToolObject` with its lazily filled cache, and
  the message-type dispatch of `SatelliteThread.run`.
- `Server` (module `Dispatch`): the routing `switch` of `ServerThread.run`, as one
  atomic transition over the registry and the balancer. The client connection is
  the `incoming` message and the `reply` written back (None means nothing is
  written). The satellite connection is the `satelliteLeg` function and the
  `contacted` output.
- `FibonacciAux` and `Fibonacci` (module `FibonacciTool`): the sample tool, computed
  in 32-bit `int` and compared with the mathematical Fibonacci numbers.
- Module `Comm` holds the shared values: `int32`, `Value` (null, an `Integer`, any
  other object), `Outcome` (returned or threw), the Java exceptions, `Message`,
  `Job` and `ConnectivityInfo`. Their Java sources are not part of this model.
- Module `Scenarios` holds two whole-system runs. In the first, three requests are
  routed round robin over two satellites. In the second, a satellite runs two
  Fibonacci jobs.

Java exceptions become `Threw(...)` outcomes. An exception that no handler catches
ends the handling thread, and the model shows that as "no reply". Java's
`lastSatelliteIndex + 1` is never negative, so Java's `%` and Dafny's `%` agree.

The model follows the code as written, including where it departs from its own
declarations:

- `getToolObject` declares `UnknownToolException` but never throws it. A tool
  class whose constructor fails in a swallowed way is therefore not reported as an
  "unknown tool". The code keeps `null` and then `Hashtable.put` throws a
  NullPointerException (`Worker.MissFailure`).
- When the forwarding leg fails with an `IOException` or `ClassNotFoundException`,
  the client is sent `null`. When it fails with an unchecked exception, nothing is
  written: a registered port outside [0, 65535] makes `new Socket` throw
  `IllegalArgumentException`, and a reply that is not an `Integer` fails the cast
  (`Dispatch.Relay`, `Dispatch.Server.HandleConnection`).
- A lookup of an unregistered name returns `null` rather than signalling an error.
- `nextSatellite` reads the list outside its lock. The model treats each operation
  as atomic (see Left out).

## Model

| member | source | states |
|---|---|---|
| `LoadManagement.LoadManager.constructor` | src/appserver/server/LoadManager.java:14-24 | a new balancer has an empty list and cursor -1 |
| `LoadManagement.LoadManager.Reinitialize` | src/appserver/server/LoadManager.java:17-24 | a later construction empties the list but keeps the previous cursor value |
| `LoadManagement.LoadManager.SatelliteAdded` | src/appserver/server/LoadManager.java:31-34 | the name is appended at the end, duplicates included; the cursor is unchanged |
| `LoadManagement.LoadManager.NextSatellite` | src/appserver/server/LoadManager.java:42-54 | on an empty list it throws "No satellites available." and keeps the cursor; otherwise the new cursor is (old + 1) mod size, lies in [0, size), and the result is the name under it; the list is never modified |
| `LoadManagement.Step` | src/appserver/server/LoadManager.java:42-54 | one call fails exactly when the list is empty; on success the new cursor is a valid index and the name returned is the one at that index; the cursor never drops below -1 |
| `LoadManagement.Run` | src/appserver/server/LoadManager.java:42-54 | k successive calls on a non-empty list return k names, each of them an entry of the list; on an empty list every call fails and none returns a name |
| `LoadManagement.RunCycle` | src/appserver/server/LoadManager.java:17-53 | from any cursor c, the j-th of k successive calls returns the name at (c + 1 + j) mod size |
| `LoadManagement.RoundRobinFromStart` | src/appserver/server/LoadManager.java:17-53 | from the initial cursor -1, successive calls return names[0], names[1], ..., names[size-1], names[0], ... (A, B, C, A, B, C, ...) |
| `LoadManagement.FullCycleFair` | src/appserver/server/LoadManager.java:31-53 | any `size` successive calls return every entry of the list exactly as often as it was added, so duplicate names each get their own turn |
| `SatelliteRegistry.SatelliteManager.constructor` | src/appserver/server/SatelliteManager.java:21-23 | a new manager has an empty table |
| `SatelliteRegistry.SatelliteManager.RegisterSatellite` | src/appserver/server/SatelliteManager.java:30-33 | the descriptor becomes the entry for its name, replacing an earlier one (last write wins); every other name's lookup is unchanged; a descriptor without a name throws NullPointerException and changes nothing |
| `SatelliteRegistry.SatelliteManager.GetSatelliteForName` | src/appserver/server/SatelliteManager.java:41-43 | a `null` name throws NullPointerException; a name never registered gives `null`; a found descriptor carries the name it was looked up by; the lookup reads the table without changing it |
| `Worker.MissFailure` | src/appserver/satellite/Satellite.java:228-241 | a cache miss succeeds exactly when the class loads and is constructed; every other path ends in an exception |
| `Worker.Satellite.constructor` | src/appserver/satellite/Satellite.java:108-110 | the tool cache starts empty and no class has been requested |
| `Worker.Satellite.GetToolObject` | src/appserver/satellite/Satellite.java:217-250 | a hit returns the cached instance and does not touch the class loader; a miss asks the loader once, and on success caches a fresh instance under the name and returns it; on any failure the exception propagates and the cache is unchanged; no entry is ever overwritten; every cached tool belongs to the class it is filed under |
| `Worker.Satellite.ServeConnection` | src/appserver/satellite/Satellite.java:174-209 | for a job request the reply is the tool's `go(parameters)`, written only when it is an `Integer` or `null` and the tool resolved; any other message type, or a request whose content is not a job, writes nothing and leaves the cache alone |
| `Worker.ResolveTwice` | src/appserver/satellite/Satellite.java:222-249 | after a successful resolution, resolving the same name again returns the identical instance, and the class is loaded at most once; a failure is not cached, so after one the second attempt asks the class loader for the name again |
| `FibonacciTool.FibonacciAux.constructor` | src/appserver/job/impl/FibonacciAux.java:17-19 | the helper stores the number it is given |
| `FibonacciTool.FibonacciAux.GetResult` | src/appserver/job/impl/FibonacciAux.java:26-44 | a stored `null` throws NullPointerException; a negative number overflows the stack; for 0 <= n <= 46 the result is the n-th Fibonacci number |
| `FibonacciTool.FibonacciAux.Fibonacci` | src/appserver/job/impl/FibonacciAux.java:37-46 | for every n >= 0 the 32-bit `fibonacci(n)` agrees with the mathematical Fib(n) modulo 2^32, whatever wrap-around happens in the recursion |
| `FibonacciTool.FibonacciExact` | src/appserver/job/impl/FibonacciAux.java:37-44 | for 0 <= n <= 46 (the client's largest argument), the 32-bit `fibonacci(n)` has no overflow and equals the mathematical Fib(n): fibonacci(0) = 0, fibonacci(1) = 1, and each later value is the sum of the previous two |
| `FibonacciTool.FirstOverflow` | src/appserver/job/impl/FibonacciAux.java:37-44 | at n = 47 the sum exceeds 2^31 - 1 and `fibonacci` wraps around to Fib(47) - 2^32 |
| `FibonacciTool.FibonacciGo` | src/appserver/job/impl/Fibonacci.java:17-24 | `go` fails the `(Integer)` cast on a non-`Integer` argument, throws on `null` and on a negative number, and whatever it returns is an `Integer`; for 0 <= p <= 46 it is Fib(p), so go(0) = 0 and go(1) = 1 |
| `FibonacciTool.Fibonacci.constructor` | src/appserver/job/impl/Fibonacci.java:13 | a new tool has no helper yet (`helper` is `null`) |
| `FibonacciTool.Fibonacci.Go` | src/appserver/job/impl/Fibonacci.java:17-24 | `go(p)` replaces `helper` with a fresh helper holding `p` and returns that helper's result; the result depends on `p` alone, not on earlier calls |
| `Dispatch.Relay` | src/appserver/server/Server.java:152-176 | after a leg that failed with a caught `IOException` or `ClassNotFoundException` the client is sent `null`; an `Integer` or `null` reply is passed on unchanged; nothing is sent exactly when the leg ended in an uncaught exception or the reply object fails the `(Integer)` cast |
| `Dispatch.Server.constructor` | src/appserver/server/Server.java:39-42 | the server starts with an empty registry and a fresh balancer |
| `Dispatch.Server.HandleConnection` | src/appserver/server/Server.java:113-182 | REGISTER_SATELLITE records name to descriptor, then appends the same name to the balancer, and writes nothing; JOB_REQUEST calls `nextSatellite` once, never changes the registry or the list, forwards the original message unchanged to the registered satellite of the picked name and relays its reply; a picked satellite whose port lies outside [0, 65535] is not contacted and nothing is written; with no satellites nothing is contacted and nothing is written; other types change nothing; every name in the balancer is always registered |
| `Scenarios.RoundRobinRouting` | src/appserver/server/Server.java:117-173 | with S1 and S2 registered in that order, three job requests go to S1, S2, S1, and each client receives the tool's answer |
| `Scenarios.FibonacciJobs` | src/appserver/satellite/Satellite.java:190-208 | a satellite that can load the Fibonacci class answers requests for 0 <= n <= 46 with Fib(n), and loads the class at most once for both requests |

## Left out

- Sockets, object streams, the `while (true)` accept loops, and failures while writing the reply. The network legs are inputs and outputs of the handling methods.
- Threads and the `synchronized` blocks. Each handling step is one atomic transition. The race between `satelliteAdded` and the unlocked `satellites.get` in `nextSatellite` is not modelled, and neither is the duplicate instantiation of a tool by two concurrent cache misses.
- Property-file loading and the configuration code in the constructors of `Server` and `Satellite`. The satellite's start-up registration message is not modelled either; the dispatcher's handling of that message is.
- `HTTPClassLoader`, reflection and `Tool.go` are foreign code. They are the `classLoader`, `construct` and `go` functions given to the satellite. The model assumes that `go` depends only on the tool instance and its argument.
- `Worker.Satellite.GetToolObject`: the class loader's and the constructor's answer for a name is fixed for the satellite's lifetime. A class that fails to load now and loads later (the code server was down, then came back) is not modelled.
- The static `satellites` fields are `null` until the first construction. The model starts from the first construction, so calls made before it are not modelled.
- A message whose content is `null`, and a job whose tool name is `null`, are not modelled. Message contents are always a job or a descriptor, and tool names are strings.
- `LoadManagement.LoadManager.SatelliteAdded`: does not model the limit of `ArrayList` size at 2^31 - 1 elements. The list is unbounded in the model.
- `FibonacciTool.FibonacciAux.GetResult`: for arguments above 46 the model gives the wrapped 32-bit value. It does not model running out of stack or time, which the exponential recursion does for large arguments. A negative argument is modelled as `StackOverflowError`, because the recursion never reaches a base case before the stack ends.
- `FibonacciClient` and the `main` methods are not modelled. The client's only logic is building a `Job`. Its largest argument, 46, is the bound `MAX_CLIENT_ARGUMENT`.
- Logging and `System.exit` are not modelled.
