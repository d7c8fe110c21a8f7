# Quorum coordinator of a Dynamo-style key-value node

This project models the request-handling core of one node of a small
replicated key-value store (`ru.mail.polis.klimova`). A client sends
`/v0/entity?id=<key>&replicas=<ack>/<from>` with GET, PUT or DELETE. The
node that receives the request is the coordinator. It checks the id and the
quorum, contacts the first `from` nodes of its fixed topology order, counts
how each node answered, and renders one status:

* GET: 200 with a value, 404, or 504 (quorum not reached);
* PUT: 201 or 504;
* DELETE: 202 or 504.

The coordinator uses its own store for itself. For every other node it calls
that node's replica endpoint (`/v0/replica?id=<key>`). The replica endpoint
serves one client operation on its own store only, with no quorum logic:
PUT and DELETE make one store call, while GET makes two (`dao.get`, then
`dao.getUpdateTimeMillis`). Its GET answers carry an `updated` header
whenever the store knows an update time, so a tombstone can be told apart
from a key that was never written.

Modules:

* `Quorum` (`replicas.dfy`) covers `Replicas.java`: the immutable
  `(ack, from)` pair, `FromQuery` and `DefaultForCount`.
* `Service` (`service.dfy`) covers `Service.java`:
  * request validation and host selection (`Resolve`, `ReplicaHosts`);
  * the three fan-out loops (`ProcessGet`, `ProcessPut`, `ProcessDelete`), as
    methods with loop invariants. Each is proved against a fold over the
    hosts (`TallyGet`, `TallyWrite`);
  * the per-node classification (`ClassifyLocalGet`, `ClassifyRemoteGet`,
    `WriteAckedAt`);
  * the GET decision (`GetDecision`);
  * the replica endpoint (`ReplicaGet`, `ReplicaApiQuery`);
  * `ClientApiQuery`, which ties them together.
* `JavaLang` (`java_lang.dfy`) gives the exact meaning of the Java library
  calls the core depends on: `Integer.parseInt`, `Long.parseLong`,
  `Long.toString`, `String.split("/")` (trailing empty pieces dropped, a
  string without `/` returned whole) and `int` division (rounding toward
  zero; the wrap of `Integer.MIN_VALUE / -1` is not modelled).
* `Wrappers` (`wrappers.dfy`) holds `Option`.

## The model's abstractions

No store or network call is made: the answers of the local store and of the
peers are given, per request, by an `Env`:

* The local store is a `Store`. It records what `dao.get`,
  `dao.getUpdateTimeMillis`, `dao.upsert` and `dao.remove` answer for the
  request's key: a value or time, `NoSuchElementException`, or `IOException`.
* A local GET can ask for the update time twice: once after `dao.get`
  returned, and again in the `NoSuchElementException` handler. So the store
  answers the two lookups separately (`time`, `retryTime`).
* Every peer is a `Peer`. It records the response, or the exception, that
  `HttpClient` returns for each replica request.
* The topology is a sequence of distinct addresses: the `Set` in its
  iteration order, fixed when the service is built.
* PUT and DELETE decide from the `success` counter alone. GET decides its
  200 from the `values` map and the `deleted` counter, and its 504 versus
  404 from the other counters, as in the code.

## Where the code departs from a textbook quorum store

The model follows the code in each case:

* **GET ignores `success` and `ack` when returning a value.** GET returns a
  value iff `values` is non-empty and no node reported a deletion.
  * `values` is filled before the update-time lookup or header parse. So a
    node that ends up as `notFound` or `error` can still supply the returned
    value (`FoundWithoutSuccess`).
  * `ack` is consulted only when nothing is returned. With `ack = from = 3`
    and one node down, a GET still answers 200 while a PUT to the same nodes
    gets 504 (`GetIgnoresAckOnceFound`).
* **`from` is not bounded by the topology size.** `fromQuery` only checks
  `1 <= ack <= from`. A quorum such as `4/5` on three nodes is accepted;
  then every PUT and DELETE, and every GET that returns no value, answers 504.
* **An empty topology gets an invalid default.** `defaultForCount(0)` is
  `(1, 0)`, which breaks `ack <= from`.
* **The store's tombstones are not in the store class shown.** `DBDao.remove`
  deletes the row, and `DBDao` shows no `getUpdateTimeMillis`. The model
  therefore treats the store purely as the answers it gives.
* **Some exceptions count as `notFound`.** In the local GET's
  `NoSuchElementException` handler, every exception of the time lookup,
  `IOException` included, is counted as `notFound`.
* **Local and relayed GETs do not always agree.** A node read through its
  replica endpoint is classified the same way as a local read only when
  the store answers consistently (`RelayedGetMatchesLocal`).

## Model

| member | source | states |
|---|---|---|
| `Quorum.FromQuery` | src/main/java/ru/mail/polis/klimova/Replicas.java:20-36 | every quorum it accepts satisfies `1 <= ack <= from` (both Java `int`s) |
| `Quorum.DefaultForCount` | src/main/java/ru/mail/polis/klimova/Replicas.java:38-40 | `from = count`; for `count >= 0`, `ack` is the smallest strict majority of `count`; for `count >= 1` the pair is valid |
| `Quorum.FromQueryRoundTrip` | src/main/java/ru/mail/polis/klimova/Replicas.java:20-36 | `"a/b"` printed by `Integer.toString` with `1 <= a <= b` parses back to exactly `(a, b)` |
| `Quorum.FromQueryAccepts` | src/main/java/ru/mail/polis/klimova/Replicas.java:23-34 | any two separator-free numerals that `parseInt` reads as `1 <= a <= b`, joined by `/`, give `(a, b)` |
| `Quorum.FromQueryRejectsRange` | src/main/java/ru/mail/polis/klimova/Replicas.java:31-32 | any two separator-free numerals that `parseInt` reads as `ack > from` or `ack < 1` (in any spelling, such as `05/3` or `+5/3`) are refused |
| `Quorum.FromQueryRejectsSingle` | src/main/java/ru/mail/polis/klimova/Replicas.java:23-29 | a query without `/` (no second half) is refused |
| `Quorum.FromQueryRejectsBadHalf` | src/main/java/ru/mail/polis/klimova/Replicas.java:23-29 | a half that `parseInt` refuses, or an empty second half, makes the query invalid |
| `Quorum.FromQueryIgnoresTrailing` | src/main/java/ru/mail/polis/klimova/Replicas.java:24-26 | text after a second `/` is never read: `"a/b/rest"` means what `"a/b"` means |
| `Quorum.FromQueryRejectsEmptyMiddle` | src/main/java/ru/mail/polis/klimova/Replicas.java:24-26 | an empty piece between two separators (`"a//rest"`) is refused, whatever follows |
| `Quorum.FromQueryNumericExamples` | src/main/java/ru/mail/polis/klimova/Replicas.java:20-36 | `3/5` gives `(3, 5)`; `5/3` and `0/2` are refused |
| `Quorum.FromQueryMalformedExamples` | src/main/java/ru/mail/polis/klimova/Replicas.java:23-29 | `x/y` and `3` are refused |
| `JavaLang.ParseDecimal` | src/main/java/ru/mail/polis/klimova/Replicas.java:24-25 | `parseInt`/`parseLong`: an accepted text is an optional sign followed by at least one digit, the result is the signed value of those digits and lies in the type's range; conversely every such text whose value is in range is accepted |
| `JavaLang.ParseDecimalString` | src/main/java/ru/mail/polis/klimova/Replicas.java:24-25 | parsing a printed value in range gives that value back |
| `JavaLang.ParseLongString` | src/main/java/ru/mail/polis/klimova/Service.java:272 | the `updated` header written by the replica parses back, via `Long.parseLong`, to the time it was written from |
| `JavaLang.SplitAll` | src/main/java/ru/mail/polis/klimova/Replicas.java:24 | the pieces are separator-free, and joining them with the separator gives the input back |
| `JavaLang.Split` | src/main/java/ru/mail/polis/klimova/Replicas.java:24 | `split("/")`: separator-free pieces; the whole string when it has no `/`; otherwise all pieces with exactly the trailing empty ones removed (the result is a prefix of all pieces, does not end in an empty piece, and every piece dropped is empty) |
| `JavaLang.DropTrailingEmpty` | src/main/java/ru/mail/polis/klimova/Replicas.java:24 | the result is the longest prefix that does not end in an empty piece; only empty pieces are removed |
| `JavaLang.SplitTwo` | src/main/java/ru/mail/polis/klimova/Replicas.java:24 | two separator-free halves, the second non-empty, split back into exactly those halves |
| `Service.ReplicaHosts` | src/main/java/ru/mail/polis/klimova/Service.java:88 | the hosts are a prefix of the topology order, of length `min(from, topology size)` |
| `Service.Resolve` | src/main/java/ru/mail/polis/klimova/Service.java:72-88 | bad request iff the id is missing or empty or a given quorum is refused; an absent or empty quorum is the default for the topology size, with every host contacted; the hosts are the first `min(from, topology size)` of the topology |
| `Service.ResolveIgnoresKey` | src/main/java/ru/mail/polis/klimova/Service.java:88 | every valid key gets the same quorum and the same hosts |
| `Service.ClientApiQuery` | src/main/java/ru/mail/polis/klimova/Service.java:67-100 | 400 for a bad id or quorum and for any method other than GET/PUT/DELETE; otherwise the response of the fan-out over the resolved hosts, in terms of the per-host answers |
| `Service.ClassifyLocalGet` | src/main/java/ru/mail/polis/klimova/Service.java:112-128 | the local value is collected iff `dao.get` returned one; success iff value and time; deleted iff (no element and a time) or (value, no time, time on retry); error iff the read failed or the time lookup after a value failed |
| `Service.ClassifyRemoteGet` | src/main/java/ru/mail/polis/klimova/Service.java:130-154 | success iff 200 with a parseable header; deleted iff 404 with a parseable header; not found iff 404 without the header; everything else is an error; the body is collected iff the status is 200 |
| `Service.TallyGetCounts` | src/main/java/ru/mail/polis/klimova/Service.java:111-156 | each counter is the number of selected hosts in its class, and the four counters add up to the number of hosts (every host is visited once) |
| `Service.TallyGetValues` | src/main/java/ru/mail/polis/klimova/Service.java:111-156 | `values` holds exactly the hosts that delivered a value, each with its own value |
| `Service.GetDecisionByHosts` | src/main/java/ru/mail/polis/klimova/Service.java:158-168 | GET answers a value iff some host delivered one and none reported a deletion; otherwise 504 iff fewer than `ack` hosts answered without error, else 404 |
| `Service.DeletedSuppressesValue` | src/main/java/ru/mail/polis/klimova/Service.java:158 | one deleted answer means no value is returned |
| `Service.GetNeverWritten` | src/main/java/ru/mail/polis/klimova/Service.java:165-168 | if every host reports "not found" and `ack` is at most the number of hosts, GET answers 404 |
| `Service.GetShortfall` | src/main/java/ru/mail/polis/klimova/Service.java:165-166 | with no value delivered, `ack` equal to the number of hosts and one failing host, GET answers 504 |
| `Service.FoundWithoutSuccess` | src/main/java/ru/mail/polis/klimova/Service.java:111-161 | a peer answering 200 without a header counts as an error, yet its body is returned: `success = 0` and the GET finds a value |
| `Service.GetIgnoresAckOnceFound` | src/main/java/ru/mail/polis/klimova/Service.java:158-168 | with `ack = from = 3` and one node down, GET still finds the value while a PUT to the same nodes misses its quorum |
| `Service.ProcessGet` | src/main/java/ru/mail/polis/klimova/Service.java:102-170 | the loop visits every host, and the response follows the decision on the full tally; the returned body is a value some contacted host delivered; 200, 504 and 404 are stated in terms of the per-host classes |
| `Service.WriteShortfall` | src/main/java/ru/mail/polis/klimova/Service.java:200-204 | with `ack` equal to the number of contacted hosts, one host that does not acknowledge fails the write |
| `Service.WriteAllAcked` | src/main/java/ru/mail/polis/klimova/Service.java:200-201 | when every contacted host acknowledges, any `ack` up to their number is reached |
| `Service.TallyWriteCounts` | src/main/java/ru/mail/polis/klimova/Service.java:176-198 | `success` is the number of hosts that acknowledged and `error` the number that did not; they add up to the number of hosts |
| `Service.ProcessPut` | src/main/java/ru/mail/polis/klimova/Service.java:172-205 | 201 iff at least `ack` hosts acknowledged (local upsert returned, or the peer answered exactly 201), else 504 |
| `Service.ProcessDelete` | src/main/java/ru/mail/polis/klimova/Service.java:207-240 | 202 iff at least `ack` hosts acknowledged (local remove returned, or the peer answered exactly 202), else 504 |
| `Service.ReplicaGet` | src/main/java/ru/mail/polis/klimova/Service.java:253-274 | 200 with the value or 404 when the store's read and time lookups succeed; 500 iff either store call throws `IOException`; the `updated` header is present iff an update time is known, and it parses back to that time |
| `Service.WithUpdateTime` | src/main/java/ru/mail/polis/klimova/Service.java:263-273 | the `updated` header is added exactly when an update time is known, and parses back, through `Long.parseLong`, to that time; a failed lookup is a 500; otherwise the status and body of the response are kept |
| `Service.ReplicaApiQuery` | src/main/java/ru/mail/polis/klimova/Service.java:247-292 | GET as above; PUT 201 or 500; DELETE 202 or 500; any other method 400 |
| `Service.RelayedGetMatchesLocal` | src/main/java/ru/mail/polis/klimova/Service.java:111-155 | a node read through its replica endpoint is classified exactly as a local read iff a held value comes with a time and a missing value does not come with a failed time lookup |

## Left out

- The local store (`DBDao`, H2 over JDBC). Its answers are inputs, and its state is not modelled. So the "write, then read" and "delete, then read" scenarios, and the timestamps advanced by repeated deletes, are not stated.
- HTTP plumbing: `createConfig`, `handleDefault`, `statusQuery`, the constructor and its `clientsMap` loop, `createUriToReplica`, the charset conversions of `getBytes` and `new String`, and the `printStackTrace` logging. These are transport and I/O.
- The PUT body: the bytes sent to `dao.upsert` and to the peers are not tracked, because the store's answers are given rather than computed.
- The `timestamps` map and the `deletedValues` set of `processGet`. They are written but never read, so they have no effect on any response.
- Which collected value a GET returns. `HashMap` iteration order is unspecified; the model allows any collected value.
- `Service.ClassifyLocalGet`, `Service.ProcessPut`, `Service.ProcessDelete`, `Service.ReplicaGet`: unchecked exceptions of the store other than `NoSuchElementException` are not modelled. They escape the local GET, upsert and remove branches of the coordinator and the replica endpoint's store calls. Null byte arrays are not modelled either.
- `Service.ReplicaApiQuery`: a missing `id` at the replica endpoint throws `NullPointerException` before any store call. This is not modelled, because the coordinator always sends an id.
- `JavaLang.Quot`: the wrap of `Integer.MIN_VALUE / -1` to `Integer.MIN_VALUE` is not modelled. The core's only division is the node count divided by 2, and `Quorum.DefaultForCount` states what it yields.
- `JavaLang.ParseDecimal`: only ASCII digits are accepted. `Character.digit` also accepts other Unicode decimal digits.
- `Service.ClassifyRemoteGet` takes the `updated` header as the text after its name. one.nio's header matching and HTTP parsing are not modelled.
- Concurrency of the server. A client's requests are handled one at a time here; the coordinator's loop is sequential in the code as well.
