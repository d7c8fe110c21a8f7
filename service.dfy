/**
 The coordinator and the replica endpoint of `Service.java`.

 A client request names a key, an optional quorum `ack/from` and a method.
 The coordinator validates it, contacts the first `from` nodes of the fixed
 topology order (its own store for itself, the replica endpoint of every
 other node), classifies each node's answer, counts the classes and renders
 one status from the counts. No store or network call is made: the answers
 of the local store and of the peers are given, per request, by an `Env`.
 */
module Service {
  import opened Wrappers
  import opened JavaLang
  import opened Quorum

  newtype byte = x: int | 0 <= x < 256

  type Bytes = seq<byte>

  /** A node address such as `http://localhost:8080`. */
  type Host = string

  // Status codes of one.nio's `Response` that the service uses.
  const OK := 200
  const CREATED := 201
  const ACCEPTED := 202
  const BAD_REQUEST := 400
  const NOT_FOUND := 404
  const INTERNAL_ERROR := 500
  const GATEWAY_TIMEOUT := 504

  /** An HTTP response: status, body, and the text of the `updated: ` header when there is one. */
  datatype Response = Response(status: int, body: Bytes, updated: Option<string>)

  /** A response with `Response.EMPTY` as body and no header. */
  function Empty(status: int): Response
  {
    Response(status, [], None)
  }

  datatype Method = Get | Put | Delete | Other

  // ---------------------------------------------------------------------
  // What the collaborators answer

  /** `dao.get(id)`: the stored value, `NoSuchElementException`, or `IOException`. */
  datatype ReadResult = Value(bytes: Bytes) | NoSuchElement | ReadFailed

  /** `dao.getUpdateTimeMillis(id)`: a time, `NoSuchElementException`, or `IOException`. */
  datatype TimeResult = UpdatedAt(millis: Long) | NoUpdateTime | TimeFailed

  /** `dao.upsert` / `dao.remove`: returns normally, or throws `IOException`. */
  datatype WriteResult = Written | WriteFailed

  /**
   The local store's answers for the key of one request. A local GET may ask
   for the update time twice: `time` answers the first call, `retryTime` the
   second (made only after the first threw `NoSuchElementException`).
   */
  datatype Store = Store(read: ReadResult, time: TimeResult, retryTime: TimeResult,
                         upsert: WriteResult, remove: WriteResult)

  /** A call through `HttpClient`: a response, or any exception (timeout, refused connection, ...). */
  datatype RemoteResult = Received(response: Response) | Unreachable

  /** A peer's answers to the three replica requests for the key of one request. */
  datatype Peer = Peer(get: RemoteResult, put: RemoteResult, delete: RemoteResult)

  /** Everything outside the coordinator, for one request: the local store and every peer. */
  datatype Env = Env(store: Store, peers: Host -> Peer)

  /**
   The immutable part of a `Service`: `topologyList` (the topology set in its
   fixed iteration order) and `my`, this node's own address.
   */
  datatype Node = Node(topology: seq<Host>, my: Host)
  {
    /** The list comes from a Java `Set`, whose size is an `int`. */
    predicate Valid()
    {
      && |topology| < 0x8000_0000
      && forall i, j :: 0 <= i < j < |topology| ==> topology[i] != topology[j]
    }
  }

  // ---------------------------------------------------------------------
  // Replica endpoint (`/v0/replica`)

  /**
   The replica GET: 200 with the value, or 404, then the `updated` header
   whenever the store knows an update time; an `IOException` from either
   store call is a 500. A tombstoned key (404 with the header) is thereby
   told apart from one never written (404 without it).
   */
  function ReplicaGet(read: ReadResult, time: TimeResult): (r: Response)
    ensures r.status == INTERNAL_ERROR <==> read.ReadFailed? || time.TimeFailed?
    ensures r.status == OK <==> read.Value? && !time.TimeFailed?
    ensures r.status == NOT_FOUND <==> read.NoSuchElement? && !time.TimeFailed?
    ensures r.status == OK ==> r.body == read.bytes
    ensures r.status != OK ==> r.body == []
    ensures r.updated.Some? <==> r.status != INTERNAL_ERROR && time.UpdatedAt?
    ensures r.updated.Some? ==> ParseLong(r.updated.value) == Some(time.millis)
  {
    match read
    case ReadFailed => Empty(INTERNAL_ERROR)
    case Value(v) => WithUpdateTime(Response(OK, v, None), time)
    case NoSuchElement => WithUpdateTime(Empty(NOT_FOUND), time)
  }

  /** The second store call of the replica GET: add the header, or fail with 500. */
  function WithUpdateTime(response: Response, time: TimeResult): (r: Response)
    requires response.updated.None?
    ensures time.UpdatedAt? ==> r.updated.Some? && ParseLong(r.updated.value) == Some(time.millis)
    ensures time.TimeFailed? ==> r.status == INTERNAL_ERROR
    ensures !time.TimeFailed? ==> r.status == response.status && r.body == response.body
    ensures r.updated.Some? <==> time.UpdatedAt?
  {
    match time
    case TimeFailed => Empty(INTERNAL_ERROR)
    case NoUpdateTime => response
    case UpdatedAt(t) =>
      ParseLongString(t);
      response.(updated := Some(DecimalString(t)))
  }

  /**
   `replicaApiQuery`: serves the request from the local store alone, with no
   quorum logic (GET uses two store calls, PUT and DELETE one). PUT is
   201 or 500, DELETE 202 or 500, any other method 400.
   */
  function ReplicaApiQuery(m: Method, store: Store): (r: Response)
    ensures m.Get? ==> r == ReplicaGet(store.read, store.time)
    ensures m.Put? ==> r.status == (if store.upsert.Written? then CREATED else INTERNAL_ERROR)
    ensures m.Delete? ==> r.status == (if store.remove.Written? then ACCEPTED else INTERNAL_ERROR)
    ensures m.Other? ==> r.status == BAD_REQUEST
    ensures !m.Get? ==> r.body == [] && r.updated.None?
  {
    match m
    case Get => ReplicaGet(store.read, store.time)
    case Put => Empty(if store.upsert.Written? then CREATED else INTERNAL_ERROR)
    case Delete => Empty(if store.remove.Written? then ACCEPTED else INTERNAL_ERROR)
    case Other => Empty(BAD_REQUEST)
  }

  // ---------------------------------------------------------------------
  // Classifying one node's answer to a GET

  /** The four counters of `processGet`. */
  datatype Bucket = Success | NotFound | Deleted | Error

  /** The counter one node increments, and the value it put into `values`, if any. */
  datatype GetStep = GetStep(bucket: Bucket, collected: Option<Bytes>)

  /**
   The local branch of `processGet`. The value goes into `values` as soon as
   `dao.get` returns it, before the update time is asked for, so a node can
   deliver a value and still count as `notFound`, `deleted` or `error`.
   Inside the `NoSuchElementException` handler every exception of the time
   lookup, an `IOException` included, counts as `notFound`.
   */
  function ClassifyLocalGet(read: ReadResult, time: TimeResult, retry: TimeResult): (s: GetStep)
    ensures s.collected == if read.Value? then Some(read.bytes) else None
    ensures s.bucket == Success <==> read.Value? && time.UpdatedAt?
    ensures s.bucket == Deleted <==>
      || (read.NoSuchElement? && time.UpdatedAt?)
      || (read.Value? && time.NoUpdateTime? && retry.UpdatedAt?)
    ensures s.bucket == Error <==> read.ReadFailed? || (read.Value? && time.TimeFailed?)
  {
    match read
    case Value(v) =>
      (match time
       case UpdatedAt(_) => GetStep(Success, Some(v))
       case NoUpdateTime => GetStep(if retry.UpdatedAt? then Deleted else NotFound, Some(v))
       case TimeFailed => GetStep(Error, Some(v)))
    case NoSuchElement => GetStep(if time.UpdatedAt? then Deleted else NotFound, None)
    case ReadFailed => GetStep(Error, None)
  }

  /** Whether a response carries an `updated` header that `Long.parseLong` accepts. */
  predicate HasTime(resp: Response)
  {
    resp.updated.Some? && ParseLong(resp.updated.value).Some?
  }

  /**
   The remote branch of `processGet`: 200 with a parseable header is a
   success, 404 with a parseable header a deletion, 404 without the header
   "not found"; any other status, any exception, and a header missing on 200
   or unparseable on either are errors. A 200 puts its body into `values`
   before the header is parsed.
   */
  function ClassifyRemoteGet(r: RemoteResult): (s: GetStep)
    ensures s.bucket == Success <==> r.Received? && r.response.status == OK && HasTime(r.response)
    ensures s.bucket == Deleted <==> r.Received? && r.response.status == NOT_FOUND && HasTime(r.response)
    ensures s.bucket == NotFound <==> r.Received? && r.response.status == NOT_FOUND && r.response.updated.None?
    ensures s.collected == if r.Received? && r.response.status == OK then Some(r.response.body) else None
  {
    match r
    case Unreachable => GetStep(Error, None)
    case Received(resp) =>
      if resp.status == OK then
        GetStep(if HasTime(resp) then Success else Error, Some(resp.body))
      else if resp.status == NOT_FOUND then
        if resp.updated.None? then GetStep(NotFound, None)
        else GetStep(if HasTime(resp) then Deleted else Error, None)
      else GetStep(Error, None)
  }

  /** How the coordinator classifies `host`: through its own store, or through the peer. */
  function GetStepAt(node: Node, env: Env, host: Host): GetStep
  {
    if host == node.my then ClassifyLocalGet(env.store.read, env.store.time, env.store.retryTime)
    else ClassifyRemoteGet(env.peers(host).get)
  }

  /**
   A node answering through its replica endpoint is classified as it would
   be locally (with both time lookups answering alike) exactly when the store
   does not hold a value without an update time, does not fail the time
   lookup after holding a value, and does not fail it after having no value.
   */
  lemma RelayedGetMatchesLocal(read: ReadResult, time: TimeResult)
    ensures ClassifyRemoteGet(Received(ReplicaGet(read, time))) == ClassifyLocalGet(read, time, time)
            <==> (read.Value? ==> time.UpdatedAt?) && (read.NoSuchElement? ==> !time.TimeFailed?)
  {
    var remote := ClassifyRemoteGet(Received(ReplicaGet(read, time)));
    var local := ClassifyLocalGet(read, time, time);
    if read.Value? && time.NoUpdateTime? {
      assert remote.bucket == Error && local.bucket == NotFound;
    } else if read.Value? && time.TimeFailed? {
      assert remote.collected.None? && local.collected.Some?;
    } else if read.NoSuchElement? && time.TimeFailed? {
      assert remote.bucket == Error && local.bucket == NotFound;
    } else if time.UpdatedAt? && !read.ReadFailed? {
      assert HasTime(ReplicaGet(read, time));
    }
  }

  // ---------------------------------------------------------------------
  // The GET tally and decision

  /** The counters of `processGet` and its `values` map (host to value). */
  datatype GetTally = GetTally(success: nat, notFound: nat, deleted: nat, error: nat,
                               values: map<Host, Bytes>)

  /** One turn of the fan-out loop: `host`'s value (if any) is put, and its counter incremented. */
  function Record(t: GetTally, host: Host, step: GetStep): GetTally
  {
    var values := if step.collected.Some? then t.values[host := step.collected.value] else t.values;
    match step.bucket
    case Success => t.(success := t.success + 1, values := values)
    case NotFound => t.(notFound := t.notFound + 1, values := values)
    case Deleted => t.(deleted := t.deleted + 1, values := values)
    case Error => t.(error := t.error + 1, values := values)
  }

  /** The tally after visiting every host of `hosts`, in order. */
  function TallyGet(node: Node, env: Env, hosts: seq<Host>): GetTally
    decreases |hosts|
  {
    if hosts == [] then GetTally(0, 0, 0, 0, map[])
    else Record(TallyGet(node, env, hosts[..|hosts| - 1]), hosts[|hosts| - 1],
                GetStepAt(node, env, hosts[|hosts| - 1]))
  }

  /** The class of every host, in order: a reference for the counters. */
  function Buckets(node: Node, env: Env, hosts: seq<Host>): (b: seq<Bucket>)
    ensures |b| == |hosts|
    ensures forall i :: 0 <= i < |hosts| ==> b[i] == GetStepAt(node, env, hosts[i]).bucket
  {
    seq(|hosts|, i requires 0 <= i < |hosts| => GetStepAt(node, env, hosts[i]).bucket)
  }

  /**
   Every host is visited and increments exactly one counter: each counter is
   the number of hosts of its class, and the four add up to the number of
   hosts.
   */
  lemma {:induction false} TallyGetCounts(node: Node, env: Env, hosts: seq<Host>)
    ensures var t := TallyGet(node, env, hosts);
      && t.success == multiset(Buckets(node, env, hosts))[Success]
      && t.notFound == multiset(Buckets(node, env, hosts))[NotFound]
      && t.deleted == multiset(Buckets(node, env, hosts))[Deleted]
      && t.error == multiset(Buckets(node, env, hosts))[Error]
    ensures var t := TallyGet(node, env, hosts);
      t.success + t.notFound + t.deleted + t.error == |hosts|
    decreases |hosts|
  {
    if hosts != [] {
      var init := hosts[..|hosts| - 1];
      var step := GetStepAt(node, env, hosts[|hosts| - 1]);
      TallyGetCounts(node, env, init);
      BucketsSnoc(node, env, hosts);
      var m0 := multiset(Buckets(node, env, init));
      assert multiset(Buckets(node, env, hosts)) == m0 + multiset{step.bucket};
      var t0 := TallyGet(node, env, init);
      var t := TallyGet(node, env, hosts);
      assert t == Record(t0, hosts[|hosts| - 1], step);
    }
  }

  lemma BucketsSnoc(node: Node, env: Env, hosts: seq<Host>)
    requires hosts != []
    ensures Buckets(node, env, hosts)
            == Buckets(node, env, hosts[..|hosts| - 1]) + [GetStepAt(node, env, hosts[|hosts| - 1]).bucket]
  {
    var init := hosts[..|hosts| - 1];
    assert forall i :: 0 <= i < |init| ==> init[i] == hosts[i];
  }

  /** `values` holds exactly the hosts that delivered a value, each with the value it delivered. */
  lemma {:induction false} TallyGetValues(node: Node, env: Env, hosts: seq<Host>)
    ensures var t := TallyGet(node, env, hosts);
      forall h :: h in t.values <==> h in hosts && GetStepAt(node, env, h).collected.Some?
    ensures var t := TallyGet(node, env, hosts);
      forall h :: h in t.values ==> GetStepAt(node, env, h).collected == Some(t.values[h])
    decreases |hosts|
  {
    if hosts != [] {
      var init := hosts[..|hosts| - 1];
      TallyGetValues(node, env, init);
      assert hosts == init + [hosts[|hosts| - 1]];
      var last := hosts[|hosts| - 1];
      var step := GetStepAt(node, env, last);
      var t0 := TallyGet(node, env, init);
      var t := TallyGet(node, env, hosts);
      assert t.values == if step.collected.Some? then t0.values[last := step.collected.value] else t0.values;
      assert forall h :: h in hosts <==> h in init || h == last;
    }
  }

  /** What `processGet` renders from its tally. */
  datatype GetVerdict = Found | Absent | QuorumNotReached

  /**
   The decision of `processGet`: a value is returned when `values` is not
   empty and no node reported a deletion (`success` is not consulted);
   otherwise fewer than `ack` meaningful answers is a gateway timeout, and
   enough of them a 404.
   */
  function GetDecision(t: GetTally, ack: int): GetVerdict
  {
    if |t.values| > 0 && t.deleted == 0 then Found
    else if t.success + t.deleted + t.notFound < ack then QuorumNotReached
    else Absent
  }

  /** Some contacted host put a value into `values`. */
  predicate SomeValue(node: Node, env: Env, hosts: seq<Host>)
  {
    exists h :: h in hosts && GetStepAt(node, env, h).collected.Some?
  }

  /** Some contacted host reported a deletion. */
  predicate SomeDeleted(node: Node, env: Env, hosts: seq<Host>)
  {
    exists h :: h in hosts && GetStepAt(node, env, h).bucket == Deleted
  }

  /** The number of contacted hosts that did not end in `error`. */
  function Answered(node: Node, env: Env, hosts: seq<Host>): int
  {
    |hosts| - multiset(Buckets(node, env, hosts))[Error]
  }

  /**
   The GET decision in terms of the hosts: a value iff some host delivered
   one and none reported a deletion (whatever `ack` is); otherwise a gateway
   timeout iff fewer than `ack` hosts answered without error.
   */
  lemma GetDecisionByHosts(node: Node, env: Env, hosts: seq<Host>, ack: int)
    ensures GetDecision(TallyGet(node, env, hosts), ack) == Found
            <==> SomeValue(node, env, hosts) && !SomeDeleted(node, env, hosts)
    ensures GetDecision(TallyGet(node, env, hosts), ack) == QuorumNotReached
            <==> !(SomeValue(node, env, hosts) && !SomeDeleted(node, env, hosts))
                 && Answered(node, env, hosts) < ack
  {
    var t := TallyGet(node, env, hosts);
    var b := Buckets(node, env, hosts);
    TallyGetCounts(node, env, hosts);
    TallyGetValues(node, env, hosts);
    assert |t.values| > 0 <==> SomeValue(node, env, hosts) by {
      if SomeValue(node, env, hosts) {
        var h :| h in hosts && GetStepAt(node, env, h).collected.Some?;
        assert h in t.values.Keys;
      } else {
        assert t.values.Keys == {};
        assert t.values == map[];
      }
    }
    assert t.deleted > 0 <==> SomeDeleted(node, env, hosts) by {
      if SomeDeleted(node, env, hosts) {
        var h :| h in hosts && GetStepAt(node, env, h).bucket == Deleted;
        var i :| 0 <= i < |hosts| && hosts[i] == h;
        assert b[i] == Deleted;
      }
    }
  }

  /** One tombstone among the answers suppresses every live value. */
  lemma DeletedSuppressesValue(node: Node, env: Env, hosts: seq<Host>, ack: int)
    requires SomeDeleted(node, env, hosts)
    ensures GetDecision(TallyGet(node, env, hosts), ack) != Found
  {
    GetDecisionByHosts(node, env, hosts, ack);
  }

  /** A key that no contacted node has ever written reads as 404 once `ack` nodes can answer. */
  lemma GetNeverWritten(node: Node, env: Env, hosts: seq<Host>, ack: int)
    requires forall h :: h in hosts ==> GetStepAt(node, env, h) == GetStep(NotFound, None)
    requires ack <= |hosts|
    ensures GetDecision(TallyGet(node, env, hosts), ack) == Absent
  {
    GetDecisionByHosts(node, env, hosts, ack);
    var b := Buckets(node, env, hosts);
    assert Error !in b;
  }

  /** With no value delivered, one failing node out of `ack == |hosts|` means no quorum. */
  lemma GetShortfall(node: Node, env: Env, hosts: seq<Host>, ack: int)
    requires !SomeValue(node, env, hosts)
    requires ack == |hosts|
    requires exists h :: h in hosts && GetStepAt(node, env, h).bucket == Error
    ensures GetDecision(TallyGet(node, env, hosts), ack) == QuorumNotReached
  {
    GetDecisionByHosts(node, env, hosts, ack);
    var h :| h in hosts && GetStepAt(node, env, h).bucket == Error;
    var i :| 0 <= i < |hosts| && hosts[i] == h;
    assert Buckets(node, env, hosts)[i] == Error;
  }

  /**
   A host can deliver a value and yet not count as a success: a peer that
   answers 200 without an `updated` header is an error, but its body is
   returned, because the decision tests `values`, not `success`.
   */
  lemma FoundWithoutSuccess()
    ensures var node := Node(["peer"], "self");
      var env := Env(Store(NoSuchElement, NoUpdateTime, NoUpdateTime, Written, Written),
                     h => Peer(Received(Response(OK, [1], None)), Unreachable, Unreachable));
      var t := TallyGet(node, env, ["peer"]);
      t.success == 0 && t.error == 1 && t.values == map["peer" := [1]] && GetDecision(t, 1) == Found
  {
    var node := Node(["peer"], "self");
    var env := Env(Store(NoSuchElement, NoUpdateTime, NoUpdateTime, Written, Written),
                   h => Peer(Received(Response(OK, [1], None)), Unreachable, Unreachable));
    assert ["peer"][..0] == [];
    assert GetStepAt(node, env, "peer") == GetStep(Error, Some([1]));
  }

  /**
   The read path consults `ack` only when it has no value to return: with
   `ack = from = 3` and one node unreachable, GET still answers with the
   value, while a PUT to the same nodes misses its quorum.
   */
  lemma GetIgnoresAckOnceFound()
    ensures var node := Node(["a", "b", "c"], "a");
      var env := Env(Store(Value([7]), UpdatedAt(5), UpdatedAt(5), Written, Written),
                     h => if h == "b" then Peer(Received(Response(OK, [7], Some("5"))), Received(Empty(CREATED)), Unreachable)
                          else Peer(Unreachable, Unreachable, Unreachable));
      && GetDecision(TallyGet(node, env, ["a", "b", "c"]), 3) == Found
      && AckCount(node, env, Upsert, ["a", "b", "c"]) < 3
  {
    var node := Node(["a", "b", "c"], "a");
    var env := Env(Store(Value([7]), UpdatedAt(5), UpdatedAt(5), Written, Written),
                   h => if h == "b" then Peer(Received(Response(OK, [7], Some("5"))), Received(Empty(CREATED)), Unreachable)
                        else Peer(Unreachable, Unreachable, Unreachable));
    var hosts := ["a", "b", "c"];
    assert DecimalString(5) == "5";
    ParseLongString(5);
    assert GetStepAt(node, env, "a").collected.Some?;
    assert SomeValue(node, env, hosts) by { assert "a" in hosts; }
    assert !SomeDeleted(node, env, hosts) by {
      assert GetStepAt(node, env, "b").bucket == Success;
      assert GetStepAt(node, env, "c").bucket == Error;
    }
    GetDecisionByHosts(node, env, hosts, 3);
    assert !WriteAckedAt(node, env, Upsert, "c");
    WriteShortfall(node, env, Upsert, hosts, 3);
  }

  /** The responses `processGet` may send for a tally (any collected value can be the one returned). */
  predicate IsGetResponse(t: GetTally, ack: int, resp: Response)
  {
    match GetDecision(t, ack)
    case Found => resp.status == OK && resp.updated.None? && resp.body in t.values.Values
    case Absent => resp == Empty(NOT_FOUND)
    case QuorumNotReached => resp == Empty(GATEWAY_TIMEOUT)
  }

  /**
   `processGet`: visits every host, with no early exit, and renders the
   decision. Which collected value is returned is left to the map's
   iteration order (`values.entrySet().stream().findFirst()`).
   */
  method ProcessGet(node: Node, env: Env, hosts: seq<Host>, replicas: Replicas) returns (resp: Response)
    ensures IsGetResponse(TallyGet(node, env, hosts), replicas.ack, resp)
    ensures resp.status in {OK, NOT_FOUND, GATEWAY_TIMEOUT}
    ensures resp.status == OK <==> SomeValue(node, env, hosts) && !SomeDeleted(node, env, hosts)
    ensures resp.status == OK ==> exists h :: h in hosts && GetStepAt(node, env, h).collected == Some(resp.body)
    ensures resp.status == GATEWAY_TIMEOUT
            <==> !(SomeValue(node, env, hosts) && !SomeDeleted(node, env, hosts))
                 && Answered(node, env, hosts) < replicas.ack
  {
    var success, notFound, error, deleted := 0, 0, 0, 0;
    var values: map<Host, Bytes> := map[];
    for i := 0 to |hosts|
      invariant GetTally(success, notFound, deleted, error, values) == TallyGet(node, env, hosts[..i])
    {
      var host := hosts[i];
      var step: GetStep;
      if host == node.my {
        step := ClassifyLocalGet(env.store.read, env.store.time, env.store.retryTime);
      } else {
        step := ClassifyRemoteGet(env.peers(host).get);
      }
      if step.collected.Some? {
        values := values[host := step.collected.value];
      }
      match step.bucket {
        case Success => success := success + 1;
        case NotFound => notFound := notFound + 1;
        case Deleted => deleted := deleted + 1;
        case Error => error := error + 1;
      }
      assert hosts[..i + 1][..i] == hosts[..i];
    }
    assert hosts[..|hosts|] == hosts;
    if |values| > 0 && deleted == 0 {
      assert values.Keys != {};
      var host :| host in values;
      resp := Response(OK, values[host], None);
    } else if success + deleted + notFound < replicas.ack {
      resp := Empty(GATEWAY_TIMEOUT);
    } else {
      resp := Empty(NOT_FOUND);
    }
    GetDecisionByHosts(node, env, hosts, replicas.ack);
    TallyGetCounts(node, env, hosts);
    TallyGetValues(node, env, hosts);
  }

  // ---------------------------------------------------------------------
  // The write paths

  datatype WriteOp = Upsert | Remove

  /**
   Whether `host` counts as a success for a PUT (`Upsert`) or a DELETE
   (`Remove`): locally, the store call returned; remotely, the peer answered
   exactly 201 for a PUT and exactly 202 for a DELETE.
   */
  function WriteAckedAt(node: Node, env: Env, op: WriteOp, host: Host): bool
  {
    if host == node.my then
      (if op == Upsert then env.store.upsert else env.store.remove) == Written
    else
      var r := if op == Upsert then env.peers(host).put else env.peers(host).delete;
      r.Received? && r.response.status == (if op == Upsert then CREATED else ACCEPTED)
  }

  /** The counters of `processPut` and `processDelete`. */
  datatype WriteTally = WriteTally(success: nat, error: nat)

  function TallyWrite(node: Node, env: Env, op: WriteOp, hosts: seq<Host>): WriteTally
    decreases |hosts|
  {
    if hosts == [] then WriteTally(0, 0)
    else
      var t := TallyWrite(node, env, op, hosts[..|hosts| - 1]);
      if WriteAckedAt(node, env, op, hosts[|hosts| - 1]) then t.(success := t.success + 1)
      else t.(error := t.error + 1)
  }

  /** Whether each host acknowledged, in order: a reference for the counters. */
  function Acks(node: Node, env: Env, op: WriteOp, hosts: seq<Host>): (a: seq<bool>)
    ensures |a| == |hosts|
    ensures forall i :: 0 <= i < |hosts| ==> a[i] == WriteAckedAt(node, env, op, hosts[i])
  {
    seq(|hosts|, i requires 0 <= i < |hosts| => WriteAckedAt(node, env, op, hosts[i]))
  }

  /** Every host is visited and increments exactly one of `success` and `error`. */
  lemma {:induction false} TallyWriteCounts(node: Node, env: Env, op: WriteOp, hosts: seq<Host>)
    ensures TallyWrite(node, env, op, hosts).success == multiset(Acks(node, env, op, hosts))[true]
    ensures TallyWrite(node, env, op, hosts).error == multiset(Acks(node, env, op, hosts))[false]
    ensures TallyWrite(node, env, op, hosts).success + TallyWrite(node, env, op, hosts).error == |hosts|
    decreases |hosts|
  {
    if hosts != [] {
      var init := hosts[..|hosts| - 1];
      TallyWriteCounts(node, env, op, init);
      assert Acks(node, env, op, hosts) == Acks(node, env, op, init) + [WriteAckedAt(node, env, op, hosts[|hosts| - 1])];
    }
  }

  /** The number of hosts that acknowledged the write. */
  function AckCount(node: Node, env: Env, op: WriteOp, hosts: seq<Host>): nat
  {
    multiset(Acks(node, env, op, hosts))[true]
  }

  /** With `ack` equal to the number of contacted hosts, one host that does not acknowledge fails the write. */
  lemma WriteShortfall(node: Node, env: Env, op: WriteOp, hosts: seq<Host>, ack: int)
    requires ack == |hosts|
    requires exists h :: h in hosts && !WriteAckedAt(node, env, op, h)
    ensures AckCount(node, env, op, hosts) < ack
  {
    TallyWriteCounts(node, env, op, hosts);
    var h :| h in hosts && !WriteAckedAt(node, env, op, h);
    var i :| 0 <= i < |hosts| && hosts[i] == h;
    assert Acks(node, env, op, hosts)[i] == false;
  }

  /** When every contacted host acknowledges, any `ack` up to their number is reached. */
  lemma WriteAllAcked(node: Node, env: Env, op: WriteOp, hosts: seq<Host>, ack: int)
    requires forall h :: h in hosts ==> WriteAckedAt(node, env, op, h)
    requires ack <= |hosts|
    ensures AckCount(node, env, op, hosts) >= ack
  {
    TallyWriteCounts(node, env, op, hosts);
    var a := Acks(node, env, op, hosts);
    assert false !in a;
  }

  /**
   `processPut`: upserts locally or forwards a replica PUT to every host;
   201 iff at least `ack` of them acknowledged, otherwise 504. Writes that
   did happen are not undone.
   */
  method ProcessPut(node: Node, env: Env, hosts: seq<Host>, replicas: Replicas) returns (resp: Response)
    ensures resp == Empty(if AckCount(node, env, Upsert, hosts) >= replicas.ack then CREATED else GATEWAY_TIMEOUT)
    ensures TallyWrite(node, env, Upsert, hosts).success >= replicas.ack <==> resp.status == CREATED
  {
    var success, error := 0, 0;
    for i := 0 to |hosts|
      invariant WriteTally(success, error) == TallyWrite(node, env, Upsert, hosts[..i])
    {
      var host := hosts[i];
      if host == node.my {
        match env.store.upsert {
          case Written => success := success + 1;
          case WriteFailed => error := error + 1;
        }
      } else {
        match env.peers(host).put {
          case Received(response) =>
            if response.status == CREATED {
              success := success + 1;
            } else {
              error := error + 1;
            }
          case Unreachable => error := error + 1;
        }
      }
      assert hosts[..i + 1][..i] == hosts[..i];
    }
    assert hosts[..|hosts|] == hosts;
    TallyWriteCounts(node, env, Upsert, hosts);
    if success >= replicas.ack {
      resp := Empty(CREATED);
    } else {
      resp := Empty(GATEWAY_TIMEOUT);
    }
  }

  /**
   `processDelete`: removes locally or forwards a replica DELETE to every
   host; 202 iff at least `ack` of them acknowledged, otherwise 504.
   */
  method ProcessDelete(node: Node, env: Env, hosts: seq<Host>, replicas: Replicas) returns (resp: Response)
    ensures resp == Empty(if AckCount(node, env, Remove, hosts) >= replicas.ack then ACCEPTED else GATEWAY_TIMEOUT)
    ensures TallyWrite(node, env, Remove, hosts).success >= replicas.ack <==> resp.status == ACCEPTED
  {
    var success, error := 0, 0;
    for i := 0 to |hosts|
      invariant WriteTally(success, error) == TallyWrite(node, env, Remove, hosts[..i])
    {
      var host := hosts[i];
      if host == node.my {
        match env.store.remove {
          case Written => success := success + 1;
          case WriteFailed => error := error + 1;
        }
      } else {
        match env.peers(host).delete {
          case Received(response) =>
            if response.status == ACCEPTED {
              success := success + 1;
            } else {
              error := error + 1;
            }
          case Unreachable => error := error + 1;
        }
      }
      assert hosts[..i + 1][..i] == hosts[..i];
    }
    assert hosts[..|hosts|] == hosts;
    TallyWriteCounts(node, env, Remove, hosts);
    if success >= replicas.ack {
      resp := Empty(ACCEPTED);
    } else {
      resp := Empty(GATEWAY_TIMEOUT);
    }
  }

  // ---------------------------------------------------------------------
  // Validation and host selection

  function Min(a: int, b: int): int
  {
    if a < b then a else b
  }

  /** `topologyList.stream().limit(from)`: the first `from` hosts, or all of them. */
  function ReplicaHosts(topology: seq<Host>, from: nat): (hosts: seq<Host>)
    ensures hosts <= topology
    ensures |hosts| == Min(from, |topology|)
  {
    if from < |topology| then topology[..from] else topology
  }

  /** A query parameter that is absent (null) or empty. */
  predicate MissingOrEmpty(p: Option<string>)
  {
    p.None? || p.value == ""
  }

  /** The validated quorum of a request and the hosts it will contact. */
  datatype Plan = Plan(replicas: Replicas, hosts: seq<Host>)

  /**
   The first half of `clientApiQuery`: a missing or empty id, or a quorum
   that `fromQuery` refuses, is a bad request (None); an absent or empty
   quorum is the default for the topology size. The hosts are a prefix of
   the topology order and do not depend on the key.
   */
  function Resolve(node: Node, id: Option<string>, replicasParameter: Option<string>): (r: Option<Plan>)
    requires node.Valid()
    ensures r.None? <==> (|| MissingOrEmpty(id)
                         || (!MissingOrEmpty(replicasParameter) && FromQuery(replicasParameter.value).None?))
    ensures r.Some? && MissingOrEmpty(replicasParameter) ==>
              r.value.replicas == DefaultForCount(|node.topology|) && r.value.hosts == node.topology
    ensures r.Some? && !MissingOrEmpty(replicasParameter) ==>
              Some(r.value.replicas) == FromQuery(replicasParameter.value)
    ensures r.Some? ==> r.value.hosts == node.topology[..Min(r.value.replicas.from, |node.topology|)]
  {
    if MissingOrEmpty(id) then None
    else
      var replicas := if MissingOrEmpty(replicasParameter) then Some(DefaultForCount(|node.topology|))
                      else FromQuery(replicasParameter.value);
      match replicas
      case None => None
      case Some(rep) => Some(Plan(rep, ReplicaHosts(node.topology, rep.from)))
  }

  /** Host selection is the same for every key: no key-based routing. */
  lemma ResolveIgnoresKey(node: Node, id1: string, id2: string, replicasParameter: Option<string>)
    requires node.Valid()
    requires id1 != "" && id2 != ""
    ensures Resolve(node, Some(id1), replicasParameter) == Resolve(node, Some(id2), replicasParameter)
  {
  }

  /**
   `clientApiQuery`: validation first (so every method gets 400 for a bad id
   or quorum), then GET, PUT and DELETE fan out over the selected hosts and
   any other method is a bad request.
   */
  method ClientApiQuery(node: Node, m: Method, id: Option<string>, replicasParameter: Option<string>, env: Env)
    returns (resp: Response)
    requires node.Valid()
    ensures Resolve(node, id, replicasParameter).None? || m.Other? ==> resp == Empty(BAD_REQUEST)
    ensures var p := Resolve(node, id, replicasParameter);
      p.Some? && m.Get? ==> IsGetResponse(TallyGet(node, env, p.value.hosts), p.value.replicas.ack, resp)
    ensures var p := Resolve(node, id, replicasParameter);
      p.Some? && m.Put? ==>
        resp == Empty(if AckCount(node, env, Upsert, p.value.hosts) >= p.value.replicas.ack then CREATED else GATEWAY_TIMEOUT)
    ensures var p := Resolve(node, id, replicasParameter);
      p.Some? && m.Delete? ==>
        resp == Empty(if AckCount(node, env, Remove, p.value.hosts) >= p.value.replicas.ack then ACCEPTED else GATEWAY_TIMEOUT)
  {
    var plan := Resolve(node, id, replicasParameter);
    if plan.None? {
      return Empty(BAD_REQUEST);
    }
    var replicas, hosts := plan.value.replicas, plan.value.hosts;
    match m {
      case Get => resp := ProcessGet(node, env, hosts, replicas);
      case Put => resp := ProcessPut(node, env, hosts, replicas);
      case Delete => resp := ProcessDelete(node, env, hosts, replicas);
      case Other => resp := Empty(BAD_REQUEST);
    }
  }
}
