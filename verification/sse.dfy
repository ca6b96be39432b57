/**
 * The server-sent-events manager: connected clients under increasing ids,
 * a handshake frame on connect, broadcast of an update to every client
 * (dropping those whose connection fails) and an update to one client.
 *
 * A response stream is a `SinkId`; what the manager has written to each
 * stream is kept in a log of frames. Payloads are JSON texts, already
 * serialised.
 */
module Sse {

  import opened Wrappers
  import opened Text

  /** An HTTP response stream, by identity. */
  type SinkId = nat

  /** One server-sent event carrying a JSON payload. */
  function Frame(json: string): (f: string)
    ensures |f| == |json| + 8
    ensures f[..6] == "data: " && f[6..|f| - 2] == json && f[|f| - 2..] == "\n\n"
  {
    "data: " + json + "\n\n"
  }

  /** `JSON.stringify({ status: 'Connected' })`. */
  const ConnectedJson: string := "{\"status\":\"Connected\"}"

  /** The manager's state, with the frames written so far to each stream it has seen. */
  datatype Registry = Registry(clients: map<nat, SinkId>, counter: nat, written: map<SinkId, seq<string>>)

  /**
   * Every id was issued by the counter, every client's stream has a log, and
   * no stream is registered under two ids.
   */
  predicate Valid(r: Registry) {
    && (forall id :: id in r.clients ==> id < r.counter && r.clients[id] in r.written)
    && (forall i, j :: i in r.clients && j in r.clients && r.clients[i] == r.clients[j] ==> i == j)
  }

  function Empty(): (r: Registry)
    ensures Valid(r) && r.clients == map[] && r.counter == 0
  {
    Registry(map[], 0, map[])
  }

  /** `init`: the handshake frame, then the next id for the new stream. */
  function Register(r: Registry, res: SinkId): (result: (Registry, nat))
    requires res !in r.written
    ensures result.1 == r.counter
    ensures result.0.clients == r.clients[result.1 := res]
    ensures result.0.counter == r.counter + 1
    ensures result.0.written == r.written[res := [Frame(ConnectedJson)]]
  {
    (Registry(r.clients[r.counter := res], r.counter + 1, r.written[res := [Frame(ConnectedJson)]]), r.counter)
  }

  /** The `close` handler: the client is forgotten, its log kept. */
  function Close(r: Registry, clientId: nat): (r': Registry)
    ensures r'.clients.Keys == r.clients.Keys - {clientId}
    ensures forall id :: id in r'.clients ==> r'.clients[id] == r.clients[id]
    ensures r'.counter == r.counter && r'.written == r.written
  {
    r.(clients := r.clients - {clientId})
  }

  /** One turn of sendUpdate's loop, for the client with this id if there is one. */
  function Step(r: Registry, json: string, failing: set<SinkId>, id: nat): Registry {
    if id !in r.clients then r
    else
      var client := r.clients[id];
      if client in failing then r.(clients := r.clients - {id})
      else if client !in r.written then r
      else r.(written := r.written[client := r.written[client] + [Frame(json)]])
  }

  /** sendUpdate after the ids below n have been visited, in increasing order. */
  function BroadcastUpTo(r: Registry, json: string, failing: set<SinkId>, n: nat): Registry
    decreases n
  {
    if n == 0 then r else Step(BroadcastUpTo(r, json, failing, n - 1), json, failing, n - 1)
  }

  /**
   * `sendUpdate`: `failing` are the streams whose `write` throws; they are
   * dropped, every other client gets the frame.
   */
  function Broadcast(r: Registry, json: string, failing: set<SinkId>): Registry {
    BroadcastUpTo(r, json, failing, r.counter)
  }

  /** The streams that have received the frame once the ids below n are visited. */
  function ServedBelow(r: Registry, failing: set<SinkId>, n: nat): set<SinkId> {
    set id | id in r.clients && id < n && r.clients[id] !in failing :: r.clients[id]
  }

  /** What visiting the ids below n has done: failing clients dropped, live ones served once. */
  lemma {:induction false} BroadcastUpToEffect(r: Registry, json: string, failing: set<SinkId>, n: nat)
    requires Valid(r)
    ensures var b := BroadcastUpTo(r, json, failing, n);
      && b.counter == r.counter
      && b.written.Keys == r.written.Keys
      && (forall id :: id in b.clients <==> id in r.clients && (id >= n || r.clients[id] !in failing))
      && (forall id :: id in b.clients ==> b.clients[id] == r.clients[id])
      && (forall s :: s in r.written ==>
            b.written[s] == r.written[s] + (if s in ServedBelow(r, failing, n) then [Frame(json)] else []))
    decreases n
  {
    if n > 0 {
      BroadcastUpToEffect(r, json, failing, n - 1);
      StepEffect(r, json, failing, n - 1);
    }
  }

  /** The effect of visiting id n, given the effect of visiting the ids before it. */
  lemma StepEffect(r: Registry, json: string, failing: set<SinkId>, n: nat)
    requires Valid(r)
    requires var b := BroadcastUpTo(r, json, failing, n);
      && b.counter == r.counter
      && b.written.Keys == r.written.Keys
      && (forall id :: id in b.clients <==> id in r.clients && (id >= n || r.clients[id] !in failing))
      && (forall id :: id in b.clients ==> b.clients[id] == r.clients[id])
      && (forall s :: s in r.written ==>
            b.written[s] == r.written[s] + (if s in ServedBelow(r, failing, n) then [Frame(json)] else []))
    ensures var b := BroadcastUpTo(r, json, failing, n + 1);
      && b.counter == r.counter
      && b.written.Keys == r.written.Keys
      && (forall id :: id in b.clients <==> id in r.clients && (id >= n + 1 || r.clients[id] !in failing))
      && (forall id :: id in b.clients ==> b.clients[id] == r.clients[id])
      && (forall s :: s in r.written ==>
            b.written[s] == r.written[s] + (if s in ServedBelow(r, failing, n + 1) then [Frame(json)] else []))
  {
    var served := ServedBelow(r, failing, n);
    var served' := ServedBelow(r, failing, n + 1);
    if n in r.clients && r.clients[n] !in failing {
      var c := r.clients[n];
      assert served' == served + {c};
      assert c !in served;
    } else {
      assert served' == served;
    }
  }

  /** After sendUpdate: the failing clients are gone and every other client got the frame exactly once. */
  lemma BroadcastEffect(r: Registry, json: string, failing: set<SinkId>)
    requires Valid(r)
    ensures var b := Broadcast(r, json, failing);
      && Valid(b)
      && b.counter == r.counter
      && b.written.Keys == r.written.Keys
      && (forall id :: id in b.clients <==> id in r.clients && r.clients[id] !in failing)
      && (forall id :: id in b.clients ==> b.clients[id] == r.clients[id])
      && (forall id :: id in b.clients ==> b.written[b.clients[id]] == r.written[r.clients[id]] + [Frame(json)])
      && (forall s :: s in r.written && s !in ServedBelow(r, failing, r.counter) ==> b.written[s] == r.written[s])
  {
    BroadcastUpToEffect(r, json, failing, r.counter);
    var b := Broadcast(r, json, failing);
    forall id | id in b.clients
      ensures b.written[b.clients[id]] == r.written[r.clients[id]] + [Frame(json)]
    {
      assert r.clients[id] in ServedBelow(r, failing, r.counter);
    }
  }

  /** With no failing stream, sendUpdate keeps every client. */
  lemma BroadcastKeepsHealthyClients(r: Registry, json: string)
    requires Valid(r)
    ensures Broadcast(r, json, {}).clients == r.clients
  {
    BroadcastEffect(r, json, {});
  }

  /** With no client registered, sendUpdate writes nothing and changes nothing. */
  lemma BroadcastNoClients(r: Registry, json: string, failing: set<SinkId>)
    requires Valid(r) && r.clients == map[]
    ensures Broadcast(r, json, failing) == r
  {
    BroadcastEffect(r, json, failing);
    var b := Broadcast(r, json, failing);
    assert ServedBelow(r, failing, r.counter) == {};
    assert b.clients == r.clients;
    assert b.written == r.written;
  }

  /** Looks up `clients[key]`: object keys are the ids' decimal texts. */
  function Lookup(r: Registry, key: string): Option<nat> {
    match ParseInt(key)
    case Some(n) => if n >= 0 && NatToString(n) == key && n in r.clients then Some(n) else None
    case None => None
  }

  /** A key finds a client exactly when it is the decimal text of a registered id. */
  lemma LookupSpec(r: Registry, key: string, id: nat)
    ensures Lookup(r, key) == Some(id) <==> id in r.clients && key == NatToString(id)
  {
    if id in r.clients && key == NatToString(id) {
      ParseIntToString(id);
    }
  }

  /**
   * The property names a plain object inherits from `Object.prototype`.
   * Looking one of them up in `clients` gives a truthy value that is not a
   * response stream.
   */
  const InheritedKeys: set<string> := {
    "constructor", "hasOwnProperty", "isPrototypeOf", "propertyIsEnumerable",
    "toString", "toLocaleString", "valueOf", "__proto__",
    "__defineGetter__", "__defineSetter__", "__lookupGetter__", "__lookupSetter__"
  }

  /** No inherited name is the decimal text of an id, so none names a client. */
  lemma InheritedKeysAreNoClients(r: Registry, key: string)
    requires key in InheritedKeys
    ensures Lookup(r, key).None?
  {
    assert !IsDigit(key[0]);
  }

  /**
   * How `sendUpdateToClient` ends. NotAStream: the key named an inherited
   * property, so `client.write` is not a function and a TypeError is thrown.
   */
  datatype Outcome = Delivered | NoSuchClient | WriteFailed | NotAStream

  /**
   * `sendUpdateToClient`. A write that throws (to a failing stream, or to an
   * inherited property) leaves the method with nothing changed.
   */
  function Unicast(r: Registry, key: string, json: string, failing: set<SinkId>): (result: (Registry, Outcome))
    requires Valid(r)
    ensures result.0.clients == r.clients && result.0.counter == r.counter
    ensures result.1 == NoSuchClient <==> Lookup(r, key).None? && key !in InheritedKeys
    ensures result.1 == NotAStream <==> Lookup(r, key).None? && key in InheritedKeys
    ensures result.1 == Delivered <==> Lookup(r, key).Some? && r.clients[Lookup(r, key).value] !in failing
    ensures result.1 == WriteFailed <==> Lookup(r, key).Some? && r.clients[Lookup(r, key).value] in failing
    ensures result.1 != Delivered ==> result.0 == r
    ensures result.1 == Delivered ==>
      var c := r.clients[Lookup(r, key).value];
      && c !in failing
      && result.0.written == r.written[c := r.written[c] + [Frame(json)]]
  {
    match Lookup(r, key)
    case None => (r, if key in InheritedKeys then NotAStream else NoSuchClient)
    case Some(id) =>
      var client := r.clients[id];
      if client in failing then (r, WriteFailed)
      else (r.(written := r.written[client := r.written[client] + [Frame(json)]]), Delivered)
  }

  /** Every operation keeps the registry valid. */
  lemma RegisterValid(r: Registry, res: SinkId)
    requires Valid(r) && res !in r.written
    ensures Valid(Register(r, res).0)
  {
  }

  lemma CloseValid(r: Registry, clientId: nat)
    requires Valid(r)
    ensures Valid(Close(r, clientId))
  {
  }

  lemma UnicastValid(r: Registry, key: string, json: string, failing: set<SinkId>)
    requires Valid(r)
    ensures Valid(Unicast(r, key, json, failing).0)
  {
  }

  /** Closing twice is closing once. */
  lemma CloseIdempotent(r: Registry, clientId: nat)
    ensures Close(Close(r, clientId), clientId) == Close(r, clientId)
  {
  }

  // Traces of operations

  datatype Op =
    | Connect(res: SinkId)
    | Disconnect(clientId: nat)
    | Update(json: string, failing: set<SinkId>)
    | UpdateOne(key: string, json: string, failing: set<SinkId>)

  /** Each connection brings a stream not seen before. */
  predicate Admissible(r: Registry, op: Op) {
    op.Connect? ==> op.res !in r.written
  }

  /** One operation: the new state and the id it issued, if any. */
  function Apply(r: Registry, op: Op): (result: (Registry, Option<nat>))
    requires Valid(r) && Admissible(r, op)
    ensures Valid(result.0)
    ensures result.0.counter == r.counter + (if op.Connect? then 1 else 0)
    ensures result.1.Some? <==> op.Connect?
    ensures result.1.Some? ==> result.1.value == r.counter
  {
    match op
    case Connect(res) =>
      RegisterValid(r, res);
      var (r', id) := Register(r, res);
      (r', Some(id))
    case Disconnect(clientId) =>
      CloseValid(r, clientId);
      (Close(r, clientId), None)
    case Update(json, failing) =>
      BroadcastEffect(r, json, failing);
      (Broadcast(r, json, failing), None)
    case UpdateOne(key, json, failing) =>
      UnicastValid(r, key, json, failing);
      (Unicast(r, key, json, failing).0, None)
  }

  /** Runs a trace; None when some connection reuses a stream. */
  function Run(r: Registry, ops: seq<Op>): (result: Option<(Registry, seq<nat>)>)
    requires Valid(r)
    ensures result.Some? ==> Valid(result.value.0)
    decreases |ops|
  {
    if ops == [] then Some((r, []))
    else if !Admissible(r, ops[0]) then None
    else
      var (r1, issued) := Apply(r, ops[0]);
      match Run(r1, ops[1..])
      case None => None
      case Some((r2, later)) => Some((r2, (if issued.Some? then [issued.value] else []) + later))
  }

  /** The ids handed out along any trace increase strictly, so an id is never reused. */
  lemma {:induction false} IssuedIdsIncrease(r: Registry, ops: seq<Op>)
    requires Valid(r)
    requires Run(r, ops).Some?
    ensures var (final, issued) := Run(r, ops).value;
      && r.counter <= final.counter
      && (forall i :: 0 <= i < |issued| ==> r.counter <= issued[i] < final.counter)
      && (forall i, j :: 0 <= i < j < |issued| ==> issued[i] < issued[j])
    decreases |ops|
  {
    if ops != [] {
      var (r1, first) := Apply(r, ops[0]);
      IssuedIdsIncrease(r1, ops[1..]);
    }
  }

  /** The manager the dashboard's routes share. */
  class SSEManager {
    var clients: map<nat, SinkId>
    var clientIdCounter: nat
    /** What has been written to each response stream this manager has seen. */
    var written: map<SinkId, seq<string>>

    function State(): Registry
      reads this
    {
      Registry(clients, clientIdCounter, written)
    }

    constructor()
      ensures State() == Empty()
    {
      clients := map[];
      clientIdCounter := 0;
      written := map[];
    }

    method Init(res: SinkId) returns (clientId: nat)
      requires Valid(State()) && res !in written
      modifies this
      ensures Valid(State())
      ensures (State(), clientId) == Register(old(State()), res)
    {
      written := written[res := [Frame(ConnectedJson)]];
      clientId := clientIdCounter;
      clientIdCounter := clientIdCounter + 1;
      clients := clients[clientId := res];
    }

    /** The handler `init` registers for the request's `close` event. */
    method OnClose(clientId: nat)
      requires Valid(State())
      modifies this
      ensures Valid(State())
      ensures State() == Close(old(State()), clientId)
    {
      clients := clients - {clientId};
    }

    method SendUpdate(json: string, failing: set<SinkId>)
      requires Valid(State())
      modifies this
      ensures Valid(State())
      ensures State() == Broadcast(old(State()), json, failing)
    {
      ghost var start := State();
      for clientId := 0 to clientIdCounter
        invariant clientIdCounter == start.counter
        invariant State() == BroadcastUpTo(start, json, failing, clientId)
      {
        if clientId in clients {
          var client := clients[clientId];
          if client in failing {
            clients := clients - {clientId};
          } else if client in written {
            written := written[client := written[client] + [Frame(json)]];
          }
        }
      }
      BroadcastEffect(start, json, failing);
    }

    method SendUpdateToClient(clientId: string, json: string, failing: set<SinkId>) returns (outcome: Outcome)
      requires Valid(State())
      modifies this
      ensures Valid(State())
      ensures (State(), outcome) == Unicast(old(State()), clientId, json, failing)
    {
      var id := Lookup(State(), clientId);
      if id.None? {
        if clientId in InheritedKeys {
          return NotAStream;
        }
        return NoSuchClient;
      }
      var client := clients[id.value];
      if client in failing {
        return WriteFailed;
      }
      written := written[client := written[client] + [Frame(json)]];
      outcome := Delivered;
    }
  }
}
