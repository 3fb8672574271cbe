/** The request dispatcher (`Handler`). A datagram is classified as the first
    package of the protocol, in declared order, whose `define` predicates all
    hold; the package's `response` method then answers. Predicates, responders
    and the `get_<field>` builders of `make_message` are the handler's
    methods, found by name; here they are tables from that name to a function. */
module Dispatch {
  import opened Wrappers
  import opened Codec
  import opened Schema
  import opened Address
  import opened Connections
  import Unpack

  /** A `define_*` method applied to a package. Besides the package it sees
      the handler's state, which is the current connection's request. */
  type Predicate = (Package, seq<Byte>) -> bool

  /** A `do_*` method: the payloads it sends back to the current connection,
      in order. */
  type Responder = (Package, seq<Byte>) -> seq<seq<Byte>>

  /** `__get_define_protocol_functions`: a bare name stands for the
      one-element list holding it. (The list test is spelled `isintance`, a
      NameError; `isinstance` is meant.) */
  function DefineFunctions(p: Package): seq<string>
  {
    match p.define
    case Names(names) => names
    case OneName(name) => [name]
  }

  /** The loop of `__define_request` over a list of predicate names: the
      first name that is no method of the handler is an error, the first
      predicate that does not hold stops the walk with false. (The loop looks
      up `response_function_name`, which is undefined there; the name being
      walked is what is meant.) */
  function AllHold(names: seq<string>, p: Package, preds: map<string, Predicate>, request: seq<Byte>): (r: Result<bool>)
    ensures r == Ok(true) <==> forall i :: 0 <= i < |names| ==> names[i] in preds && preds[names[i]](p, request)
    ensures r == Ok(false) <==>
              exists i :: 0 <= i < |names| && names[i] in preds && !preds[names[i]](p, request) &&
                          forall j :: 0 <= j < i ==> names[j] in preds && preds[names[j]](p, request)
    ensures r.Err? ==>
              exists i :: 0 <= i < |names| && names[i] !in preds && r.error == NoPredicate(names[i]) &&
                          forall j :: 0 <= j < i ==> names[j] in preds && preds[names[j]](p, request)
  {
    if names == [] then Ok(true)
    else if names[0] !in preds then Err(NoPredicate(names[0]))
    else if !preds[names[0]](p, request) then Ok(false)
    else
      var r := AllHold(names[1..], p, preds, request);
      assert forall i :: 0 < i < |names| ==> names[i] == names[1..][i - 1];
      if r == Ok(false) then
        var k :| 0 <= k < |names[1..]| && names[1..][k] in preds && !preds[names[1..][k]](p, request) &&
                 forall j :: 0 <= j < k ==> names[1..][j] in preds && preds[names[1..][j]](p, request);
        assert names[k + 1] == names[1..][k];
        r
      else if r.Err? then
        var k :| 0 <= k < |names[1..]| && names[1..][k] !in preds && r.error == NoPredicate(names[1..][k]) &&
                 forall j :: 0 <= j < k ==> names[1..][j] in preds && preds[names[1..][j]](p, request);
        assert names[k + 1] == names[1..][k];
        r
      else r
  }

  /** `__define_request`: whether every predicate the package names holds. */
  function DefineRequest(p: Package, preds: map<string, Predicate>, request: seq<Byte>): Result<bool>
  {
    AllHold(DefineFunctions(p), p, preds, request)
  }

  /** Each package's verdict, in declared order. */
  function Verdicts(packages: seq<Package>, preds: map<string, Predicate>, request: seq<Byte>): seq<Result<bool>>
  {
    seq(|packages|, i requires 0 <= i < |packages| => DefineRequest(packages[i], preds, request))
  }

  /** The early-return walk of `__define_package` over the verdicts, from
      position `from` on: the position of the first `true`, nothing when
      all are `false`, the first error otherwise. */
  function FirstAccepted(verdicts: seq<Result<bool>>, from: nat): (r: Result<Option<nat>>)
    requires from <= |verdicts|
    decreases |verdicts| - from
    ensures r.Ok? && r.value.Some? ==>
              from <= r.value.value < |verdicts| && verdicts[r.value.value] == Ok(true) &&
              forall j :: from <= j < r.value.value ==> verdicts[j] == Ok(false)
    ensures r == Ok(None) <==> forall i :: from <= i < |verdicts| ==> verdicts[i] == Ok(false)
    ensures r.Err? ==>
              exists i :: from <= i < |verdicts| && verdicts[i] == Err(r.error) &&
                          forall j :: from <= j < i ==> verdicts[j] == Ok(false)
  {
    if from == |verdicts| then Ok(None)
    else if verdicts[from].Err? then Err(verdicts[from].error)
    else if verdicts[from].value then Ok(Some(from))
    else FirstAccepted(verdicts, from + 1)
  }

  /** `__define_package`: the first package, in declared order, whose
      predicates all hold; none when no package is recognised. A package
      whose predicates cannot be looked up stops the search with that error.
      (The loop returns `request_protocol`, which is undefined there; the
      package just judged is what is meant.) */
  function DefinePackage(packages: seq<Package>, preds: map<string, Predicate>, request: seq<Byte>): (r: Result<Option<Package>>)
    ensures r.Ok? && r.value.Some? ==>
              exists i :: 0 <= i < |packages| && packages[i] == r.value.value &&
                          DefineRequest(packages[i], preds, request) == Ok(true) &&
                          forall j :: 0 <= j < i ==> DefineRequest(packages[j], preds, request) == Ok(false)
    ensures r == Ok(None) <==> forall i :: 0 <= i < |packages| ==> DefineRequest(packages[i], preds, request) == Ok(false)
    ensures r.Err? ==>
              exists i :: 0 <= i < |packages| && DefineRequest(packages[i], preds, request) == Err(r.error) &&
                          forall j :: 0 <= j < i ==> DefineRequest(packages[j], preds, request) == Ok(false)
  {
    var verdicts := Verdicts(packages, preds, request);
    assert |verdicts| == |packages| &&
           forall i :: 0 <= i < |packages| ==> verdicts[i] == DefineRequest(packages[i], preds, request);
    match FirstAccepted(verdicts, 0)
    case Err(e) => Err(e)
    case Ok(None) => Ok(None)
    case Ok(Some(i)) => Ok(Some(packages[i]))
  }

  /** What `__handle` sends for a request: nothing when no package is
      recognised; otherwise what the package's responder sends. A package
      without a `response` name, or one naming no method, is an error. (The
      guard reads the undefined `request_name`; whether a package was
      recognised is what is meant. The response guard is written
      `in None`, which raises for every name; `is None` is what is meant,
      after which `getattr` with None raises as well.) */
  function Reply(packages: seq<Package>, preds: map<string, Predicate>, responders: map<string, Responder>,
                 request: seq<Byte>): Result<seq<seq<Byte>>>
  {
    match DefinePackage(packages, preds, request)
    case Err(e) => Err(e)
    case Ok(None) => Ok([])
    case Ok(Some(p)) =>
      if p.response.None? then Err(NoResponse)
      else if p.response.value !in responders then Err(NoResponder(p.response.value))
      else Ok(responders[p.response.value](p, request))
  }

  /** The datagrams a list of payloads makes, all to one address. */
  function Outgoing(payloads: seq<seq<Byte>>, to: Addr): seq<Datagram>
  {
    seq(|payloads|, i requires 0 <= i < |payloads| => Datagram(payloads[i], to))
  }

  lemma OutgoingSnoc(payloads: seq<seq<Byte>>, i: nat, to: Addr)
    requires i < |payloads|
    ensures Outgoing(payloads[..i + 1], to) == Outgoing(payloads[..i], to) + [Datagram(payloads[i], to)]
  {
  }

  class Handler {
    /** The node's pool (a singleton shared by every handler). */
    const pool: NetPool
    /** The protocol's package list, `protocol['package']`. */
    const packages: seq<Package>
    const preds: map<string, Predicate>
    const responders: map<string, Responder>
    var transport: Transport?
    var connection: Connection?

    /** `Handler(protocol, …)`: no transport and no connection yet. */
    constructor (pool: NetPool, packages: seq<Package>, preds: map<string, Predicate>, responders: map<string, Responder>)
      ensures this.pool == pool && this.packages == packages && this.preds == preds && this.responders == responders
      ensures transport == null && connection == null
    {
      this.pool, this.packages, this.preds, this.responders := pool, packages, preds, responders;
      transport, connection := null, null;
    }

    /** `connection_made`. */
    method ConnectionMade(transport: Transport)
      modifies this
      ensures this.transport == transport && connection == old(connection)
    {
      this.transport := transport;
    }

    /** `datagram_received`: a connection for the datagram becomes the
        current one, the pool records the address, then the request is
        handled. (The pool is handed the new connection alone; its own
        `save_connection` takes request, address and transport, and that is
        the call made here. The connection it makes is the current one, so a
        new address is pooled with the handler's connection.) */
    method DatagramReceived(request: seq<Byte>, addr: Addr, now: int) returns (err: Option<Error>)
      requires transport != null && pool.Valid()
      modifies this, pool, transport
      ensures pool.Valid() && pool.GroupIndex(addr).Some?
      ensures transport == old(transport) && connection != null && fresh(connection)
      ensures old(pool.GroupIndex(addr)).Some? ==>
                pool.group0 == SetState(old(pool.group0), addr, Waiting) &&
                pool.group1 == SetState(old(pool.group1), addr, Waiting)
      ensures old(pool.GroupIndex(addr)).None? && old(|pool.group0| > |pool.group1|) ==>
                pool.group0 == old(pool.group0) &&
                pool.group1 == old(pool.group1) + [Slot(addr, connection, Param(Waiting, {}))]
      ensures old(pool.GroupIndex(addr)).None? && old(|pool.group0| <= |pool.group1|) ==>
                pool.group0 == old(pool.group0) + [Slot(addr, connection, Param(Waiting, {}))] &&
                pool.group1 == old(pool.group1)
      ensures old(pool.Balanced()) ==> pool.Balanced()
      ensures connection.RemoteAddr() == addr && connection.request == request && connection.transport == transport
      ensures transport.closed == old(transport.closed)
      ensures var reply := Reply(packages, preds, responders, request);
              (reply.Err? ==> err == Some(reply.error) && transport.sent == old(transport.sent)) &&
              (reply.Ok? ==>
                 err.None? &&
                 transport.sent == old(transport.sent) + (if old(transport.closed) then [] else Outgoing(reply.value, addr)))
    {
      connection := pool.SaveConnection(request, addr, transport, now);
      err := Handle();
    }

    /** `__handle`: classify the current request and run the package's
        responder, which sends its payloads to the connection in order. An
        unrecognised request gets no answer. */
    method Handle() returns (err: Option<Error>)
      requires connection != null
      modifies connection.transport
      ensures var reply := Reply(packages, preds, responders, connection.request);
              var t := connection.transport;
              t.closed == old(t.closed) &&
              (reply.Err? ==> err == Some(reply.error) && t.sent == old(t.sent)) &&
              (reply.Ok? ==>
                 err.None? &&
                 t.sent == old(t.sent) + (if old(t.closed) then [] else Outgoing(reply.value, connection.RemoteAddr())))
    {
      var reply := Reply(packages, preds, responders, connection.request);
      if reply.Err? {
        return Some(reply.error);
      }
      Respond(reply.value);
      return None;
    }

    /** The responder's sends: each payload to the current connection, in
        order. */
    method Respond(payloads: seq<seq<Byte>>)
      requires connection != null
      modifies connection.transport
      ensures var t := connection.transport;
              t.closed == old(t.closed) &&
              t.sent == old(t.sent) + (if old(t.closed) then [] else Outgoing(payloads, connection.RemoteAddr()))
    {
      var t := connection.transport;
      var i := 0;
      while i < |payloads|
        invariant 0 <= i <= |payloads|
        invariant connection.transport == t && t.closed == old(t.closed)
        invariant t.sent == old(t.sent) + (if old(t.closed) then [] else Outgoing(payloads[..i], connection.RemoteAddr()))
      {
        OutgoingSnoc(payloads, i, connection.RemoteAddr());
        connection.Send(payloads[i]);
        i := i + 1;
      }
      assert payloads[..i] == payloads;
    }
  }

  // ---------------------------------------------------------------------
  // make_message

  /** The builder `get_<name>` of a field. A field named by a tuple of
      markers formats to a name no handler carries. */
  function BuilderName(f: FieldSpec): Option<string>
  {
    match f.name
    case Single(n) => Some("get_" + n)
    case Multi(_) => None
  }

  /** One field's bytes: its builder applied to the keyword arguments. */
  function Part<A>(f: FieldSpec, builders: map<string, A -> seq<Byte>>, kwargs: A): Result<seq<Byte>>
  {
    match BuilderName(f)
    case None => Err(NoBuilder)
    case Some(b) => if b in builders then Ok(builders[b](kwargs)) else Err(NoBuilder)
  }

  /** What `make_message` accumulates over a structure list: the builders'
      outputs joined in field order; the first field without a builder is
      the error. */
  function Message<A>(fields: seq<FieldSpec>, builders: map<string, A -> seq<Byte>>, kwargs: A): Result<seq<Byte>>
  {
    if fields == [] then Ok([])
    else
      match Message(fields[..|fields| - 1], builders, kwargs)
      case Err(e) => Err(e)
      case Ok(m) =>
        match Part(fields[|fields| - 1], builders, kwargs)
        case Err(e) => Err(e)
        case Ok(b) => Ok(m + b)
  }

  /** `make_message`: the package is looked up by `kwargs['package_name']`
      (given here as `packageName`), then its structure is walked, each
      field's builder output appended to the message. */
  method MakeMessage<A>(packages: seq<Package>, builders: map<string, A -> seq<Byte>>, packageName: string, kwargs: A)
    returns (r: Result<seq<Byte>>)
    ensures FindProtocolPackage(packages, packageName).Err? ==> r == Err(NoPackage(packageName))
    ensures FindProtocolPackage(packages, packageName).Ok? ==>
              var p := FindProtocolPackage(packages, packageName).value;
              (p.structure.None? ==> r == Err(NoStructure)) &&
              (p.structure.Some? ==> r == Message(p.structure.value, builders, kwargs))
  {
    var found := FindProtocolPackage(packages, packageName);
    if found.Err? {
      return Err(found.error);
    }
    if found.value.structure.None? {
      return Err(NoStructure);
    }
    var fields := found.value.structure.value;
    var message: seq<Byte> := [];
    var i := 0;
    while i < |fields|
      invariant 0 <= i <= |fields|
      invariant Message(fields[..i], builders, kwargs) == Ok(message)
    {
      assert fields[..i + 1][..i] == fields[..i];
      var part := Part(fields[i], builders, kwargs);
      if part.Err? {
        MessageErrorSticks(fields, builders, kwargs, i + 1);
        assert fields[..i + 1][i] == fields[i];
        return Err(part.error);
      }
      message := message + part.value;
      i := i + 1;
    }
    assert fields[..i] == fields;
    return Ok(message);
  }

  /** Once a prefix of the structure fails, so does the whole. */
  lemma {:induction false} MessageErrorSticks<A>(fields: seq<FieldSpec>, builders: map<string, A -> seq<Byte>>, kwargs: A, n: nat)
    requires n <= |fields| && Message(fields[..n], builders, kwargs).Err?
    ensures Message(fields, builders, kwargs) == Message(fields[..n], builders, kwargs)
  {
    if n < |fields| {
      var k := |fields| - 1;
      assert fields[..k][..n] == fields[..n];
      MessageErrorSticks(fields[..k], builders, kwargs, n);
      assert fields[..k] == fields[..|fields| - 1];
    } else {
      assert fields[..n] == fields;
    }
  }

  /** The message is the concatenation of every field's builder output, in
      structure order, and it exists exactly when every field has a builder. */
  lemma {:induction false} MessageIsConcat<A>(fields: seq<FieldSpec>, builders: map<string, A -> seq<Byte>>, kwargs: A)
    ensures Message(fields, builders, kwargs).Ok? <==> forall i :: 0 <= i < |fields| ==> Part(fields[i], builders, kwargs).Ok?
    ensures Message(fields, builders, kwargs).Ok? ==>
              Message(fields, builders, kwargs).value ==
              Unpack.Concat(seq(|fields|, i requires 0 <= i < |fields| => Part(fields[i], builders, kwargs).value))
  {
    if fields != [] {
      var k := |fields| - 1;
      MessageIsConcat(fields[..k], builders, kwargs);
      assert forall i :: 0 <= i < k ==> fields[..k][i] == fields[i];
      if Message(fields, builders, kwargs).Ok? {
        var parts := seq(|fields|, i requires 0 <= i < |fields| => Part(fields[i], builders, kwargs).value);
        var front := seq(k, i requires 0 <= i < k => Part(fields[..k][i], builders, kwargs).value);
        assert parts[..k] == front;
      }
    }
  }

  /** Building then parsing: when every builder yields exactly its field's
      declared length and no field is typed, unpacking the message gives back
      each builder's output under its field's name. */
  lemma MessageUnpackRoundTrip<A>(fields: seq<FieldSpec>, builders: map<string, A -> seq<Byte>>, kwargs: A,
                                  markers: seq<MarkerSpec>)
    requires forall i :: 0 <= i < |fields| ==> fields[i].tag.None? && Part(fields[i], builders, kwargs).Ok? &&
                                                |Part(fields[i], builders, kwargs).value| == fields[i].length
    ensures Message(fields, builders, kwargs).Ok?
    ensures var parts := seq(|fields|, i requires 0 <= i < |fields| => Part(fields[i], builders, kwargs).value);
            Unpack.DecodeFields(fields, markers, Message(fields, builders, kwargs).value, |fields|) ==
            Ok(Unpack.RawEntries(fields, parts, |fields|))
  {
    MessageIsConcat(fields, builders, kwargs);
    var parts := seq(|fields|, i requires 0 <= i < |fields| => Part(fields[i], builders, kwargs).value);
    Unpack.UnpackRawRoundTrip(fields, markers, parts, |fields|);
  }

  // ---------------------------------------------------------------------
  // The built-in ping

  /** `define_swarm_ping`: an empty request is a ping. (It is declared with
      no argument besides the handler, while `__define_request` calls every
      predicate with the package, a TypeError; the package argument is
      meant to be accepted and ignored.) */
  function DefineSwarmPing(p: Package, request: seq<Byte>): bool
  {
    request == []
  }

  /** `do_swarm_ping`: one empty datagram back. */
  function DoSwarmPing(p: Package, request: seq<Byte>): seq<seq<Byte>>
  {
    [[]]
  }

  const PingPackage := Package("swarm_ping", Some([]), Names(["define_swarm_ping"]), Some("do_swarm_ping"))

  /** With the ping package first in the protocol, an empty request is
      answered with exactly one empty payload, whatever follows; with the
      ping package alone, any other request is not recognised and gets no
      answer. */
  lemma PingExchange(rest: seq<Package>, preds: map<string, Predicate>, responders: map<string, Responder>,
                     request: seq<Byte>)
    requires "define_swarm_ping" in preds && preds["define_swarm_ping"] == DefineSwarmPing
    requires "do_swarm_ping" in responders && responders["do_swarm_ping"] == DoSwarmPing
    ensures request == [] ==> Reply([PingPackage] + rest, preds, responders, request) == Ok([[]])
    ensures request != [] ==> Reply([PingPackage], preds, responders, request) == Ok([])
  {
    assert DefineFunctions(PingPackage) == ["define_swarm_ping"];
    assert ([PingPackage] + rest)[0] == PingPackage;
    if request != [] {
      assert DefineRequest(PingPackage, preds, request) == Ok(false);
      assert [PingPackage][1..] == [];
    }
  }

  /** A bare `define` name behaves as the one-element list holding it. */
  lemma OneNameIsSingleton(p: Package, preds: map<string, Predicate>, request: seq<Byte>)
    requires p.define.OneName?
    ensures var n := p.define.name;
            DefineRequest(p, preds, request) == if n in preds then Ok(preds[n](p, request)) else Err(NoPredicate(n))
  {
    assert DefineFunctions(p)[1..] == [];
  }
}
