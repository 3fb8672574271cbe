/** Peers and the peer pool (`Connection`, `NetPool`). A connection is known
    by its remote address; the pool keeps two groups, each a table from
    connection to its record `{state, groups}`, in insertion order. The
    clock is the `now` parameter and the UDP transport is a log of sent
    datagrams with a closed flag. */
module Connections {
  import opened Wrappers
  import opened Codec
  import opened Address

  datatype Datagram = Datagram(payload: seq<Byte>, to: Addr)

  /** The datagram transport a connection answers through. */
  class Transport {
    var sent: seq<Datagram>
    var closed: bool

    constructor ()
      ensures sent == [] && !closed
    {
      sent := [];
      closed := false;
    }

    /** `sendto`: a closed transport drops the datagram. */
    method SendTo(payload: seq<Byte>, to: Addr)
      modifies this
      ensures closed == old(closed)
      ensures sent == if old(closed) then old(sent) else old(sent) + [Datagram(payload, to)]
    {
      if !closed {
        sent := sent + [Datagram(payload, to)];
      }
    }

    /** `close`. */
    method Close()
      modifies this
      ensures closed && sent == old(sent)
    {
      closed := true;
    }
  }

  class Connection {
    var remoteHost: string
    var remotePort: int
    var request: seq<Byte>
    var transport: Transport
    var lastResponse: int

    /** `Connection()` (which stamps `last_response` with the clock)
        followed by `datagram_received(request, remote_addr, transport)`. */
    constructor Received(request: seq<Byte>, addr: Addr, transport: Transport, now: int)
      ensures RemoteAddr() == addr && this.request == request
      ensures this.transport == transport && lastResponse == now
    {
      remoteHost, remotePort := addr.0, addr.1;
      this.request := request;
      this.transport := transport;
      lastResponse := now;
    }

    /** `get_remote_addr`. */
    function RemoteAddr(): Addr
      reads this
    {
      (remoteHost, remotePort)
    }

    /** `__eq__`: the same remote host and port; request, transport and
        timestamps play no part. `Connection` defines no `__hash__`, which
        makes it unusable as a dict key in Python 3; the pool below keys its
        tables by this address, which is what the code intends. */
    predicate Equals(other: Connection)
      reads this, other
      ensures Equals(other) <==> RemoteAddr() == other.RemoteAddr()
    {
      remoteHost == other.remoteHost && remotePort == other.remotePort
    }

    /** `is_time_out`: silent for longer than the timeout. */
    predicate IsTimeOut(now: int, timeout: int): (r: bool)
      reads this
      ensures r && timeout >= 0 ==> now > lastResponse
    {
      now - lastResponse > timeout
    }

    /** Without a new response, a timed-out connection stays timed out. */
    lemma TimeOutLasts(now: int, later: int, timeout: int)
      requires IsTimeOut(now, timeout) && now <= later
      ensures IsTimeOut(later, timeout)
    {
    }

    /** `is_alive`. */
    predicate IsAlive()
      reads this, transport
    {
      !transport.closed
    }

    /** `set_last_response`. */
    method SetLastResponse(now: int)
      modifies this
      ensures lastResponse == now && !IsTimeOut(now, 0)
      ensures RemoteAddr() == old(RemoteAddr()) && request == old(request) && transport == old(transport)
    {
      lastResponse := now;
    }

    /** `set_transport`. */
    method SetTransport(transport: Transport)
      modifies this
      ensures this.transport == transport
      ensures RemoteAddr() == old(RemoteAddr()) && request == old(request) && lastResponse == old(lastResponse)
    {
      this.transport := transport;
    }

    /** `set_remote_addr` (`set_remote_host`, `set_remote_port`). */
    method SetRemoteAddr(addr: Addr)
      modifies this
      ensures RemoteAddr() == addr
      ensures request == old(request) && transport == old(transport) && lastResponse == old(lastResponse)
    {
      remoteHost, remotePort := addr.0, addr.1;
    }

    /** `set_request`. */
    method SetRequest(request: seq<Byte>)
      modifies this
      ensures this.request == request
      ensures RemoteAddr() == old(RemoteAddr()) && transport == old(transport) && lastResponse == old(lastResponse)
    {
      this.request := request;
    }

    /** `datagram_received`: address, request and transport replaced; the
        timestamp is kept. */
    method DatagramReceived(request: seq<Byte>, addr: Addr, transport: Transport)
      modifies this
      ensures RemoteAddr() == addr && this.request == request && this.transport == transport
      ensures lastResponse == old(lastResponse)
    {
      SetRemoteAddr(addr);
      SetRequest(request);
      SetTransport(transport);
    }

    /** `dump_addr`: the 6-byte `>BBBBH` form of the remote address. */
    function DumpAddr(): (r: Result<seq<Byte>>)
      reads this
      ensures r.Ok? <==> ParseHost(remoteHost).Ok? && 0 <= remotePort < 65536
      ensures r.Ok? ==> |r.value| == PackedAddrLength && LoadAddr(r.value).Ok?
      ensures r.Ok? ==> r.value[..4] == ParseHost(remoteHost).value &&
                        r.value[4] == remotePort / 256 && r.value[5] == remotePort % 256
    {
      var r := PackAddr(RemoteAddr());
      if r.Ok? then PackAddrLayout(RemoteAddr()); r else r
    }

    /** `send`: one datagram to the remote address. */
    method Send(response: seq<Byte>)
      modifies transport
      ensures transport.closed == old(transport.closed)
      ensures transport.sent == if old(transport.closed) then old(transport.sent)
                                else old(transport.sent) + [Datagram(response, RemoteAddr())]
    {
      transport.SendTo(response, (remoteHost, remotePort));
    }

    /** `shutdown`. */
    method Shutdown()
      modifies transport
      ensures transport.closed && transport.sent == old(transport.sent)
    {
      transport.Close();
    }
  }

  /** A connection's record: its `state` and the set of group indices it
      has been linked with. */
  datatype Param = Param(state: string, groups: set<nat>)

  /** One table entry: the address the connection was stored under, the
      connection and its record. */
  datatype Slot = Slot(key: Addr, conn: Connection, param: Param)

  const Waiting := "waiting"

  predicate KeysDistinct(slots: seq<Slot>)
  {
    forall i, j :: 0 <= i < j < |slots| ==> slots[i].key != slots[j].key
  }

  predicate KeysDisjoint(a: seq<Slot>, b: seq<Slot>)
  {
    forall i, j :: 0 <= i < |a| && 0 <= j < |b| ==> a[i].key != b[j].key
  }

  predicate GroupIndices(slots: seq<Slot>)
  {
    forall i :: 0 <= i < |slots| ==> slots[i].param.groups <= {0, 1}
  }

  /** The table lookup: the position of the entry stored under `key`. */
  function Find(slots: seq<Slot>, key: Addr): (r: Option<nat>)
    ensures r.Some? ==> r.value < |slots| && slots[r.value].key == key &&
                        forall j :: 0 <= j < r.value ==> slots[j].key != key
    ensures r.None? <==> forall i :: 0 <= i < |slots| ==> slots[i].key != key
  {
    if slots == [] then None
    else if slots[0].key == key then Some(0)
    else
      match Find(slots[1..], key)
      case None =>
        assert forall i :: 0 < i < |slots| ==> slots[i] == slots[1..][i - 1];
        None
      case Some(i) => Some(i + 1)
  }

  /** `param['state'] = state` on the entry stored under `key`. */
  function SetState(slots: seq<Slot>, key: Addr, state: string): (r: seq<Slot>)
    ensures |r| == |slots|
    ensures forall i :: 0 <= i < |slots| ==> r[i].key == slots[i].key && r[i].conn == slots[i].conn &&
                                             r[i].param.groups == slots[i].param.groups
    ensures forall i :: 0 <= i < |slots| ==> r[i].param.state == if slots[i].key == key then state else slots[i].param.state
  {
    seq(|slots|, i requires 0 <= i < |slots| =>
      if slots[i].key == key then slots[i].(param := slots[i].param.(state := state)) else slots[i])
  }

  /** `param['groups'].add(index)` on the entry stored under `key`. */
  function AddGroup(slots: seq<Slot>, key: Addr, index: nat): (r: seq<Slot>)
    ensures |r| == |slots|
    ensures forall i :: 0 <= i < |slots| ==> r[i].key == slots[i].key && r[i].conn == slots[i].conn &&
                                             r[i].param.state == slots[i].param.state
    ensures forall i :: 0 <= i < |slots| ==>
              r[i].param.groups == if slots[i].key == key then slots[i].param.groups + {index} else slots[i].param.groups
  {
    seq(|slots|, i requires 0 <= i < |slots| =>
      if slots[i].key == key then slots[i].(param := slots[i].param.(groups := slots[i].param.groups + {index})) else slots[i])
  }

  /** `__find_waiting_connection`: the first connection in table order whose
      state is `waiting`. */
  function FirstWaiting(slots: seq<Slot>): (r: Option<Connection>)
    ensures r.Some? ==> exists i :: 0 <= i < |slots| && slots[i].conn == r.value && slots[i].param.state == Waiting &&
                                   forall j :: 0 <= j < i ==> slots[j].param.state != Waiting
    ensures r.None? <==> forall i :: 0 <= i < |slots| ==> slots[i].param.state != Waiting
  {
    if slots == [] then None
    else if slots[0].param.state == Waiting then Some(slots[0].conn)
    else
      var r := FirstWaiting(slots[1..]);
      assert forall i :: 0 < i < |slots| ==> slots[i] == slots[1..][i - 1];
      r
  }

  function Conns(slots: seq<Slot>): set<Connection>
  {
    set i | 0 <= i < |slots| :: slots[i].conn
  }

  function Transports(slots: seq<Slot>): set<Transport>
    reads Conns(slots)
  {
    set i | 0 <= i < |slots| :: slots[i].conn.transport
  }

  function TimedOutTransports(slots: seq<Slot>, now: int, timeout: int): set<Transport>
    reads Conns(slots)
  {
    set i | 0 <= i < |slots| && slots[i].conn.IsTimeOut(now, timeout) :: slots[i].conn.transport
  }

  /** Whether each entry's connection has timed out. */
  function TimeOuts(slots: seq<Slot>, now: int, timeout: int): (r: seq<bool>)
    reads Conns(slots)
    ensures |r| == |slots|
    ensures forall j :: 0 <= j < |slots| ==> r[j] == slots[j].conn.IsTimeOut(now, timeout)
  {
    seq(|slots|, j requires 0 <= j < |slots| reads Conns(slots) => slots[j].conn.IsTimeOut(now, timeout))
  }

  /** Each entry's transport. */
  function TransportSeq(slots: seq<Slot>): (r: seq<Transport>)
    reads Conns(slots)
    ensures |r| == |slots|
    ensures forall j :: 0 <= j < |slots| ==> r[j] == slots[j].conn.transport
  {
    seq(|slots|, j requires 0 <= j < |slots| reads Conns(slots) => slots[j].conn.transport)
  }

  /** The entries whose flag is down, in their order. */
  function Keep(slots: seq<Slot>, out: seq<bool>): seq<Slot>
    requires |out| == |slots|
  {
    if slots == [] then []
    else
      var k := |slots| - 1;
      Keep(slots[..k], out[..k]) + (if out[k] then [] else [slots[k]])
  }

  /** `Keep` is a filter: every kept entry is one whose flag is down, and
      every such entry is kept. */
  lemma {:induction false} KeepMeaning(slots: seq<Slot>, out: seq<bool>)
    requires |out| == |slots|
    ensures forall s :: s in Keep(slots, out) ==> exists j :: 0 <= j < |slots| && slots[j] == s && !out[j]
    ensures forall j :: 0 <= j < |slots| && !out[j] ==> slots[j] in Keep(slots, out)
    ensures |Keep(slots, out)| <= |slots|
  {
    if slots != [] {
      var k := |slots| - 1;
      KeepMeaning(slots[..k], out[..k]);
      assert forall j :: 0 <= j < k ==> slots[..k][j] == slots[j] && out[..k][j] == out[j];
    }
  }

  /** The positions whose flag is down, in increasing order. */
  function Kept(out: seq<bool>): seq<nat>
  {
    if out == [] then []
    else
      var k := |out| - 1;
      Kept(out[..k]) + (if out[k] then [] else [k])
  }

  /** `Kept` lists positions whose flag is down, in increasing order. */
  lemma {:induction false} KeptIncreasing(out: seq<bool>)
    ensures forall a :: 0 <= a < |Kept(out)| ==> Kept(out)[a] < |out| && !out[Kept(out)[a]]
    ensures forall a, b :: 0 <= a < b < |Kept(out)| ==> Kept(out)[a] < Kept(out)[b]
  {
    if out != [] {
      var k := |out| - 1;
      var prev, last := Kept(out[..k]), if out[k] then [] else [k];
      assert Kept(out) == prev + last;
      KeptIncreasing(out[..k]);
      assert forall a :: 0 <= a < |prev| ==> prev[a] < k && out[..k][prev[a]] == out[prev[a]];
    }
  }

  /** Every position whose flag is down is in `Kept`. */
  lemma {:induction false} KeptComplete(out: seq<bool>)
    ensures forall j :: 0 <= j < |out| && !out[j] ==> j in Kept(out)
  {
    if out != [] {
      var k := |out| - 1;
      var prev, last := Kept(out[..k]), if out[k] then [] else [k];
      assert Kept(out) == prev + last;
      KeptComplete(out[..k]);
      forall j | 0 <= j < |out| && !out[j]
        ensures j in Kept(out)
      {
        if j < k {
          assert out[..k][j] == out[j];
          assert j in prev;
        } else {
          assert last == [j];
        }
      }
    }
  }

  /** `Kept` lists exactly the positions whose flag is down, each once, in
      increasing order. */
  lemma KeptPositions(out: seq<bool>)
    ensures forall a :: 0 <= a < |Kept(out)| ==> Kept(out)[a] < |out| && !out[Kept(out)[a]]
    ensures forall a, b :: 0 <= a < b < |Kept(out)| ==> Kept(out)[a] < Kept(out)[b]
    ensures forall j :: 0 <= j < |out| && !out[j] ==> j in Kept(out)
  {
    KeptIncreasing(out);
    KeptComplete(out);
  }

  /** The kept entries, in their order, are the entries at the positions
      `Kept` lists: `Keep` takes the entries whose flag is down and keeps
      their order. */
  lemma {:induction false} KeepOrder(slots: seq<Slot>, out: seq<bool>)
    requires |out| == |slots|
    ensures |Keep(slots, out)| == |Kept(out)|
    ensures forall a :: 0 <= a < |Kept(out)| ==> Kept(out)[a] < |slots| && Keep(slots, out)[a] == slots[Kept(out)[a]]
  {
    KeptPositions(out);
    if slots != [] {
      var k := |slots| - 1;
      KeepOrder(slots[..k], out[..k]);
      KeptPositions(out[..k]);
    }
  }

  /** What `__clean_groups` keeps: the entries whose connection has not timed
      out, in their order. */
  function Alive(slots: seq<Slot>, now: int, timeout: int): seq<Slot>
    reads Conns(slots)
  {
    Keep(slots, TimeOuts(slots, now, timeout))
  }

  /** The cleaned list holds exactly the entries whose connection has not
      timed out. */
  lemma AliveMeaning(slots: seq<Slot>, now: int, timeout: int)
    ensures forall s :: s in Alive(slots, now, timeout) ==> s in slots && !s.conn.IsTimeOut(now, timeout)
    ensures forall i :: 0 <= i < |slots| && !slots[i].conn.IsTimeOut(now, timeout) ==> slots[i] in Alive(slots, now, timeout)
  {
    KeepMeaning(slots, TimeOuts(slots, now, timeout));
  }

  class NetPool {
    var group0: seq<Slot>
    var group1: seq<Slot>
    /** `settings.peer_timeout_seconds` and `settings.peer_connections`. */
    const peerTimeout: int
    const peerConnections: int

    /** Each connection is stored once, in one group, and links only to
        groups 0 and 1. */
    ghost predicate Valid()
      reads this
    {
      KeysDistinct(group0) && KeysDistinct(group1) && KeysDisjoint(group0, group1) &&
      GroupIndices(group0) && GroupIndices(group1)
    }

    /** The two groups differ in size by at most one. */
    predicate Balanced()
      reads this
    {
      -1 <= |group0| - |group1| <= 1
    }

    constructor (peerTimeout: int, peerConnections: int)
      ensures Valid() && Balanced() && group0 == [] && group1 == []
      ensures this.peerTimeout == peerTimeout && this.peerConnections == peerConnections
    {
      group0, group1 := [], [];
      this.peerTimeout, this.peerConnections := peerTimeout, peerConnections;
    }

    /** `__get_group_by_index`. */
    function Group(index: nat): seq<Slot>
      requires index < 2
      reads this
    {
      if index == 0 then group0 else group1
    }

    /** `__get_connection_group_index`: 0, 1 or nothing. */
    function GroupIndex(key: Addr): (r: Option<nat>)
      reads this
      ensures r.Some? <==> Find(group0, key).Some? || Find(group1, key).Some?
      ensures r.Some? ==> r.value < 2 && Find(Group(r.value), key).Some?
    {
      if Find(group0, key).Some? then Some(0)
      else if Find(group1, key).Some? then Some(1)
      else None
    }

    /** `__get_connection_param`: the record from group 0, else from group 1. */
    function ParamOf(key: Addr): (r: Option<Param>)
      reads this
      ensures r.Some? <==> GroupIndex(key).Some?
    {
      match Find(group0, key)
      case Some(i) => Some(group0[i].param)
      case None =>
        match Find(group1, key)
        case Some(i) => Some(group1[i].param)
        case None => None
    }

    /** `save_connection`: a fresh connection for the datagram; an address
        already in the pool only has its state set back to `waiting` (the
        table keeps its stored connection, its groups and its place), a new
        one goes into group 1 when group 0 is the larger, else into group 0,
        with state `waiting` and no groups. A known address thus keeps its
        first connection and that connection's `last_response`, so the fresh
        connection's stamp is lost. The membership test is written
        `self.self.…`; the pool's own lookup is what is meant. */
    method SaveConnection(request: seq<Byte>, addr: Addr, transport: Transport, now: int) returns (c: Connection)
      requires Valid()
      modifies this
      ensures Valid() && fresh(c) && c.RemoteAddr() == addr && c.request == request && c.transport == transport
      ensures GroupIndex(addr).Some?
      ensures old(GroupIndex(addr)).Some? ==>
                group0 == SetState(old(group0), addr, Waiting) && group1 == SetState(old(group1), addr, Waiting)
      ensures old(GroupIndex(addr)).None? && old(|group0| > |group1|) ==>
                group0 == old(group0) && group1 == old(group1) + [Slot(addr, c, Param(Waiting, {}))]
      ensures old(GroupIndex(addr)).None? && old(|group0| <= |group1|) ==>
                group0 == old(group0) + [Slot(addr, c, Param(Waiting, {}))] && group1 == old(group1)
      ensures old(Balanced()) ==> Balanced()
    {
      c := new Connection.Received(request, addr, transport, now);
      if GroupIndex(addr).Some? {
        ghost var g0, g1 := group0, group1;
        group0, group1 := SetState(group0, addr, Waiting), SetState(group1, addr, Waiting);
        assert Find(g0, addr).Some? ==> group0[Find(g0, addr).value].key == addr;
        assert Find(g1, addr).Some? ==> group1[Find(g1, addr).value].key == addr;
        return;
      }
      var slot := Slot(addr, c, Param(Waiting, {}));
      if |group0| > |group1| {
        group1 := group1 + [slot];
        assert group1[|group1| - 1].key == addr;
      } else {
        group0 := group0 + [slot];
        assert group0[|group0| - 1].key == addr;
      }
    }

    /** `update_state`: the record's state is overwritten, nothing else. An
        address not in the pool is an error (the record is None). */
    method UpdateState(c: Connection, state: string) returns (err: Option<Error>)
      requires Valid()
      modifies this
      ensures Valid()
      ensures err.None? <==> old(GroupIndex(c.RemoteAddr())).Some?
      ensures err.Some? ==> group0 == old(group0) && group1 == old(group1)
      ensures err.None? ==> group0 == SetState(old(group0), c.RemoteAddr(), state) &&
                            group1 == SetState(old(group1), c.RemoteAddr(), state)
    {
      var key := c.RemoteAddr();
      if ParamOf(key).None? {
        return Some(NotInPool);
      }
      group0, group1 := SetState(group0, key, state), SetState(group1, key, state);
      return None;
    }

    /** `update_neighbour_group`: nothing when either side is None; otherwise
        each connection's record gains the index of the group it sits in. The
        first connection's record is changed before the second is looked up,
        so a second connection missing from the pool leaves the first
        updated. The index lookups are written `self.self.…`; the pool's own
        lookup is what is meant. */
    method UpdateNeighbourGroup(a: Option<Connection>, b: Option<Connection>) returns (err: Option<Error>)
      requires Valid()
      modifies this
      ensures Valid()
      ensures a.None? || b.None? ==> err.None? && group0 == old(group0) && group1 == old(group1)
      ensures a.Some? && b.Some? && old(GroupIndex(a.value.RemoteAddr())).None? ==>
                err == Some(NotInPool) && group0 == old(group0) && group1 == old(group1)
      ensures a.Some? && b.Some? && old(GroupIndex(a.value.RemoteAddr())).Some? ==>
                var ka, ia := a.value.RemoteAddr(), old(GroupIndex(a.value.RemoteAddr())).value;
                var kb, ib := b.value.RemoteAddr(), old(GroupIndex(b.value.RemoteAddr()));
                var g0, g1 := AddGroup(old(group0), ka, ia), AddGroup(old(group1), ka, ia);
                (ib.None? ==> err == Some(NotInPool) && group0 == g0 && group1 == g1) &&
                (ib.Some? ==> err.None? && group0 == AddGroup(g0, kb, ib.value) && group1 == AddGroup(g1, kb, ib.value))
    {
      if a.None? || b.None? {
        return None;
      }
      var ka, kb := a.value.RemoteAddr(), b.value.RemoteAddr();
      var ia, ib := GroupIndex(ka), GroupIndex(kb);
      if ia.None? {
        return Some(NotInPool);
      }
      group0, group1 := AddGroup(group0, ka, ia.value), AddGroup(group1, ka, ia.value);
      if ib.None? {
        return Some(NotInPool);
      }
      group0, group1 := AddGroup(group0, kb, ib.value), AddGroup(group1, kb, ib.value);
      return None;
    }

    /** `__find_waiting_connection`. */
    method FindWaitingConnection(slots: seq<Slot>) returns (r: Option<Connection>)
      ensures r == FirstWaiting(slots)
    {
      var i := 0;
      while i < |slots|
        invariant 0 <= i <= |slots|
        invariant FirstWaiting(slots) == FirstWaiting(slots[i..])
      {
        if slots[i].param.state == Waiting {
          return Some(slots[i].conn);
        }
        assert slots[i..][1..] == slots[i + 1..];
        i := i + 1;
      }
      return None;
    }

    /** `__clean_groups`: every connection timed out at the call is shut
        down and left out; the others are kept in order. */
    method CleanGroups(slots: seq<Slot>, now: int) returns (alive: seq<Slot>)
      modifies Transports(slots)
      ensures alive == old(Alive(slots, now, peerTimeout))
      ensures forall t :: t in old(TimedOutTransports(slots, now, peerTimeout)) ==> t.closed
      ensures forall t :: t in old(Transports(slots)) ==>
                t.sent == old(t.sent) && (t.closed == old(t.closed) || t in old(TimedOutTransports(slots, now, peerTimeout)))
    {
      ghost var out := TimeOuts(slots, now, peerTimeout);
      ghost var tr := TransportSeq(slots);
      ghost var ts := Transports(slots);
      alive := [];
      var i := 0;
      while i < |slots|
        invariant 0 <= i <= |slots|
        invariant alive == Keep(slots[..i], out[..i])
        invariant forall j :: 0 <= j < i && out[j] ==> tr[j].closed
        invariant forall t :: t in ts ==> t.sent == old(t.sent)
        invariant forall t :: t in ts && t.closed != old(t.closed) ==> exists j :: 0 <= j < i && out[j] && tr[j] == t
      {
        var c := slots[i].conn;
        assert c.transport == tr[i] && c.IsTimeOut(now, peerTimeout) == out[i];
        assert slots[..i + 1][..i] == slots[..i] && out[..i + 1][..i] == out[..i];
        if c.IsTimeOut(now, peerTimeout) {
          assert tr[i] in ts;
          c.Shutdown();
        } else {
          alive := alive + [slots[i]];
        }
        i := i + 1;
      }
      assert slots[..i] == slots && out[..i] == out;
      forall t | t in ts && t.closed != old(t.closed)
        ensures t in old(TimedOutTransports(slots, now, peerTimeout))
      {
        var j :| 0 <= j < |slots| && out[j] && tr[j] == t;
      }
    }

    /** `get_all_connections`: both groups joined (group 0 first; the keys
        are disjoint, so the join is the concatenation), then cleaned. The
        cleaning keeps bare connections in a list, which the waiting-search
        then walks with `.items()`; each kept entry carries its record here,
        which is what that search needs. */
    method AllConnections(now: int) returns (alive: seq<Slot>)
      modifies Transports(group0 + group1)
      ensures alive == old(Alive(group0 + group1, now, peerTimeout))
      ensures forall t :: t in old(Transports(group0 + group1)) ==>
                t.sent == old(t.sent) && t.closed == (old(t.closed) || t in old(TimedOutTransports(group0 + group1, now, peerTimeout)))
    {
      alive := CleanGroups(group0 + group1, now);
    }

    /** `find_neighbour`: a connection linked with exactly one group looks
        for a waiting connection in the other group; any other connection
        looks through the whole pool, cleaned of timed-out connections. An
        address not in the pool is an error (its record is None). */
    method FindNeighbour(c: Connection, now: int) returns (r: Result<Option<Connection>>)
      requires Valid()
      modifies Transports(group0 + group1)
      ensures r.Err? <==> ParamOf(c.RemoteAddr()).None?
      ensures ParamOf(c.RemoteAddr()).Some? ==>
                var groups := ParamOf(c.RemoteAddr()).value.groups;
                (|groups| != 1 ==> r == Ok(FirstWaiting(old(Alive(group0 + group1, now, peerTimeout))))) &&
                (groups == {0} ==> r == Ok(FirstWaiting(group1))) &&
                (groups == {1} ==> r == Ok(FirstWaiting(group0)))
      ensures forall t :: t in old(Transports(group0 + group1)) ==> t.sent == old(t.sent)
      ensures forall t :: t in old(Transports(group0 + group1)) ==>
                (t.closed <==> old(t.closed) ||
                               (ParamOf(c.RemoteAddr()).Some? && |ParamOf(c.RemoteAddr()).value.groups| != 1 &&
                                t in old(TimedOutTransports(group0 + group1, now, peerTimeout))))
    {
      var param := ParamOf(c.RemoteAddr());
      if param.None? {
        return Err(NotInPool);
      }
      var groups := param.value.groups;
      var connections;
      if |groups| != 1 {
        connections := AllConnections(now);
      } else {
        assert groups <= {0, 1} by {
          var key := c.RemoteAddr();
          if Find(group0, key).Some? {
            assert group0[Find(group0, key).value].param == param.value;
          } else {
            assert group1[Find(group1, key).value].param == param.value;
          }
        }
        // the only index in the set, then `binary_not` of it
        var index := if 0 in groups then 0 else 1;
        assert index in groups by {
          assert groups != {};
        }
        assert groups == {index} by {
          assert |groups - {index}| == 0;
        }
        connections := Group(1 - index);
      }
      var n := FindWaitingConnection(connections);
      return Ok(n);
    }

    /** `can_be_disconnected`: the connection's group holds more than
        `peer_connections` connections and the connection is linked with
        both groups (`len(self.group_0, self.group_1)` is meant as 2). An
        address not in the pool is an error. */
    function CanBeDisconnected(c: Connection): (r: Result<bool>)
      reads this, c
      ensures r.Err? <==> GroupIndex(c.RemoteAddr()).None?
    {
      var key := c.RemoteAddr();
      match GroupIndex(key)
      case None => Err(NotInPool)
      case Some(index) =>
        var param := ParamOf(key).value;
        Ok(|Group(index)| > peerConnections && |param.groups| == 2)
    }

    /** In a valid pool, a connection may be dropped exactly when it is
        stored, its group is larger than `peer_connections` and it is linked
        with both groups. */
    lemma CanBeDisconnectedMeaning(c: Connection)
      requires Valid()
      ensures CanBeDisconnected(c) == Ok(true) <==>
                GroupIndex(c.RemoteAddr()).Some? &&
                |Group(GroupIndex(c.RemoteAddr()).value)| > peerConnections &&
                ParamOf(c.RemoteAddr()).value.groups == {0, 1}
    {
      var key := c.RemoteAddr();
      if GroupIndex(key).Some? {
        var groups := ParamOf(key).value.groups;
        assert groups <= {0, 1} by {
          if Find(group0, key).Some? {
            assert group0[Find(group0, key).value].param.groups == groups;
          } else {
            assert group1[Find(group1, key).value].param.groups == groups;
          }
        }
        if |groups| == 2 {
          assert |{0, 1} - groups| == 0;
        }
      }
    }

    /** `disconnect`: the connection's entry is removed from its group, the
        order of the others kept, and the connection is shut down. An
        address not in the pool is an error and changes nothing. */
    method Disconnect(c: Connection) returns (err: Option<Error>)
      requires Valid()
      modifies this, c.transport
      ensures Valid()
      ensures err.Some? <==> old(GroupIndex(c.RemoteAddr())).None?
      ensures err.Some? ==> group0 == old(group0) && group1 == old(group1) && c.transport.closed == old(c.transport.closed)
      ensures err.None? ==>
                c.transport.closed &&
                var key := c.RemoteAddr();
                (old(GroupIndex(key)) == Some(0) ==>
                   group0 == Remove(old(group0), Find(old(group0), key).value) && group1 == old(group1)) &&
                (old(GroupIndex(key)) == Some(1) ==>
                   group1 == Remove(old(group1), Find(old(group1), key).value) && group0 == old(group0))
      ensures c.transport.sent == old(c.transport.sent)
    {
      var key := c.RemoteAddr();
      var index := GroupIndex(key);
      if index.None? {
        return Some(NotInPool);
      }
      if index.value == 0 {
        RemoveKeepsDistinct(group0, Find(group0, key).value, group1);
        group0 := Remove(group0, Find(group0, key).value);
      } else {
        RemoveKeepsDistinctRight(group0, group1, Find(group1, key).value);
        group1 := Remove(group1, Find(group1, key).value);
      }
      c.Shutdown();
      return None;
    }

    /** `clean`: every stored connection is shut down and both groups are
        emptied. (The loop unpacks each key of the joined table as a pair; it
        is meant to walk the table's items.) */
    method Clean()
      requires Valid()
      modifies this, Transports(group0 + group1)
      ensures Valid() && group0 == [] && group1 == []
      ensures forall t :: t in old(Transports(group0 + group1)) ==> t.closed && t.sent == old(t.sent)
    {
      var all := group0 + group1;
      var i := 0;
      while i < |all|
        invariant 0 <= i <= |all|
        invariant forall t :: t in Transports(all) ==> t.sent == old(t.sent)
        invariant forall j :: 0 <= j < i ==> all[j].conn.transport.closed
      {
        all[i].conn.Shutdown();
        i := i + 1;
      }
      group0, group1 := [], [];
    }
  }

  /** `del group[connection]` on the entry at `k`. */
  function Remove(slots: seq<Slot>, k: nat): (r: seq<Slot>)
    requires k < |slots|
    ensures |r| == |slots| - 1
    ensures forall i :: 0 <= i < k ==> r[i] == slots[i]
    ensures forall i :: k <= i < |r| ==> r[i] == slots[i + 1]
  {
    slots[..k] + slots[k + 1..]
  }

  lemma RemoveKeepsDistinct(slots: seq<Slot>, k: nat, other: seq<Slot>)
    requires k < |slots| && KeysDistinct(slots) && KeysDisjoint(slots, other) && GroupIndices(slots)
    ensures KeysDistinct(Remove(slots, k)) && KeysDisjoint(Remove(slots, k), other) && GroupIndices(Remove(slots, k))
  {
    var r := Remove(slots, k);
    forall i | 0 <= i < |r| ensures exists j :: 0 <= j < |slots| && r[i] == slots[j] && (i < k ==> j == i) && (i >= k ==> j == i + 1) {
      if i < k { assert r[i] == slots[i]; } else { assert r[i] == slots[i + 1]; }
    }
  }

  lemma RemoveKeepsDistinctRight(other: seq<Slot>, slots: seq<Slot>, k: nat)
    requires k < |slots| && KeysDistinct(slots) && KeysDisjoint(other, slots) && GroupIndices(slots)
    ensures KeysDistinct(Remove(slots, k)) && KeysDisjoint(other, Remove(slots, k)) && GroupIndices(Remove(slots, k))
  {
    var r := Remove(slots, k);
    forall i | 0 <= i < |r| ensures exists j :: 0 <= j < |slots| && r[i] == slots[j] && (i < k ==> j == i) && (i >= k ==> j == i + 1) {
      if i < k { assert r[i] == slots[i]; } else { assert r[i] == slots[i + 1]; }
    }
  }
}
