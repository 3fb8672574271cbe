# hpn_server core, modelled in Dafny

hpn_server is a UDP rendezvous server for a peer-to-peer swarm. Its core
has three parts. This project models each of them and proves what it
promises.

- **The packet codec (`Parser`).** It reads a binary datagram against a
  JSON protocol description. A *package* has a `name`, a `structure` (an
  ordered list of fixed-length fields, each optionally typed `timestamp`,
  `bool_marker` or `markers`), a `define` list of predicate names and a
  `response` method name. Bit-field *markers* are cut out of a field with a
  mask and a right shift. *Contractions* are named fragments of `define`
  and `structure` lists, spliced in place of their names once, when the
  protocol is loaded. The codec also packs integers, timestamps, booleans
  and `(host, port)` addresses.
- **The connection pool (`Connection`, `NetPool`).** A connection is a
  remote address, the last request, a transport and a last-response time.
  The pool keeps connections in two groups, keyed by remote address, with
  a state and a neighbour-group set per connection. It adds new
  connections to the smaller group, drops timed-out ones (shutting their
  transports), pairs a connection with a waiting neighbour, and decides
  whether a connection may be disconnected.
- **The dispatcher (`Handler`).** On each datagram it records the
  connection in the pool. It then classifies the request as the first
  package whose predicates all hold and runs that package's responder.
  `make_message` builds an outgoing datagram from per-field builders. The
  built-in `swarm_ping` package answers an empty datagram with an empty
  one.

How the source's parts map to Dafny:

| Module | Form | Covers |
|---|---|---|
| `Wrappers` | datatypes | `Option`, `Result` and the error kinds that stand in for Python exceptions |
| `Codec` | functions | big-endian integers, booleans and timestamps |
| `Address` | functions | the dotted-quad text of a host and the 6-byte packed address |
| `Markers` | functions | the mask-and-shift bit fields |
| `Schema` | datatypes | packages, fields and contractions |
| `Unpack` | methods | the field-by-field `unpack` loop |
| `Contractions` | functions and methods | contraction splicing |
| `Recovery` | class | the protocol document rewritten in place |
| `Connections` | classes | `Transport`, `Connection` and `NetPool` |
| `Dispatch` | class | `Handler` |

Python's `&`, `<<` and `>>` on integers are written out on unbounded
naturals. `struct` formats become explicit widths: 1, 2, 4 and 8 bytes,
big-endian, unsigned.

The source has several slips that would raise at run time. Each one is
modelled as its evident intent and noted in a doc comment on the member
concerned:

- `self.self`
- `len(g0, g1)`, taken as the number of groups, 2
- `.items()` called on a list
- the undefined names `request_protocol`, `response_function_name` and
  `request_name`
- `in None` written for `is None`
- `isintance`
- `'.'.join(map, ...)`
- `define_swarm_ping` declared without the package argument that
  `__define_request` passes to every predicate
- `clean()` unpacking each key of the joined table as a pair
- `find_protocol_package` looping over the protocol dictionary itself,
  which yields its keys, where its package list is meant
- the handler passing `save_connection` the new connection alone, where
  the pool's method takes the request, the address and the transport

One behaviour is kept as written. When a known address sends again, the
pool keeps the connection it stored first, with that connection's
`last_response`. A peer that keeps talking therefore times out counted
from its first datagram (`Connections.NetPool.SaveConnection`).

## Model

| member | source | states |
|---|---|---|
| Codec.UnpackInt | src/package_parser.py:179-180 | decoding succeeds exactly for the struct widths 1, 2, 4 and 8, and the value is below 256^width |
| Codec.PackInt | src/package_parser.py:182-183 | packing succeeds exactly for a struct width and a value that fits it; the output is `size` bytes; an unknown width is the error |
| Codec.UnpackPackInt | src/package_parser.py:179-183 | unpacking a packed integer gives the integer back |
| Codec.PackUnpackInt | src/package_parser.py:179-183 | packing an unpacked field at its own width gives the same bytes back |
| Codec.BigEndianLeadingByte | src/package_parser.py:179-180 | a big-endian field is its leading byte times 256^(n-1) plus the rest |
| Codec.PackTimestamp | src/package_parser.py:134-135 | the 4-byte timestamp exists exactly for 0 <= now < 2^32 and reads back as `now` |
| Codec.PackBool | src/package_parser.py:68-69 | one byte, 1 for true and 0 for false |
| Codec.BoolRoundTrip | src/package_parser.py:65-69 | the bool marker of a packed boolean is that boolean |
| Codec.UnpackBoolMarker | src/package_parser.py:65-66 | as intended, the field reads true exactly when it is the packed `true` |
| Codec.UnpackBoolMarkerAsWritten | src/package_parser.py:65-66 | as written, even the packed `true` reads as false |
| Codec.BoolMarkerAsWrittenLosesTrue | src/package_parser.py:65-66 | as written, the bool marker reads a packed `true` as false |
| Address.ParseFormatDecimal | src/package_parser.py:84-86 | `int(str(n)) == n` for every natural |
| Address.SplitJoin | src/package_parser.py:84-86 | splitting a dot-joined list of dot-free parts gives the parts back |
| Address.ParseFormatHost | src/package_parser.py:84-86 | the dotted-quad text of four octets parses back to those octets |
| Address.PackAddr | src/package_parser.py:84-86 | packing succeeds exactly when the host parses and the port is below 65536, and gives 6 bytes |
| Address.PackAddrLayout | src/package_parser.py:84-86 | the packed bytes are the four octets, then the port high byte and low byte |
| Address.LoadAddr | src/connection.py:81-85 | loading succeeds exactly when at least 6 bytes are given |
| Address.LoadPackAddr | src/connection.py:78-85 | loading a packed address gives the same host text and port back |
| Markers.FindMarker | src/package_parser.py:173-177 | the marker found is the first declared marker of that name; the no-marker error exactly when no marker has that name |
| Markers.MakeMask | src/package_parser.py:166-167 | the mask is `length` one-bits with `8·width − start − length` zero-bits below them, and fits in the field |
| Markers.MaskShiftValue | src/package_parser.py:160-170 | masking the field's integer and shifting it right by `__get_left_shift` leaves the `length` bits above the shift |
| Markers.SplitMarker | src/package_parser.py:153-164 | splitting succeeds exactly when the marker fits in the field and the field has a struct width; a marker past the field's end is the shift error, raised before the width is looked at |
| Markers.SplitMarkerValue | src/package_parser.py:153-171 | a marker's value is the field's integer shifted right by `8·width − start − length` and reduced mod 2^length, hence below 2^length |
| Markers.SplitMarkerExample | src/package_parser.py:153-171 | bits 2..4 of `0b10110100` read as 6 |
| Markers.WholeFieldMarker | src/package_parser.py:153-171 | a marker covering the whole field reads the field's integer |
| Schema.FindProtocolPackage | src/package_parser.py:31-35 | the first package with the name, or the no-package error exactly when none has it |
| Unpack.UnpackStream | src/package_parser.py:185-186 | the head and the rest rejoin to the input; the head is `min(length, len)` bytes |
| Unpack.Decode | src/package_parser.py:137-151 | a `timestamp` field is the field's integer, failing exactly when `unpack_int` does; a single-name `markers` field is `{name: int(data)}`; only `markers` gives a dictionary, keyed by the marker names; any other type is the unknown-type error |
| Unpack.SetType | src/package_parser.py:50-60 | an untyped field is its raw bytes under its name; the keys are exactly the field's name or its marker names; a bool marker is `data == [1]` |
| Unpack.Unpack | src/package_parser.py:40-48 | the loop's dictionary is every field's decoded slice merged in order, or the first error; no structure is an error |
| Unpack.UnpackMultipleMarker | src/package_parser.py:142-148 | the loop's dictionary is the markers' values by name, or the first missing marker |
| Unpack.CollectOk | src/package_parser.py:142-148 | the multi-marker dictionary exists exactly when every marker value does |
| Unpack.MultiMarkersOk | src/package_parser.py:142-151 | a tuple of markers decodes exactly when each name is a declared marker that fits the field |
| Unpack.MultiMarkersEntries | src/package_parser.py:142-151 | the keys are exactly the marker names, each holding its marker's value |
| Unpack.SlicesTileBuffer | src/package_parser.py:40-48 | the field slices, joined, are the buffer's prefix up to the summed lengths |
| Unpack.UnpackConsumesRequiredLength | src/package_parser.py:75-82 | with at least the required length, the slices cover exactly the first `calc_requared_length` bytes |
| Unpack.NoStructureNoLength | src/package_parser.py:75-82 | a package without structure, or with an empty one, requires no bytes |
| Unpack.UnpackRawRoundTrip | src/package_parser.py:40-60 | untyped fields packed at their lengths unpack to the parts under their names |
| Unpack.BoolFieldRoundTrip | src/package_parser.py:50-69 | a packed boolean read back through a `bool_marker` field is that boolean |
| Contractions.Splice | src/package_parser.py:101-102 | the entry at `place` is replaced by the fragment, the entries before and after kept in place |
| Contractions.FirstIndex | src/package_parser.py:111-117 | the first entry naming the contraction, or none exactly when none does |
| Contractions.ExpandList | src/package_parser.py:104-117 | the found contractions are spliced one by one, each at its first place, in some order that visits each once; when no contraction names a contraction and the list names each contraction at most once, the result is the full expansion |
| Contractions.ExpandListMeaning | src/package_parser.py:104-117 | for a list naming each contraction at most once, any visiting order of the found set gives the same list, the full expansion |
| Contractions.ExpandInOrderIsExpandSome | src/package_parser.py:104-117 | splicing in order equals replacing, in one pass, every entry naming a visited contraction |
| Contractions.ExpandAllUnchanged | src/package_parser.py:104-117 | a list naming no contraction is left as it is |
| Contractions.ExpandAllComplete | src/package_parser.py:104-117 | after expansion no entry names a contraction |
| Contractions.ExpandAllIdempotent | src/package_parser.py:92-132 | expanding twice is expanding once |
| Recovery.Recover | src/package_parser.py:119-130 | a package comes through without error exactly when it has a structure and its bare-name `define` does not clash; its name and response are kept |
| Recovery.Protocol.RecoverPackage | src/package_parser.py:119-130 | one package's `define` is expanded, then its structure, each splice place looked up afresh (the corrected structure pass of the second Findings row); a bare-name clash or a missing structure is the error |
| Recovery.Protocol.RecoveryContraction | src/package_parser.py:92-132 | packages before the error are fully treated, the one it hit is partly treated, later ones are untouched |
| Recovery.RecoverExpandsAll | src/package_parser.py:92-132 | for lists naming each contraction at most once, a recovered package's lists are the full expansions of the originals |
| Recovery.RecoverIdempotent | src/package_parser.py:92-132 | for lists naming each contraction at most once, recovering a recovered package changes nothing |
| Recovery.RepeatedContractionLeftBehind | src/package_parser.py:104-109 | a contraction named twice is spliced once: define `[c, c]` with `c = [a]` becomes `[a, c]`, not the full expansion `[a, a]`, and a second pass turns it into `[a, a]` |
| Recovery.RecoverUnchanged | src/package_parser.py:92-132 | a package naming no contraction is left as it is |
| Contractions.ExpandInOrderAsWritten | src/package_parser.py:111-117 | as written, a list is unchanged when no visited contraction is found in it, and a single contraction is spliced as the fresh-index pass does |
| Recovery.StaleStructureIndex | src/package_parser.py:111-117 | as written, the second contraction overwrites a plain field and its own name survives |
| Recovery.FreshStructureIndex | src/package_parser.py:111-117 | with the place looked up afresh, both contractions are replaced in place |
| Connections.Transport.SendTo | src/connection.py:101-103 | an open transport appends the datagram to what it has sent; a closed one sends nothing |
| Connections.Transport.Close | src/connection.py:105-106 | the transport is closed and nothing is sent |
| Connections.Connection.Received | src/connection.py:92-99 | a fresh connection holds the request, address, transport and response time it was made with |
| Connections.Connection.IsTimeOut | src/connection.py:39-40 | with a non-negative timeout, a connection can time out only after its last response |
| Connections.Connection.TimeOutLasts | src/connection.py:39-40 | without a new response, a timed-out connection stays timed out at every later time |
| Connections.Connection.Equals | src/connection.py:20-25 | two connections are equal exactly when their remote addresses are |
| Connections.Connection.SetLastResponse | src/connection.py:42-43 | the response time becomes `now`, so the connection is not timed out at once; nothing else changes |
| Connections.Connection.SetTransport | src/connection.py:45-46 | only the transport changes |
| Connections.Connection.SetRemoteAddr | src/connection.py:97-99 | only the remote address changes |
| Connections.Connection.SetRequest | src/connection.py:66-67 | only the request changes |
| Connections.Connection.DatagramReceived | src/connection.py:92-95 | request, address and transport are replaced; the response time is kept |
| Connections.Connection.DumpAddr | src/connection.py:78-79 | the dump exists exactly when the host parses and the port fits 16 bits; it is the host's four octets, then the port's high and low byte, and it loads back |
| Connections.Connection.Send | src/connection.py:101-103 | one datagram to the remote address is appended unless the transport is closed |
| Connections.Connection.Shutdown | src/connection.py:105-106 | the transport is closed, nothing is sent |
| Connections.Find | src/connection.py:131-136 | the slot holding the key, or none exactly when no slot does |
| Connections.SetState | src/connection.py:194-196 | only the keyed slot's state changes |
| Connections.AddGroup | src/connection.py:184-192 | only the keyed slot's neighbour set gains the index |
| Connections.FirstWaiting | src/connection.py:138-142 | the first connection in state `waiting`, or none exactly when none waits |
| Connections.KeepMeaning | src/connection.py:113-120 | every kept slot is one not marked out, and every slot not marked out is kept |
| Connections.KeptPositions | src/connection.py:113-120 | the surviving positions are listed once each, in increasing order, and are exactly the unmarked ones |
| Connections.KeepOrder | src/connection.py:113-120 | the kept slots are the slots at the surviving positions, in that order |
| Connections.AliveMeaning | src/connection.py:113-120 | the surviving slots are exactly the ones not timed out |
| Connections.NetPool.constructor | src/connection.py:110-111 | both groups start empty and the pool is balanced |
| Connections.NetPool.GroupIndex | src/connection.py:198-202 | the group holding the address, if any |
| Connections.NetPool.SaveConnection | src/connection.py:157-178 | a known address keeps its slot and its stored connection object, set back to waiting; a new one is appended, waiting with no neighbours, to group 1 when group 0 is larger and to group 0 otherwise; balanced groups stay balanced |
| Connections.NetPool.UpdateState | src/connection.py:194-196 | the connection's state is set, or an error when it is not in the pool |
| Connections.NetPool.UpdateNeighbourGroup | src/connection.py:184-192 | each connection's neighbour set gains its own group's index; a `None` argument changes nothing; a first connection absent from the pool is an error and changes nothing; a second one absent is an error after the first has been updated |
| Connections.NetPool.FindWaitingConnection | src/connection.py:138-142 | the loop returns the first waiting connection |
| Connections.NetPool.CleanGroups | src/connection.py:113-120 | the survivors are the slots not timed out, and every timed-out transport is closed with nothing sent |
| Connections.NetPool.AllConnections | src/connection.py:180-182 | both groups' surviving connections, with the timed-out ones shut |
| Connections.NetPool.FindNeighbour | src/connection.py:144-155 | an error exactly for an unknown connection; a connection with neighbours in group 0 only gets the first waiting connection of group 1, and the other way round; otherwise the first waiting one among all connections that have not timed out; only in that last case are transports closed, exactly those of timed-out connections; nothing is sent |
| Connections.NetPool.CanBeDisconnected | src/connection.py:204-210 | an error exactly when the connection is not in the pool |
| Connections.NetPool.CanBeDisconnectedMeaning | src/connection.py:204-210 | true exactly when the connection is pooled, its group is above the peer quota and it has neighbours in both groups |
| Connections.NetPool.Disconnect | src/connection.py:212-215 | the connection's slot is removed from its group and its transport is shut; an unknown one is an error and changes nothing |
| Connections.NetPool.Clean | src/connection.py:217-220 | both groups are emptied and every transport is shut |
| Connections.Remove | src/connection.py:212-215 | the slot at `k` is dropped, the others keep their order |
| Dispatch.AllHold | src/handler.py:64-70 | true exactly when every named predicate exists and holds; false exactly when one fails before any is missing; else the first missing name is the error |
| Dispatch.DefinePackage | src/handler.py:56-62 | the first package whose predicates all hold; none exactly when every package is rejected; otherwise the error of the first package that cannot be judged |
| Dispatch.OneNameIsSingleton | src/handler.py:72-76 | a bare `define` name is judged as the list holding it |
| Dispatch.Handler.constructor | src/handler.py:17-26 | the handler starts with no transport and no connection |
| Dispatch.Handler.ConnectionMade | src/handler.py:28-30 | the transport is stored |
| Dispatch.Handler.DatagramReceived | src/handler.py:32-38 | the pool saves the datagram as `save_connection` does: a known address is set back to waiting; a new one is appended with the handler's fresh connection to group 1 when group 0 is larger, else to group 0; balance is kept. Then the transport sends exactly the reply's payloads |
| Dispatch.Handler.Handle | src/handler.py:45-54 | nothing is sent when no package is recognised; a missing `response` name or responder is the error; otherwise the responder's payloads go out in order |
| Dispatch.Handler.Respond | src/handler.py:53-54 | the payloads are appended, in order, to the current connection's sent datagrams |
| Dispatch.MakeMessage | src/handler.py:86-92 | an unknown package is the no-package error; otherwise the message is the builders' outputs in field order |
| Dispatch.MessageErrorSticks | src/handler.py:89-91 | once a field has no builder, the whole message is that error |
| Dispatch.MessageIsConcat | src/handler.py:86-92 | the message exists exactly when every field has a builder, and is their outputs concatenated |
| Dispatch.MessageUnpackRoundTrip | src/handler.py:86-92 | a message of untyped fields whose builders give their declared lengths unpacks to those outputs by field name |
| Dispatch.PingExchange | src/handler.py:94-100 | an empty datagram is answered with one empty datagram; a non-empty one gets no answer from the ping package |

## Left out

- The asyncio event loop is not modelled, and neither are the real UDP socket and logging. The transport is a class that records what it sends and whether it is closed.
- The clock is an integer `now` parameter: timestamps and the timeout test are in whole seconds, while `time()` and `is_time_out` work on fractional seconds. The timeout and peer quota (settings values) are fields of the pool.
- Key generation and signing (`CryptTools`) are not modelled.
- src/protocol.py, src/server_handler.py and src/server_host.py are not part of this model.
- `Connection.loads` is not modelled: it reads a serialized connection record the pool never produces.
- `set_protocol`, `set_local_port`, `set_listener` and the fingerprint accessors only store fields no modelled operation reads. They are not modelled.
- `Parser.get_part`, `set_connection` and `set_package_protocol` are not modelled. They are accessors of parser state; the model passes the request and the package as parameters instead.
- `Handler.connection_lost` is not modelled. It disconnects a fresh `Connection` that has no transport, so its shutdown would fail on `None`.
- The predicates, responders and `get_*` builders are looked up with `getattr` on the handler. The model represents them as tables from name to function. A predicate's `is True` test on a non-boolean is not modelled: predicates return booleans.
- The protocol's package list is read under the key `'package'` in one place and `'packages'` in another. The model takes the list itself.
- Responders (`do_*` methods) are modelled as functions from the package and the request to the payloads sent back to the current connection. In the source they are any handler method, and could send to other peers or change the pool. `Dispatch.Handler.Handle` promises that only the reply is sent, and `Dispatch.Handler.DatagramReceived` that the pool changes only as `save_connection` says; both rest on this restriction.
- Dispatch.Handler.constructor: the optional `message`, `on_con_lost` and `connection` arguments, and the `CryptTools` instance, are not modelled. No modelled operation reads them before `datagram_received` sets the connection.
- `pack_addr` applies Python's lenient `int()`, which accepts whitespace, signs and underscores. The model parses plain decimal digits only.
- `get_packed_addr_length` is the constant 6 (`PackedAddrLength`). Its `struct.calcsize` call is not modelled.
- `binary_not` comes from src/utilit.py, which is not part of this model. It is taken to swap the group indices 0 and 1.
- Python set iteration order is not modelled. Wherever the source walks a set (found contractions, neighbour groups), the model takes the order as a ghost parameter, and the lemmas hold for every order.
- The pool is keyed by remote address: `Connection.__eq__` compares addresses, and the connection objects' identity does not matter. `__hash__`, missing beside `__eq__`, is not modelled.
- Contractions.ExpandListMeaning: the full expansion is promised only for lists naming each contraction at most once. `list.index` splices only the first entry naming a contraction, so later repeats stay, as `Recovery.RepeatedContractionLeftBehind` shows.
- Recovery.RecoverExpandsAll: proved only for lists naming each contraction at most once, for the same reason.
- Recovery.RecoverIdempotent: proved only for lists naming each contraction at most once; a repeated name is spliced again by a second pass.

## Findings

| source | as written | input that shows it | evidently intended | confidence | as-written member | corrected member |
|---|---|---|---|---|---|---|
| src/package_parser.py:65-66 | `unpack_bool_marker` compares the field's `bytes` with the integer 1, which is always false | the packed `true`, `b'\x01'` | the one-byte field `b'\x01'` reads as true | not executed | Codec.BoolMarkerAsWrittenLosesTrue | Codec.BoolRoundTrip |
| src/package_parser.py:111-117 | `recovery_structure` takes every splice place from the name list computed before any splice | structure `[c1, x, c2]` with `c1 = [a, b]`, `c2 = [y]` gives `[a, b, y, c2]` | each contraction replaced where it currently stands: `[a, b, x, y]` | not executed | Recovery.StaleStructureIndex | Recovery.FreshStructureIndex |
