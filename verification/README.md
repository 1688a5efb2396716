# Relay control plane: a verified model

ongrok publishes local services through a relay: nodes connect over QUIC or over Yamux on TCP/TLS,
authenticate with a token, register services, and the relay leases a TCP port or an HTTP host name to each
and forwards visitors over data streams. This project models the relay's control plane, the client program
that talks to it, and the wire and storage formats between them, and proves what they keep. Run
`dafny verify dfyconfig.toml`.

| file | what it models |
|---|---|
| `Basics`, `Types`, `Ordered`, `Utf8` | fixed-width integers, domain and frame types, byte-wise string order and ordered iteration, UTF-8 |
| `Postcard`, `FrameCodec`, `Framing`, `ControlStream`, `WireBytes` | Postcard encoding of every frame, length-prefixed framing, the in-place decoder and the stream reader; the bytes of every kind of frame and field |
| `Validation`, `Registry`, `Ledger`, `Outcomes`, `RelayRegistry` | service names and metadata; admission and port leases; table, store, listeners and bound ports together; which answer a request gets; the handlers as methods on that state |
| `Interleaving`, `Listening`, `MetadataKept` | the same handlers as program counters over their lock sections, any number at once; listeners against leases; valid metadata over all runs |
| `Patching`, `Schedules`, `Writes` | runs of PATCH handlers; which PATCH, DELETE and unregister handlers may meet; a helper on what each section writes |
| `Control`, `FrameEffects`, `RelayServer`, `Lifecycle`, `TokenRuns`, `Transports` | nodes, sessions and tokens: one frame at a time and what it changes, the two session handlers, whole runs with restarts, tokens over such runs, QUIC against Yamux |
| `Handshake` | the client's control program composed with the server's handler over frame channels |
| `EndToEnd` | the control program composed with the data streams |
| `CopyFlow`, `Tunnel`, `TunnelOpening`, `TunnelEnds` | chained copy loops with half-close; opening a data stream and relaying on it; how it is opened or refused; what an end of file at the far end says |
| `Keys`, `Metrics` | storage keys, metric retention and the per-node query |
| `Routing`, `Headers` | Host header to service; hop-by-hop header removal (section 7.6.1 of RFC 9110) |

State that the source updates in place is a class with methods (`FrameBuffer`, `ByteStream`,
`ServiceRegistry`, `RelayServer`, `MetricStore`, `HeaderMap`), each proved equal in effect to a function on
values; runs, interleavings and round trips are proved about those functions. The metrics of a `Control.Relay`
are the history of metric puts; the table such a history leaves is `Metrics.After`. Protocols and concurrent
handlers are state machines, and their theorems speak of every run. Wherever a theorem assumes something of a
run (`KeepsAddresses`, `Obeys`, `NeverTwoOnOneService`), the model says where it comes from: the server's own
registrar satisfies the first (`Handshake.RegistrarKeepsAddresses`), and the client's program sends heartbeats
only on registered connections (`Handshake.HeartbeatsInStep`).

## What does not hold

These follow from the code as it is. Each has a lemma with a failing input and one with the exact condition.

- A failed activation removes the id instead of restoring the record that was there before, so a service that
  changes protocol onto a foreign port is lost (`Ledger.ProtocolChangeCanLoseTheRecord`,
  `Ledger.FailureRestoresIffNewId`).
- A listener task is recognised by service id alone, so a service can be left listening on its earlier port
  (`Ledger.ReusedIdParts`, `Ledger.RegisterExactIff`).
- Registering does not ask who owns the submitted id (`Ledger.ForeignIdAccepted`, `Ledger.RegisterDisturbsIff`).
- The store is written after the services lock is released, so two PATCH requests can leave memory and store
  different for good (`Schedules.PatchRace`), and a PATCH that meets a DELETE can bring the service back at the
  next start (`Schedules.DeletedServiceReturns`; exactly which may meet: `Schedules.SchedulesAgreeIff`).
- A QUIC handler that ends with an error leaves the session entry and the Online status behind
  (`Transports.QuicErrorLeavesSession`, `Transports.SessionsAlikeIff`), and a restart on such a database shows
  Online nodes without a session (`Lifecycle.OnlineNodeWithoutSession`, `Lifecycle.RestartOnlineIff`).
- A heartbeat processed after its session has ended makes the node Online without one
  (`Lifecycle.LateHeartbeatWithoutSession`, `Lifecycle.HeartbeatOnlineIff`).
- Rotating a token does not reach connections that have authenticated but not registered yet
  (`Lifecycle.RevokedTokenStillRegisters`, `Lifecycle.RevokedSessionIff`).
- The copy loops pass on the end of a dropped or broken stream like any other, so an end of file can hide
  missing bytes (`TunnelEnds.AbortTruncates`, `TunnelEnds.EndCompleteIff`).
- Keys of two different negative timestamps sort in reverse (`Keys.NegativeTimesReverse`,
  `Keys.KeyOrderIsNumericIff`).
- A domain with an upper-case letter or a colon is accepted but its hosts are never routed
  (`Routing.MixedCaseDomainAccepted`, `Routing.RegisteredButUnrouted`, `Routing.DomainReachableIff`).
- The hosts of a domain with a trailing dot are reached only with a port (`Routing.TrailingDotNeedsColon`).
- A service named "api" is shadowed by the server's own host (`Routing.ApiServiceNeverRouted`,
  `Routing.RoutedIff`).

## Model

| member | source | states |
|---|---|---|
| `Registry.FirstAvailable` | crates/ongrok-relay-server/src/relay.rs:13-22 | the result is the least unleased port of the inclusive range, and there is none only if every port of it is leased |
| `Registry.FindOwned` | crates/ongrok-relay-server/src/server.rs:416-418 | the adopted record is the one with the smallest id among those with this node and name |
| `Registry.PlacedRecord` | crates/ongrok-relay-server/src/server.rs:426-454 | placing changes only host and port; a TCP lease lies in the configured range and is leased to no other service, an HTTP host starts with the service name and a dot |
| `Registry.AdmitKeepsTableValid` | crates/ongrok-relay-server/src/server.rs:408-456 | an admitted registration leaves ids matching, names globally unique and TCP ports distinct and in range |
| `Registry.InvalidRequestRefused` | crates/ongrok-relay-server/src/server.rs:408-409 | a request with an invalid name or invalid metadata is refused as such, whatever the table, the name first |
| `Outcomes.NameInUseIff` | crates/ongrok-relay-server/src/server.rs:411-415 | a valid request is refused for its name exactly if another node publishes it |
| `Outcomes.HttpOutcome` | crates/ongrok-relay-server/src/server.rs:444-454 | an HTTP or HTTPS registration is refused exactly without a domain; otherwise it gets name, dot and domain as host, no port, and the id of the service it replaces |
| `Outcomes.TcpAskedOutcome` | crates/ongrok-relay-server/src/server.rs:427-443 | a port asked for is out of range, leased to another service, or given, in that order; a replaced TCP service keeps its own |
| `Outcomes.TcpUnaskedOutcome` | crates/ongrok-relay-server/src/server.rs:427-443 | without one the least free port of the range is given, and none only if all are leased |
| `Registry.RemoveKeepsTableValid` | crates/ongrok-relay-server/src/server.rs:481-487 | removing an id keeps the table valid |
| `Registry.PatchKeepsTableValid` | crates/ongrok-relay-server/src/server.rs:1154-1166 | replacing metadata keeps the table valid |
| `Registry.ExhaustedIffRangeFull` | crates/ongrok-relay-server/src/relay.rs:13-22 | no port is found if and only if the number of in-range TCP leases equals end - start + 1 (pigeonhole) |
| `Registry.AllocatorComplete` | crates/ongrok-relay-server/src/server.rs:427-443 | a valid port-less TCP registration under a new name is refused, as exhausted, exactly when the range is full; otherwise it gets the least unleased port |
| `Ledger.RegisterKeepsConsistent` | crates/ongrok-relay-server/src/server.rs:403-474 | every registration, also one that fails to activate, leaves table equal to store, a listener for every TCP service and one owner per port |
| `Ledger.RemoveKeepsConsistent` | crates/ongrok-relay-server/src/server.rs:476-501 | unregister and DELETE keep the same |
| `Ledger.PatchKeepsConsistent` | crates/ongrok-relay-server/src/server.rs:1145-1167 | PATCH keeps the same |
| `Outcomes.RegisterOutcome` | crates/ongrok-relay-server/src/server.rs:455-474 | a refused request changes nothing; an admitted one touches its own id only, is in memory and store and, if TCP, listening when accepted, and fails exactly for a port that has an owner, then leaving the id in none of them |
| `Outcomes.DeleteOutcome` | crates/ongrok-relay-server/src/server.rs:1063-1079 | a known service leaves memory, store and listeners, everything else stays; an unknown one changes nothing |
| `Outcomes.PatchOutcome` | crates/ongrok-relay-server/src/server.rs:1145-1167 | valid metadata replaces that of a known service in memory and store and changes nothing else; anything else changes nothing |
| `Ledger.RegisterExactIff` | crates/ongrok-relay-server/src/server.rs:416-465 | listeners and leases stay one to one after a registration if and only if it does not move a TCP service to another protocol and does not reuse its id under a new name with another port |
| `Ledger.ReusedIdParts` | crates/ongrok-relay-server/src/server.rs:427-445 | such a registration: a TCP service's id under an unused name with another free port is accepted and its listener stays on the old port |
| `Ledger.RegisterDisturbsIff` | crates/ongrok-relay-server/src/server.rs:408-465 | a node's registration removes or replaces another node's record if and only if it is admitted under a name the node does not have, with an id another node's service has |
| `Ledger.ForeignIdAccepted` | crates/ongrok-relay-server/src/server.rs:408-465 | such a registration: another node's TCP service id under an unused name with a free port is accepted, the record changes owner and the listener stays |
| `Ledger.UnregisterNeverDisturbs` | crates/ongrok-relay-server/src/server.rs:481-487 | a node's unregistration never does |
| `Ledger.FreshIdsNeverPart` | crates/ongrok-relay-server/src/server.rs:416-425 | fresh ids and names that keep their protocol never do either |
| `Ledger.FailureRestoresIffNewId` | crates/ongrok-relay-server/src/server.rs:459-465 | a refused registration changes nothing, except that a failed activation removes the record that was under the id: it restores everything if and only if the id was new |
| `Ledger.ProtocolChangeCanLoseTheRecord` | crates/ongrok-relay-server/src/server.rs:459-465 | concrete loss: an HTTP service asking for a TCP port another process holds disappears from table and store |
| `Ledger.ActivationFailsOnlyForForeignPorts` | crates/ongrok-relay-server/src/relay.rs:36-39 | while listeners match leases, a bind can fail only for a port held by another process |
| `Ledger.SequentialRunsKeep` | crates/ongrok-relay-server/src/server.rs:403-501 | over every sequence of requests run one at a time: consistency always, exactness when no request parts a listener from its lease |
| `MetadataKept.InvalidRegistrationChangesNothing` | crates/ongrok-relay-server/src/server.rs:408-409 | a registration with an invalid name or invalid metadata is refused as such and leaves table, store and listeners as they were |
| `MetadataKept.SequentialMetadata` | crates/ongrok-relay-server/src/server.rs:403-501 | over every sequence of registrations, unregistrations, DELETEs and PATCHes valid metadata everywhere stays so |
| `MetadataKept.RestartMetadata` | crates/ongrok-relay-server/src/store.rs:96-112 | a restart loads only metadata that was stored |
| `RelayRegistry.ServiceRegistry.EnsureTcpIngress` | crates/ongrok-relay-server/src/relay.rs:24-71 | succeeds when the id already has a task, whatever the port, or the port is free; then the id listens on its port and no other task changed |
| `RelayRegistry.ServiceRegistry.RegisterService` | crates/ongrok-relay-server/src/server.rs:403-474 | the method on the locked maps and the store has exactly the effect and result `Ledger.Registered` gives it |
| `RelayRegistry.ServiceRegistry.UnregisterService` | crates/ongrok-relay-server/src/server.rs:476-501 | removes record, stored record and task only for the owning node, else changes nothing |
| `RelayRegistry.ServiceRegistry.DeleteService` | crates/ongrok-relay-server/src/server.rs:1063-1079 | removes all three whoever owns the service, and says whether it was there |
| `RelayRegistry.ServiceRegistry.PatchService` | crates/ongrok-relay-server/src/server.rs:1145-1167 | changes memory and store together, exactly for valid metadata on a known id |
| `RelayRegistry.LoadServices` | crates/ongrok-relay-server/src/store.rs:96-112 | every stored record is filed under the id it carries, the last key in order winning; with records under their own ids that is the stored table |
| `RelayRegistry.ServiceRegistry.RestoreListeners` | crates/ongrok-relay-server/src/server.rs:160-177 | from a valid table the startup loop succeeds exactly if no other process holds a leased port, and then every lease listens on its own port |
| `RelayRegistry.Restart` | crates/ongrok-relay-server/src/server.rs:118-177 | from any table equal to its store: same table, same store, a listener on each exact port, consistent and exact |
| `Interleaving.TableAlwaysValid` | crates/ongrok-relay-server/src/server.rs:403-501 | under every interleaving of the lock sections of any number of register, unregister, DELETE and PATCH handlers, failed commits and rollbacks included: ids match, names unique, TCP ports distinct and in range |
| `MetadataKept.MetadataAlwaysValid` | crates/ongrok-relay-server/src/server.rs:403-501 | under the same interleavings every record in memory and in the store, and every record a handler is about to write, has valid metadata |
| `Interleaving.PortsAlwaysOwned` | crates/ongrok-relay-server/src/relay.rs:28-69 | under the same interleavings no port has two listeners, nor one another process holds |
| `Interleaving.AgreementAlwaysHolds` | crates/ongrok-relay-server/src/server.rs:455-499 | with successful commits and never two handlers on one service, every id with no handler in flight has the same record in memory and store, and a listener if it is TCP |
| `Interleaving.QuiescentStoreIsTable` | crates/ongrok-relay-server/src/server.rs:455-499 | when nothing is in flight the store equals the table, so it inherits unique names and distinct leases |
| `Patching.PatchRunAgreesIff` | crates/ongrok-relay-server/src/server.rs:1154-1167 | in any run of PATCH handlers, however many: they hold the same record if and only if the last to update memory and the last to commit carried the same metadata |
| `Schedules.SchedulesAgreeIff` | crates/ongrok-relay-server/src/server.rs:1063-1167 | any number of PATCH, DELETE and unregister handlers about to run leave memory and store the same for a service after every completing schedule if and only if those that PATCH it all carry the same metadata and, if there is one, none deletes it and its owner does not unregister it |
| `Schedules.PatchRace` | crates/ongrok-relay-server/src/server.rs:1154-1167 | the losing schedule of two PATCH requests: the first in the store, the second in memory |
| `Schedules.DeletedServiceReturns` | crates/ongrok-relay-server/src/server.rs:1063-1071 | the losing schedule of a PATCH and a DELETE: gone from memory, back in the store |
| `Listening.QuiescentIsExact` | crates/ongrok-relay-server/src/relay.rs:28-69 | under the hypotheses of agreement, and if no registration parts a listener from its lease, listeners and leases are one to one whenever nothing is in flight |
| `Interleaving.RegisterAlone` | crates/ongrok-relay-server/src/server.rs:403-474 | the register sections run alone are `Ledger.Registered` |
| `Interleaving.UnregisterAlone` | crates/ongrok-relay-server/src/server.rs:476-501 | likewise for unregister |
| `Interleaving.DeleteAlone` | crates/ongrok-relay-server/src/server.rs:1063-1079 | likewise for DELETE |
| `Interleaving.PatchAlone` | crates/ongrok-relay-server/src/server.rs:1145-1167 | likewise for PATCH |
| `Interleaving.FailedCommit` | crates/ongrok-relay-server/src/server.rs:455-499 | a store commit that fails ends the handler and changes nothing: what it did in memory before stays |
| `Interleaving.BindOutcome` | crates/ongrok-relay-server/src/relay.rs:36-39 | a bind succeeds exactly if no process, no listener and no handler about to enter one holds the port and the system allows it; otherwise the registration is rolled back |
| `Validation.ValidateMetadata` | crates/libongrok/src/lib.rs:271-298 | the error names the first offending key in key order; the total is compared only when every entry is valid; accepted only if valid |
| `Validation.AcceptedIffValid` | crates/libongrok/src/lib.rs:271-298 | no error exactly when the metadata satisfies every limit |
| `Validation.MetadataLimits` | crates/libongrok/src/lib.rs:271-298 | the limits as numbers: 32 entries, keys of 1 to 64 characters, values of up to 256 bytes, 4096 bytes in all |
| `Validation.NameLengths` | crates/libongrok/src/lib.rs:314-326 | a name has 1 to 63 characters, a metadata key 1 to 64 |
| `Validation.NameLimits` | crates/libongrok/src/lib.rs:314-326 | which characters a name may have alone and between others, and that no hyphen may begin or end it |
| `Validation.KeyLimits` | crates/libongrok/src/lib.rs:280-291 | which characters a metadata key may have |
| `RelayServer.RelayServer.ActivateSession` | crates/ongrok-relay-server/src/state.rs:76-95 | the new session takes the entry; the connection that held it is closed |
| `RelayServer.RelayServer.RegisterNode` | crates/ongrok-relay-server/src/server.rs:301-328 | accepted exactly for valid metadata and a key that does not contradict the recorded one; then session, node, stored node and event |
| `RelayServer.RelayServer.PublishService` | crates/ongrok-relay-server/src/server.rs:329-357 | refused without touching anything unless the node is registered and owns the request |
| `RelayServer.RelayServer.RecordHeartbeat` | crates/ongrok-relay-server/src/server.rs:503-531 | status, time and round-trip time in memory and store and one metric, only for a known node |
| `RelayServer.RelayServer.QuicHeartbeat` | crates/ongrok-relay-server/src/server.rs:633-655 | the QUIC copy has the effect of `record_heartbeat` |
| `RelayServer.RelayServer.HandleYamuxSession` | crates/ongrok-relay-server/src/server.rs:298-400 | the loop and teardown, for every inbox, end in the state and with the replies of the control specification |
| `RelayServer.RelayServer.HandleQuicConnection` | crates/ongrok-relay-server/src/server.rs:579-697 | likewise for QUIC, whose error exits skip the teardown |
| `RelayServer.RelayServer.ReplaceToken` | crates/ongrok-relay-server/src/server.rs:1288-1337 | four steps under four locks end in the state the specification gives |
| `Control.RoundTrip` | crates/ongrok-relay-server/src/server.rs:509-511 | the round-trip time is the elapsed time between zero and an hour, with no wrap at the ends of `i64` |
| `FrameEffects.UnregisterFrame` | crates/ongrok-relay-server/src/server.rs:354-356 | UnregisterService from the owner takes the id out of memory, store and listeners, leaves every other id and everything else alone and adds one ServiceDeleted event; from anyone else, or for an unknown id, it changes nothing |
| `FrameEffects.RegisterServiceFrame` | crates/ongrok-relay-server/src/server.rs:327-353 | refused without effect unless registered and for the own node; otherwise decided as a registration, answered with its verdict, and if accepted in memory, store and listeners with one event |
| `FrameEffects.RegisterNodeFrame` | crates/ongrok-relay-server/src/server.rs:301-326 | exactly for valid metadata and a key that does not contradict the recorded one: the record it files, the session it enters, the connection it closes and the event; else it ends the session and changes nothing |
| `FrameEffects.HeartbeatFrame` | crates/ongrok-relay-server/src/server.rs:357-368 | acknowledged under its own number; a known node becomes Online with time and round-trip time in memory and store, the rest of its record kept, and one metric is added; an unknown one changes nothing |
| `FrameEffects.RemainingFrames` | crates/ongrok-relay-server/src/server.rs:369-378 | Goodbye leaves, any other frame is answered as unsupported; none changes anything |
| `FrameEffects.SessionEnd` | crates/ongrok-relay-server/src/server.rs:376-400 | the end of a current session removes its entry and takes its node offline with one event; of any other, and over QUIC without a Goodbye, it changes nothing |
| `FrameEffects.RotationEffects` | crates/ongrok-relay-server/src/server.rs:1300-1337 | exactly the nodes with a session of the kind go offline, in memory and store, each known one with one event; no service, metric or other node changes |
| `Lifecycle.AlwaysDurable` | crates/ongrok-relay-server/src/server.rs:304-328 | in every run, restarts included, nodes and tokens in memory equal those in the store, and a recorded public key stays recorded |
| `Lifecycle.RestartKeepsTokens` | crates/ongrok-relay-server/src/store.rs:50-94 | a restart with any environment hashes authenticates exactly the same hashes |
| `TokenRuns.StartTokens` | crates/ongrok-relay-server/src/store.rs:50-94 | a first start stores each environment hash for its own kind, a later one keeps what is stored |
| `TokenRuns.AuthenticatesAs` | crates/ongrok-relay-server/src/state.rs:35-52 | the admin hash authenticates as Admin, the user hash as User unless it is the admin hash too, nothing else does |
| `TokenRuns.RotationSparesOtherKind` | crates/ongrok-relay-server/src/server.rs:1288-1298 | a rotation replaces its own hash, in memory and store, and no other: what authenticated as the other kind still does, unless a user hash became the admin hash, and nothing newly does |
| `TokenRuns.HashKeptBetweenRotations` | crates/ongrok-relay-server/src/server.rs:1288-1298 | over runs with restarts, a kind keeps its hash until its own next rotation |
| `TokenRuns.AuthenticationKept` | crates/ongrok-relay-server/src/state.rs:35-52 | over such runs, until its own next rotation: the same hashes authenticate as Admin; a hash that authenticated as User still does unless it became the admin hash, and none that was not stored does |
| `Lifecycle.RotationDropsExactlyItsKind` | crates/ongrok-relay-server/src/server.rs:1288-1337 | at the rotation itself: no session of the kind is left, others are untouched, dropped connections are closed, only the new hash authenticates as that kind |
| `Lifecycle.RevokedSessionIff` | crates/ongrok-relay-server/src/server.rs:1300-1313 | over runs: a connection accepted before a rotation holds a session of the rotated kind after it, before the next restart, if and only if one such connection has an acceptable RegisterNode processed after it |
| `Lifecycle.RevokedTokenStillRegisters` | crates/ongrok-relay-server/src/server.rs:1300-1313 | such a run: authenticate, revoke, register; it ends with an open session of a kind no token authenticates as |
| `Lifecycle.SupersededAlwaysSilent` | crates/ongrok-relay-server/src/server.rs:376-400 | in every run, the exit of a connection whose entry belongs to another changes nothing at all |
| `Lifecycle.OnlineIffSession` | crates/ongrok-relay-server/src/server.rs:300-399 | over both transports, in runs whose heartbeats come from registered open connections, a node is Online exactly while it has a session |
| `Lifecycle.HeartbeatOnlineIff` | crates/ongrok-relay-server/src/server.rs:512-520 | the exact condition on one heartbeat |
| `Lifecycle.LateHeartbeatWithoutSession` | crates/ongrok-relay-server/src/server.rs:1300-1325 | a run within one process: a rotation ends an open session, the heartbeat already received on its connection is processed after it, and the node is Online without a session |
| `Lifecycle.RestartOnlineIff` | crates/ongrok-relay-server/src/store.rs:151-167 | a restart keeps that property exactly if every stored node is offline |
| `Lifecycle.OnlineNodeWithoutSession` | crates/ongrok-relay-server/src/store.rs:151-167 | a stored Online node is Online without a session after the restart |
| `Lifecycle.FreshProcessStarts` | crates/ongrok-relay-server/src/server.rs:131-142 | a process on an all-offline database starts in the invariant |
| `Lifecycle.ConnectionsAuthenticated` | crates/ongrok-relay-server/src/server.rs:282-292 | in every run, each open connection was accepted by a step whose tokens gave the kind it carries |
| `Lifecycle.HandlerEnds` | crates/ongrok-relay-server/src/server.rs:369-400 | which frames end a handler, and that afterwards its session is no longer current over Yamux or after a Goodbye, while an error over QUIC changes nothing |
| `Lifecycle.LostEnds` | crates/ongrok-relay-server/src/server.rs:376-400 | a connection lost over Yamux leaves no current session of its own, one lost over QUIC changes nothing |
| `Transports.LoopsAlike` | crates/ongrok-relay-server/src/server.rs:298-375 | for every inbox both transports give the same replies and, up to the transport tag and handle, the same state |
| `Transports.EndingFromInput` | crates/ongrok-relay-server/src/server.rs:298-375 | from the input alone: the loop ends with Goodbye exactly if it occurs with every RegisterNode before it acceptable (valid metadata, and the recorded or else the first sent key); the session is current at the end exactly if it was at the start or an acceptable RegisterNode came before any Goodbye and any unacceptable one |
| `Transports.SessionsAlikeIff` | crates/ongrok-relay-server/src/server.rs:579-697 | after the exit the states are alike if and only if, by that reading of the input, the client said Goodbye or the connection never had a session |
| `Transports.QuicErrorLeavesSession` | crates/ongrok-relay-server/src/server.rs:579-697 | a new node that registers and then loses its stream stays Online with its entry over QUIC, and is taken offline without one over Yamux |
| `Utf8.RoundTrip` | crates/libongrok/src/lib.rs:487-489 | decoding an encoded string gives it back |
| `Utf8.Canonical` | crates/libongrok/src/lib.rs:487-489 | nothing but encodings decodes |
| `Postcard.VarintRoundTrip` | crates/libongrok/src/lib.rs:454-462 | varints of every width used round-trip with anything behind them |
| `FrameCodec.FrameRoundTrip` | crates/libongrok/src/lib.rs:390-444 | every Frame of all seventeen kinds is read back from its bytes, leaving what follows |
| `ControlStream.EncodeFrame` | crates/libongrok/src/lib.rs:454-462 | fails exactly above the size limit; otherwise the output is never empty and its header is its payload length, not truncated |
| `ControlStream.FrameBuffer.DecodeFrames` | crates/libongrok/src/lib.rs:464-485 | the in-place loop returns the frames and leaves the leftover (or the error and position) of the parse specification |
| `ControlStream.DecodeChunks` | crates/libongrok/src/lib.rs:464-485 | appending and decoding chunk by chunk on the buffer gives the frames, leftover and first error of the chunked specification |
| `ControlStream.ByteStream.ReadControlFrame` | crates/ongrok-relay-server/src/wire.rs:7-24 | reads one frame and leaves the rest, or reports which way it failed |
| `ControlStream.ByteStream.WriteControlFrame` | crates/ongrok-relay-server/src/wire.rs:26-35 | appends exactly the encoding |
| `ControlStream.FramesRoundTrip` | crates/libongrok/src/lib.rs:454-485 | the concatenated encodings of any frames decode to them; what follows decodes as if alone |
| `ControlStream.FramesThenIncompleteTail` | crates/libongrok/src/lib.rs:464-485 | they leave exactly the tail if and only if it is incomplete; repeated stream reads give the same frames |
| `ControlStream.ReadEncoded` | crates/ongrok-relay-server/src/wire.rs:7-24 | a reader takes exactly one encoded frame |
| `ControlStream.NonCanonicalEncodingsAccepted` | crates/libongrok/src/lib.rs:487-489 | padded varints and trailing bytes decode too, so decoding is not injective |
| `WireBytes.Tags` | crates/libongrok/src/lib.rs:390-444 | the seventeen frames have the tags 0 to 16 in the order of their declaration |
| `WireBytes.HandshakeBytes` | crates/libongrok/src/lib.rs:390-444 | the bytes of Hello, Auth and the answers to it |
| `WireBytes.NodeBytes` | crates/libongrok/src/lib.rs:329-336 | host name, system, architecture, version and metadata are encoded in this order |
| `WireBytes.ServiceBytes` | crates/libongrok/src/lib.rs:351-361 | a service is encoded as id, name, node, protocol, local address, public host, public port and metadata |
| `WireBytes.HeartbeatBytes` | crates/libongrok/src/lib.rs:362-371 | a heartbeat is its number, its time and its five readings in order |
| `WireBytes.OpenStreamBytes` | crates/libongrok/src/lib.rs:390-444 | OpenStream carries the tunnel's id first, then the service's |
| `WireBytes.TwoByteVarint` | crates/libongrok/src/lib.rs:454-462 | varints carry seven bits a byte, the low ones first, the high bit set on all but the last |
| `WireBytes.SignedBytes` | crates/libongrok/src/lib.rs:454-462 | signed numbers are encoded alternately: 0, -1, 1, -2, 2 as 0, 1, 2, 3, 4 |
| `WireBytes.HeaderBytes` | crates/libongrok/src/lib.rs:454-462 | the length in front is four bytes, the high one first |
| `WireBytes.UnknownTags` | crates/libongrok/src/lib.rs:487-489 | tags above the last frame, protocol, token kind and option are refused |
| `WireBytes.LongestFrame` | crates/libongrok/src/lib.rs:464-485 | a header is refused exactly if the length is zero or above one mebibyte |
| `WireBytes.WhatStops` | crates/libongrok/src/lib.rs:464-489 | a zero length and one above the limit are told apart and left in the buffer; a malformed payload is consumed |
| `Framing.ChunkingInvariant` | crates/libongrok/src/lib.rs:464-485 | for any split of any byte stream into chunks: the same frames and leftover as one call on the whole, or the same first error after the same frames |
| `Framing.LeftoverIsIncomplete` | crates/libongrok/src/lib.rs:464-485 | after success the leftover is incomplete and shorter than four bytes plus the frame limit |
| `Framing.ReadersAgree` | crates/ongrok-relay-server/src/wire.rs:7-24 | on every byte string the stream reader and the buffer decoder see the same first frame, lack of one, or both reject |
| `Framing.ReadAllIsParseAll` | crates/ongrok-relay-server/src/wire.rs:7-24 | reading frame by frame gives the frames of the buffer decoder |
| `Handshake.JointAlways` | crates/ongrok-relay-client/src/main.rs:635-719 | the tight relation between both programs and both channels, in every run with failures at any point and other connections changing the server |
| `Handshake.NoDeadlock` | crates/ongrok-relay-server/src/server.rs:262-375 | in every reachable state neither program can move exactly if both are over |
| `Handshake.NothingUnexpected` | crates/ongrok-relay-client/src/main.rs:643-717 | at most two frames to the server and one to the client in flight; the client never meets an invalid response, the server never an unexpected first or second frame |
| `Handshake.HeartbeatsInStep` | crates/ongrok-relay-client/src/main.rs:694-710 | a heartbeat that reaches the server comes from a registered connection; every acknowledgement carries the awaited sequence number |
| `Handshake.HeartbeatsNumbered` | crates/ongrok-relay-client/src/main.rs:693-710 | the heartbeats of a run are numbered 1, 2, 3 and so on, wrapping as a `u64` |
| `Handshake.PublishedAddress` | crates/ongrok-relay-client/src/main.rs:667-691 | the client offers a local address only under an id that an earlier step of the server accepted for it, and it is the address submitted with that registration |
| `EndToEnd.DialledIsRegistered` | crates/ongrok-relay-client/src/main.rs:891-918 | over a whole control run and a whole data stream: a server that relays to a client has it connected to the address submitted with a registration the server accepted, and put in its table, under that service's id |
| `Handshake.HandshakeCompletesOnlyIf` | crates/ongrok-relay-server/src/server.rs:262-292 | past the handshake the versions agree and an earlier step found the token among the server's |
| `Handshake.ServedAsGranted` | crates/ongrok-relay-server/src/server.rs:282-293 | in every run a server in its loop serves the node id of the client's Auth, as the kind that the tokens of an earlier step gave for the client's token |
| `Handshake.AcceptanceNamesKind` | crates/ongrok-relay-server/src/server.rs:293 | an AuthAccepted in flight, or about to be written, names that kind |
| `Handshake.SessionAsGranted` | crates/ongrok-relay-server/src/server.rs:301-308 | the session its RegisterNode enters is filed under that node, connection and kind |
| `Handshake.ClientGoesOnIff` | crates/ongrok-relay-client/src/main.rs:643-710 | which answer each waiting point accepts, and which it reports as a refusal |
| `Handshake.LoopEnds` | crates/ongrok-relay-server/src/server.rs:369-400 | the handler returns exactly on Goodbye; having returned, or failed over Yamux, it leaves no current session of its own; failing over QUIC leaves the state as it is |
| `Handshake.AnswersWritten` | crates/ongrok-relay-server/src/server.rs:327-378 | what the server writes in answer to each frame: the number and time of a heartbeat, the record a registration was accepted with, an error for anything else, nothing for node data, withdrawals and Goodbye |
| `Handshake.SameBuildsAgree` | crates/ongrok-relay-server/src/server.rs:262-280 | two builds of this protocol version never part over it |
| `Handshake.OnceRunsEnd` | crates/ongrok-relay-client/src/main.rs:711-718 | with `--once`, a run has at most 43 steps of the two programs and failures, however others interleave |
| `Handshake.EndsMatch` | crates/ongrok-relay-client/src/main.rs:635-719 | without failures both sides are over exactly in one of five matching pairs of endings |
| `Handshake.EndsWellIff` | crates/ongrok-relay-server/src/server.rs:278-357 | a finished run of equal versions without failures ended with the client done and its Goodbye read if and only if no step found the token unknown, the node data unacceptable or the service refused |
| `Handshake.RegistrarKeepsAddresses` | crates/ongrok-relay-server/src/server.rs:403-474 | what a registration accepts carries the submitted local address |
| `Tunnel.ReadsPreamble` | crates/ongrok-relay-server/src/wire.rs:7-24 | whatever part of a control frame and the data behind it has arrived, the reader waits or takes exactly the frame |
| `Tunnel.OpenedMeansDialled` | crates/ongrok-relay-server/src/server.rs:752-769 | the server relays only after the client dialled the address published for that service and echoed this tunnel id; no unexpected answer |
| `TunnelOpening.AnswerDecides` | crates/ongrok-relay-server/src/server.rs:762-769 | an acknowledgement opens the tunnel, an error refuses it, an answer cut short fails it |
| `TunnelOpening.OpeningDecides` | crates/ongrok-relay-client/src/main.rs:878-895 | the client goes on to dial the published address exactly for a whole request for a published service |
| `TunnelOpening.DialDecides` | crates/ongrok-relay-client/src/main.rs:895-918 | a connection is answered with the acknowledgement of this tunnel, a failure with an error and no connection |
| `TunnelOpening.AnyAnswerDecides` | crates/ongrok-relay-server/src/server.rs:762-769 | whatever frame arrives, only the acknowledgement of this tunnel opens it; an error is a rejection, any other frame invalid |
| `TunnelOpening.AnyRequestDecides` | crates/ongrok-relay-client/src/main.rs:878-895 | whatever frame arrives, only a request for a published service is dialled for, under the tunnel it names |
| `TunnelOpening.ReadsUnlessIncomplete` | crates/ongrok-relay-server/src/wire.rs:7-24 | either side's read waits exactly while the frame is incomplete and its stream open; otherwise it decides |
| `TunnelOpening.WrittenOutFirst` | crates/ongrok-relay-client/src/main.rs:918-919 | a side starts to relay only with its own control frame written out |
| `TunnelOpening.NoEarlyData` | crates/ongrok-relay-server/src/server.rs:755-769 | no byte of the visitor's leaves its socket before the acknowledgement, and nothing reaches either endpoint before the client's answer is out |
| `Tunnel.TunnelTransparent` | crates/ongrok-relay-server/src/relay.rs:77-92 | in every run with aborts and broken streams, bytes delivered are a prefix of bytes sent, and all of them once a chain of orderly ends has arrived; a reader cannot see whether an end was orderly |
| `TunnelEnds.EndCompleteIff` | crates/ongrok-relay-server/src/relay.rs:80-89 | a far end of an opened tunnel that sees an end of file has received everything if and only if no step discarded bytes of that direction: a side leaving with some still to pass on, a connection breaking with some in flight, or some written to a way already cut |
| `TunnelEnds.FaultlessEndIsComplete` | crates/ongrok-relay-server/src/relay.rs:77-92 | in a run in which nothing aborts or breaks, an end at the far end of an open tunnel comes after every byte and after the sender's own end |
| `TunnelEnds.OrderlyEndStays` | crates/ongrok-relay-server/src/relay.rs:77-92 | a side that leaves never turns an orderly end into a cut; at the far end nothing does |
| `TunnelEnds.AbortTruncates` | crates/ongrok-relay-client/src/main.rs:921-933 | a run in which the client aborts with a byte in hand and the visitor sees an end of file without it |
| `Tunnel.SettledIffDelivered` | crates/ongrok-relay-client/src/main.rs:918-933 | once open and both endpoints have ended, a relay without failures comes to rest exactly when both have received everything and its end |
| `CopyFlow.MoveKeepsConserved` | crates/ongrok-relay-server/src/relay.rs:80-89 | no step of two chained copy loops loses, makes up or reorders a byte |
| `CopyFlow.StuckIsDelivered` | crates/ongrok-relay-server/src/relay.rs:80-89 | loops that cannot move have delivered all and its end, and conversely |
| `CopyFlow.MoveDoesWork` | crates/ongrok-relay-server/src/relay.rs:80-89 | every step of the loops lessens the work left, so delivery ends |
| `Metrics.MetricStore.PutMetric` | crates/ongrok-relay-server/src/store.rs:188-227 | one put leaves its metric and, of all nodes' others, exactly those recorded at most 259200000 milliseconds before it |
| `Metrics.MetricStore.MetricsForNode` | crates/ongrok-relay-server/src/store.rs:229-248 | exactly the node's stored metrics, ascending by key |
| `Metrics.CutoffIsThreeDays` | crates/ongrok-relay-server/src/store.rs:16 | comparing with the saturating cutoff is comparing the plain difference with three days, over all of `i64`; near the bottom, where it saturates, nothing is dropped |
| `Metrics.RetentionClosedForm` | crates/ongrok-relay-server/src/store.rs:205-224 | for any sequence of puts at any `i64` times: a metric is held exactly if it was the last under its key and neither its own nor a later put has a time more than 259200000 above its own |
| `Metrics.MonotoneRetention` | crates/ongrok-relay-server/src/store.rs:205-224 | with a clock that never goes back: exactly the last under their keys whose time is at most 259200000 below that of the latest put |
| `Metrics.QueryNumericIff` | crates/ongrok-relay-server/src/store.rs:229-248 | a query is ascending in (time, sequence) if and only if no two of its times are both negative and different |
| `Keys.NumeralOrder` | crates/ongrok-relay-server/src/store.rs:190-193 | fixed-width numerals compare as their numbers |
| `Keys.UuidTextInjective` | crates/ongrok-relay-server/src/store.rs:190-193 | equal UUID texts are equal UUIDs |
| `Keys.UuidShape` | crates/ongrok-relay-server/src/store.rs:190-193 | the text of an id: where its hyphens and digits are |
| `Keys.TimestampTexts` | crates/ongrok-relay-server/src/store.rs:190-193 | the text of a time or number is twenty characters: its decimal digits behind zeros, after a minus sign for a negative time |
| `Keys.PrefixExact` | crates/ongrok-relay-server/src/store.rs:230-241 | the prefix test selects exactly one node's keys |
| `Keys.KeyInjective` | crates/ongrok-relay-server/src/store.rs:190-193 | a key identifies node, time and sequence number |
| `Keys.KeyOrderIsNumericIff` | crates/ongrok-relay-server/src/store.rs:190-193 | key order is numeric order except exactly for two different negative times |
| `Keys.NegativeTimesReverse` | crates/ongrok-relay-server/src/store.rs:190-193 | the keys of times -2 and -1 sort in reverse |
| `Routing.HostsUnambiguous` | crates/ongrok-relay-server/src/server.rs:411-425 | two HTTP or HTTPS services with one host are the same service, even across domains |
| `Routing.RouteIgnoresOrder` | crates/ongrok-relay-server/src/ingress.rs:190-199 | the route is the same for every iteration order of the table |
| `Routing.HeaderBeforeAuthority` | crates/ongrok-relay-server/src/ingress.rs:151-182 | a readable Host header decides, otherwise the authority; without either the answer is that the host is missing |
| `Routing.RouteOutcomes` | crates/ongrok-relay-server/src/ingress.rs:147-199 | "api." under the domain, in any case, is the server's own; any other host goes to the service with its protocol and host, and is unknown exactly if there is none |
| `Routing.FindIff` | crates/ongrok-relay-server/src/ingress.rs:190-199 | the lookup gives an id exactly if that service has the protocol and host |
| `Routing.SpellingIff` | crates/ongrok-relay-server/src/ingress.rs:183-189 | a Host header leads to a host exactly if the host has no upper-case letter and no colon and the header is it in any ASCII case followed by a colon and anything or, unless it ends in a dot itself, by dots only |
| `Routing.RoutedIff` | crates/ongrok-relay-server/src/ingress.rs:147-199 | a service under the current domain, whatever that is, gets exactly the requests that spell its host, unless it is named "api" |
| `Routing.ApiServiceNeverRouted` | crates/ongrok-relay-server/src/ingress.rs:147-167 | such a service is admitted, and requests for its host go to the server's own API or nowhere |
| `Routing.ReachableIff` | crates/ongrok-relay-server/src/ingress.rs:183-189 | some header leads to a host exactly if it has no upper-case ASCII letter and no colon |
| `Routing.DomainReachableIff` | crates/ongrok-relay-server/src/server.rs:447-451 | the hosts of a domain are reachable exactly if the domain has no upper-case ASCII letter and no colon |
| `Routing.RegisteredButUnrouted` | crates/ongrok-relay-server/src/server.rs:446-453 | under any other domain a service is registered and no Host header leads to its host |
| `Routing.MixedCaseDomainAccepted` | crates/ongrok-relay-server/src/config.rs:218-222 | the configuration accepts such a domain |
| `Routing.DotBeforePortNotRouted` | crates/ongrok-relay-server/src/ingress.rs:183-189 | a dot before the port is not a spelling of a host that does not end in one |
| `Routing.TrailingDotNeedsColon` | crates/ongrok-relay-server/src/ingress.rs:183-189 | a host of a domain with a trailing dot is reached exactly with a colon after it, never bare |
| `Headers.HeaderMap.StripHopByHopHeaders` | crates/ongrok-relay-server/src/ingress.rs:237-260 | the removal loops leave what the specification says |
| `Headers.StrippedIff` | crates/ongrok-relay-server/src/ingress.rs:237-260 | a field is kept, with all its values, exactly if it is not in the fixed list and no readable Connection value lists it between commas in any case and spacing |
| `Headers.FixedNames` | crates/ongrok-relay-server/src/ingress.rs:237-260 | the eight names that are always removed |
| `Headers.TokenChars` | crates/ongrok-relay-server/src/ingress.rs:237-260 | which characters a listed name may have |
| `Headers.TokenLengths` | crates/ongrok-relay-server/src/ingress.rs:237-260 | a listed name has 1 to 65535 characters |
| `Headers.ReadableChars` | crates/ongrok-relay-server/src/ingress.rs:237-260 | which values are readable, and which of their characters are trimmed |
| `Headers.StrippingIsIdempotent` | crates/ongrok-relay-server/src/ingress.rs:237-260 | stripping twice is stripping once |

## Left out

- Control.HandleFrame: one frame is one step; the separate lock acquisitions inside validate-then-insert and
  check-then-remove, and a store failure in the middle of a frame, are not interleaved. Lock-level interleaving
  is modelled for the service handlers only (`Interleaving`).
- Lifecycle.OnlineIffSession: runs are restricted to heartbeats on registered, open connections; what happens
  outside is stated exactly by `Lifecycle.HeartbeatOnlineIff`.
- Interleaving.AgreementAlwaysHolds: assumes successful commits and no two handlers on one service; which
  handlers may meet is the subject of `Schedules.SchedulesAgreeIff`.
- Schedules.SchedulesAgreeIff: pending registrations are not part of it; whether one is admitted, and under which
  id, depends on the names and ports in the whole table when it runs.
- Handshake.NoDeadlock: frames travel whole; their bytes are the subject of `ControlStream`. A heartbeat
  sequence wraps as an unchecked `u64` does. The sleep between heartbeats and the retry loop are left out.
- Tunnel.OpenedMeansDialled: starts after `open_client_stream` has found the service, its node's session and a
  stream; both ten-second timeouts are steps that may happen at any time.
- ControlStream.ByteStream.ReadControlFrame: the stream is one whose peer has closed; a reader that waits for
  more bytes is modelled in `Tunnel`.
- Metrics.MetricStore.PutMetric: the table holds metrics rather than their encodings, and the transaction
  commits; records that do not decode are not modelled.
- Headers.HeaderMap.StripHopByHopHeaders: the order among different field names, which removal may change, is
  not modelled; the values of one field keep their order.
- TLS, QUIC and Yamux internals, socket adapters and certificate loading: foreign libraries.
- Interleaving.QuiescentStoreIsTable: listening means having an entry in the task map; a listener task that ends
  on an accept error (crates/ongrok-relay-server/src/relay.rs:54-58) keeps its entry, so that a registration of the
  same id then starts no new one. That is not modelled.
- Operating-system binds beyond one owner per port plus ports held by others; an aborted listener frees its port
  at once.
- redb failures other than a failed commit in `Interleaving`; database files and transactions.
- Clocks, randomness, BLAKE3 and Ed25519: readings, fresh ids, hashes and keys are parameters.
- `f32` readings are bit patterns; error message texts are arbitrary strings.
- Event ids, the event query, and events other than node and service ones.
- The remaining HTTP API, JSON shapes, CORS, command line, configuration checks, doctor and the web console: glue
  that would only add easy members.
