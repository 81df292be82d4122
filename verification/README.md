# A verified model of Vole's sniffing, scheduling and proxy-graph core

Vole is a proxy core. This project models the parts of it that keep state while
bytes and datagrams arrive in any order: the QUIC Initial observer and the
per-association scheduler that buffers datagrams for it, the first-payload
sniffer for TCP, the XUDP transport, the proxy dependency graph with its endpoint
preparation and run-time resolution, the association table of the TUN device, its
output multiplexer, and the pool for synchronous socket setup. The properties
proved are about every input, every run or every interleaving.

`dafny verify dfyconfig.toml` checks the whole project.

## How the model is laid out

| files | what they model |
|---|---|
| `quic_wire`, `ranges`, `crypto_stream`, `quic_frames`, `quic_sniffer`, `quic_observer`, `quic_delivery` | the QUIC Initial observer: wire formats, range merging, CRYPTO reassembly as a partial map from offset to byte, frames, the packet walk as a function on values, the class that stores it as buffer and ranges, and what whole runs of datagrams decide |
| `quic_flows`, `quic_conservation`, `quic_scheduler`, `runs`, `udp_association`, `quic_identity`, `quic_routing`, `quic_sends` | the scheduler as a step on a table of flows, what every run of steps conserves, the class that keeps counters, runs of any turn-by-turn loop, the event loop around the scheduler, the scheduler driven by the real sniffer, and the way of a hello's domain to its datagrams and to the association's sends |
| `client_hello`, `tls_records`, `http_host`, `tcp_sniffer` | the ClientHello parser, TLS record reassembly, the HTTP host parser, and the incremental sniffer |
| `dag`, `proxy_graph`, `proxy_endpoints`, `proxy_build`, `measure` | Kahn's algorithm with multi-edges, the graph of proxies and select groups, which servers are resolved at start, construction and run-time resolution, and the single-chain checker |
| `destinations`, `frame_stream`, `xudp_frames`, `xudp` | the port-first destination codec, resumable decoding of any prefix-stable frame format, XUDP frames, and the transport |
| `udp_ingress`, `output_mux`, `socket_setup` | associations by generation, the three-lane multiplexer, and socket setup under shutdown |
| `port_ranges`, `base` | sniffer port sets, shared types |

Code that updates state in place is a class or a method with loops, proved to
compute a function of the old state; the theorems are about those functions.
Cryptography is a parameter (`QuicSniffer.Protection`): key derivation, header
unmasking and packet opening are arbitrary functions. Time is a natural number
given with each event. Nondeterminism of the code (hash-map iteration order,
ties between equally old flows, which lane wakes a reader, where a call is
dropped) is a choice quantified over.

Two results deserve a note. The early HTTP decision taken alone is not stable
under more input: `GET` followed by a lone CR is rejected, and the completed line
end asks for more again. `HttpHost.EarlyDecisionIsNotMonotone` gives the input,
`HttpHost.EarlyRevival` says exactly when this happens, and
`HttpHost.RejectionIsFinal` proves what the sniffer needs, that a rejected prefix
never has a matching extension. In the XUDP reader the check for a destination
that ends past its metadata cannot fire, because the destination decoder only
sees the metadata; the model has no such branch.

## Model

| member | source | states |
|---|---|---|
| QuicFlows.StepKeeps | src/tun_runtime.rs:1441-1833 | every event keeps the table legal: at most 4 flows, pending data within 8 datagrams and 32 KiB, each pending flow holding only its own datagrams with its identity on the first and nowhere else |
| QuicFlows.DecideAccounts | src/tun_runtime.rs:1466-1569 | whatever branch a datagram takes, datagrams held plus the one that arrived are those released plus those held now, and what is held grows only by this datagram and only within the budget shown |
| QuicFlows.DecideBytes | src/tun_runtime.rs:1466-1569 | whatever branch a datagram takes, bytes held plus bytes arrived are bytes released plus bytes held now |
| QuicFlows.DecideOk | src/tun_runtime.rs:1466-1701 | every branch of the per-flow decision leaves a well-formed pending flow or a completed one |
| QuicFlows.ArriveKeeps | src/tun_runtime.rs:1466-1569 | an arrival, with whatever victim the code may evict, keeps the table legal |
| QuicFlows.ArriveCount | src/tun_runtime.rs:1466-1569 | an arrival is either released now or pending afterwards, never both and never neither |
| QuicFlows.ExpireKeeps | src/tun_runtime.rs:1798-1825 | expiry in any order keeps the table legal |
| QuicFlows.ExpireLoad | src/tun_runtime.rs:1798-1825 | the datagrams expiry releases are exactly as many as stop being pending, and the pending bytes never grow |
| QuicFlows.ExpireBytes | src/tun_runtime.rs:1798-1825 | the bytes expiry releases are exactly those that stop being pending |
| QuicFlows.StepBytes | src/tun_runtime.rs:1466-1833 | one event conserves bytes: pending plus arrived is released plus pending afterwards |
| QuicFlows.VictimCompleted | src/tun_runtime.rs:1736-1757 | an evicted flow is never a pending one |
| QuicFlows.EvictionKeepsLoad | src/tun_runtime.rs:1736-1757 | eviction changes no pending total |
| QuicFlows.AdoptOk | src/tun_runtime.rs:1528-1549 | adopting a late identity keeps the flow well formed, its deadline, its byte count and the datagram in every place |
| QuicConservation.DecidePreserves | src/tun_runtime.rs:1466-1701 | per decision, datagrams keep payload and order and identities are emitted once, except for one overtaking Initial that is released alone |
| QuicConservation.OvertakingIsAlone | src/tun_runtime.rs:1528-1558 | the only datagram that passes held ones is an Initial of another connection that no sniffer authenticates, and it leaves the flow as it was |
| QuicConservation.ExpiryReleases | src/tun_runtime.rs:1798-1825 | a flow that expires releases everything it held, in arrival order, and a flow that does not releases nothing |
| QuicConservation.ExpiryInTurn | src/tun_runtime.rs:1798-1825 | expiry hands out one flow after the other, each flow's datagrams contiguously |
| QuicConservation.EventStream | src/tun_runtime.rs:1466-1825 | one event moves each destination's stream: held then arrived is released then held |
| QuicConservation.RunKeepsTable | src/tun_runtime.rs:1441-1833 | in every run the table is legal, so no flow count and no budget is ever exceeded |
| QuicConservation.RunConserves | src/tun_runtime.rs:1466-1833 | in every run each datagram is released once or still buffered once, with its payload unchanged |
| QuicConservation.RunInOrder | src/tun_runtime.rs:1466-1833 | in every run the datagrams of a destination leave in arrival order, overtaking Initials aside |
| QuicConservation.RunIdentities | src/tun_runtime.rs:1528-1701 | in every run the identities emitted for a destination are exactly those authenticated for it, each once and in order |
| QuicIdentity.IngestKeyed | src/quic_sniffer.rs:141-251 | feeding a datagram keeps the owner of the decryption keys, or names it for the first time exactly when a packet authenticates |
| QuicIdentity.PendingNamed | src/tun_runtime.rs:1528-1566 | a pending flow driven by the real sniffer stays named after the connection its keys belong to |
| QuicIdentity.RunNamed | src/tun_runtime.rs:1441-1833 | in every run with the real sniffer, a pending flow's identity is the version and DCID its keys were derived from, and it has none before a packet authenticates |
| QuicRouting.NextArrival | src/tun_runtime.rs:1528-1567 | a datagram its flow's sniffer takes in is held behind the others, if it fits while the matter is open, or all of them leave with the domain it completes, whether it would fit or not |
| QuicRouting.OtherArrival | src/tun_runtime.rs:1466-1757 | what arrives for another destination, evictions included, leaves a collecting flow as it was and releases none of its datagrams |
| QuicRouting.RoutedTogether | src/tun_runtime.rs:1441-1833 | in every run in which a destination's undecided datagrams fit the budgets and its datagrams reach the sniffer one by one until it finds a domain before the deadline, all of them leave together with that domain, in arrival order, whatever other destinations do |
| QuicRouting.HelloRouted | src/tun_runtime.rs:1441-1833 | the same with the real sniffer and a hello cut into frames over the datagrams: one arrival completes it, and all datagrams up to it leave in arrival order with the domain the hello names |
| QuicSends.HelloSent | src/tun_runtime.rs:1441-2069 | the same for the association loop: whatever came before, its output for that destination has the hello's datagrams right behind what left earlier, in order and with the domain; its sends are the first part of that output, and all of it when nothing is queued |
| QuicScheduler.PrependReplay | src/tun_runtime.rs:1413-1431 | buffered datagrams go in front of the new result, nothing lost or reordered |
| QuicScheduler.SniffState.NextDeadline | src/tun_runtime.rs:1456-1464 | the earliest deadline of a pending flow, none exactly when no flow is pending |
| QuicScheduler.SniffState.ReleasePending | src/tun_runtime.rs:1827-1833 | subtracting a pending flow never saturates and leaves the counters at the true sums |
| QuicScheduler.SniffState.MakeRoomForFlow | src/tun_runtime.rs:1736-1757 | evicts a least recently used completed flow exactly when the table is full; fails exactly when every flow is pending |
| QuicScheduler.SniffState.CommitStartedFlow | src/tun_runtime.rs:1632-1701 | a started flow is stored and counted as the table-level start says |
| QuicScheduler.SniffState.FinishPending | src/tun_runtime.rs:1767-1796 | finishing releases all that was held, with the domain on each |
| QuicScheduler.SniffState.ApplyPendingOutcome | src/tun_runtime.rs:1703-1734 | buffer or finish, as the table-level step says, with counters kept |
| QuicScheduler.SniffState.FailOpenUnsupportedVersion | src/tun_runtime.rs:1571-1616 | an unsupported version releases everything held for the destination and remembers it without a domain when there is room |
| QuicScheduler.SniffState.StartFlow | src/tun_runtime.rs:1618-1630 | starts a flow when room can be made, forwards otherwise |
| QuicScheduler.SniffState.IngestPending | src/tun_runtime.rs:1528-1567 | the branches for a pending flow refine the table-level decision |
| QuicScheduler.SniffState.IngestCompleted | src/tun_runtime.rs:1482-1527 | the branches for a completed flow refine the table-level decision |
| QuicScheduler.SniffState.IngestDatagram | src/tun_runtime.rs:1466-1569 | the mutating scheduler refines the table-level arrival: same table, same releases, counters equal to the true sums |
| QuicScheduler.SniffState.Expire | src/tun_runtime.rs:1798-1825 | completes exactly the pending flows whose deadline has passed, in some order, releasing what they held |
| QuicScheduler.RoomIsRoom | src/tun_runtime.rs:1466-1480 | the room the code finds after taking the entry out is the room the table-level step grants |
| UdpAssociation.AppendReady | src/tun_runtime.rs:1912-1927 | refuses exactly when the replay queue would pass its fixed capacity |
| UdpAssociation.StepCount | src/tun_runtime.rs:1466-1833 | released plus pending grows by at most the one datagram that arrived |
| UdpAssociation.ExtendAt | src/tun_runtime.rs:1986-2018 | handing a scheduler step's releases on keeps the loop's output faithful for every destination |
| UdpAssociation.LogMatches | src/tun_runtime.rs:1929-2069 | for every log the loop can write, its outputs are the scheduler's releases on sniffed ports and the accepted datagrams unchanged on others |
| UdpAssociation.LogReplay | src/tun_runtime.rs:1986-1988 | a replay goes behind whatever waits and always fits the queue |
| UdpAssociation.Association.OnDeadline | src/tun_runtime.rs:1986-1988 | expired flows join the replay queue, which has room for them |
| UdpAssociation.Association.OnReadySend | src/tun_runtime.rs:1989-1997 | sends the oldest queued datagram; any failure ends the loop with the sends still faithful |
| UdpAssociation.Association.OnPlain | src/tun_runtime.rs:1998-2018 | a datagram for a port that is not sniffed is queued unchanged |
| UdpAssociation.Association.OnSniffed | src/tun_runtime.rs:1998-2018 | a datagram for a sniffed port is queued as the scheduler released it; the pending-send slot was free |
| UdpAssociation.Association.Turn | src/tun_runtime.rs:1969-2050 | one turn takes exactly the first ready branch of the biased select, and says per poll what is logged, what is sent and whether the loop goes on; it keeps the queue bound and the faithful output and never reports an overflow |
| UdpAssociation.Association.Run | src/tun_runtime.rs:1929-2069 | turn after turn over any schedule of polls, until it is used up or the loop ends |
| UdpAssociation.TurnAdmits | src/tun_runtime.rs:1969-2050 | a turn accepts the inbound datagram of its poll exactly when it comes to the inbound branch |
| UdpAssociation.RunAccepts | src/tun_runtime.rs:1929-2069 | what a run has accepted is, in order, the inbound datagrams of the polls whose turn came to the inbound branch |
| UdpAssociation.RunAssociation | src/tun_runtime.rs:1929-2069 | for every schedule of polls the replay-queue-exceeded error is unreachable, the accepted datagrams are those the polls let in, the sends are an initial part of a faithful output, and while the loop runs the queue is exactly the rest of it |
| Ranges.MergeRanges | src/quic_sniffer.rs:692-705 | sorted, non-empty, separated ranges covering exactly the same offsets |
| Ranges.CanonicalUnique | src/quic_sniffer.rs:692-705 | the covered set determines the canonical range list |
| Ranges.CanonicalLength | src/quic_sniffer.rs:311-340 | the number of ranges is the number of maximal runs of covered offsets, so the limit is about the data and not about arrival order |
| QuicWire.VarintExact | src/quic_sniffer.rs:632-643 | decoding gives a value and a size exactly when that encoding of the value stands at the cursor |
| QuicWire.ReadVarint | src/quic_sniffer.rs:632-643 | the byte loop computes the varint of section 16 of RFC 9000 and never moves the cursor past the input |
| QuicWire.VarintFitsIn62Bits | src/quic_sniffer.rs:632-643 | no varint exceeds 2^62 - 1 |
| QuicWire.VarintRoundTrip | src/quic_sniffer.rs:632-643 | every admissible encoded size reads back the same value wherever it stands |
| QuicWire.VarintReencodes | src/quic_sniffer.rs:632-643 | whatever decodes is an encoding of the value it decodes to |
| QuicWire.ParseLongHeader | src/quic_sniffer.rs:464-552 | an accepted header has a known version, a DCID of 1 to 20 bytes, an end inside the packet, and an Initial with room for its protected part |
| QuicWire.LongHeaderRoundTrip | src/quic_sniffer.rs:464-552 | every well-formed packet other than Retry reads back as built, whatever is coalesced behind it |
| QuicWire.ConnectionObservation | src/quic_sniffer.rs:398-450 | the walk over coalesced packets computes the recursive observation and terminates in bounds |
| QuicWire.CoalescedInitialObserved | src/quic_sniffer.rs:398-450 | 0-RTT and Handshake packets in front of an Initial never hide its identity |
| QuicWire.RoutingIdentityInjective | src/quic_sniffer.rs:88-95 | two parsed keys with the same 25-byte identity are equal |
| QuicWire.RecoverExact | src/quic_sniffer.rs:615-630 | for one to four bytes and every number in the half-window around the expected one, the candidate nearest to it is the true number |
| QuicWire.PacketNumberExact | src/quic_sniffer.rs:615-630 | packet-number reconstruction returns the true number from its truncation on the whole window of Appendix A.3 of RFC 9000 |
| CryptoStream.InsertAllExact | src/quic_sniffer.rs:311-340 | a series of fragments is accepted exactly when they agree pairwise and no insertion breaks the range limit, and the result is then their union |
| CryptoStream.RefusalReason | src/quic_sniffer.rs:311-340 | a refused series is refused at its first unacceptable fragment, for a conflict even where the range limit is broken too; consistent fragments are refused only for the limit, fragments within the limit only for a conflict |
| CryptoStream.OrderIndependent | src/quic_sniffer.rs:311-340 | any two accepted orders of the same fragments give the same stream |
| CryptoStream.DecisionPersists | src/quic_sniffer.rs:342-374 | a decisive ClientHello result is the result of every stream that knows more |
| CryptoStream.FragmentedHello | src/quic_sniffer.rs:311-374 | a ClientHello whose fragments cover it is judged as if it had come whole |
| CryptoStream.KnownHello | src/quic_sniffer.rs:342-374 | the judgement depends only on received bytes, never on zero-filled gaps |
| QuicObserver.StoredIdentically | src/quic_sniffer.rs:311-340 | the stream determines the buffer, gaps included, and the ranges |
| QuicObserver.Observer.Conflicts | src/quic_sniffer.rs:311-340 | finds an overlap with different bytes exactly when there is one |
| QuicObserver.Observer.InsertCrypto | src/quic_sniffer.rs:311-340 | the in-place insertion refines the insertion into a partial map and keeps the buffer within 16 KiB and 64 ranges; a refusal changes nothing |
| QuicObserver.Observer.TryClientHello | src/quic_sniffer.rs:342-374 | decides from the buffer exactly what the stream decides |
| QuicObserver.Observer.ReadFrames | src/quic_sniffer.rs:253-309 | the frame loop applies exactly the CRYPTO data of the payload, in order, up to the first refusal |
| QuicObserver.Observer.IngestInitialPacket | src/quic_sniffer.rs:208-251 | the mutating packet step refines the value-level one; a packet that does not authenticate changes nothing |
| QuicObserver.Observer.IngestDatagram | src/quic_sniffer.rs:141-202 | the mutating datagram walk refines the value-level one |
| QuicFrames.SkipAckFrame | src/quic_sniffer.rs:645-671 | skips exactly the announced ranges and ECN counts, refusing 64 or more ranges and truncation |
| QuicFrames.SkipCloseFrame | src/quic_sniffer.rs:673-690 | skips exactly the announced reason |
| QuicFrames.ReadCryptoFrame | src/quic_sniffer.rs:253-309 | offset, length and data of a CRYPTO frame, with its limit and truncation errors |
| QuicFrames.ReadOneFrame | src/quic_sniffer.rs:253-309 | one frame as the specification reads it |
| QuicFrames.FrameAt | src/quic_sniffer.rs:253-309 | every valid PADDING, PING, ACK with or without ECN counts, CRYPTO and CONNECTION_CLOSE frame is read back wherever it stands, with the data it carries |
| QuicFrames.PayloadRoundTrip | src/quic_sniffer.rs:253-309 | every payload built from valid frames parses to its end and yields exactly the CRYPTO data they carry, in order |
| QuicFrames.ApplyExtends | src/quic_sniffer.rs:253-340 | applying a payload, refused or not, never takes a byte of the stream away |
| QuicSniffer.IngestInitial | src/quic_sniffer.rs:208-251 | without authentication nothing changes; with it the keys are the stored ones or those of the packet's own header |
| QuicSniffer.LooksAgree | src/quic_sniffer.rs:141-202 | one packet authenticates exactly the Initial the identity walk stops at, or both walks go on |
| QuicSniffer.WalkersAgree | src/quic_sniffer.rs:141-251 | if ingesting authenticates an Initial, the independent identity walk finds a key, and a fresh sniffer's keys come from exactly that version and DCID |
| QuicSniffer.PacketExtends | src/quic_sniffer.rs:141-251 | ingesting a packet, whatever comes of it, never takes a byte of the stream away |
| QuicSniffer.DecisionSurvives | src/quic_sniffer.rs:141-374 | a ClientHello decision survives every later datagram |
| QuicDelivery.IngestAgrees | src/quic_sniffer.rs:141-374 | every datagram whose Initials open and parse, up to its end or to a suffix the walk stops at, is judged as the stream of everything delivered so far, and authenticates exactly when it opens an Initial |
| QuicDelivery.RunIsStream | src/quic_sniffer.rs:141-374 | over any run of datagrams whose Initials open and parse, the verdict is the verdict on the union of their CRYPTO fragments |
| QuicDelivery.RepackagingIsInvisible | src/quic_sniffer.rs:141-374 | two such runs that deliver the same fragments, in any order and any packaging into frames, packets and datagrams, get the same verdict |
| QuicDelivery.LaterIgnored | src/quic_sniffer.rs:141-202 | datagrams after the deciding one do not change the verdict |
| QuicDelivery.DeliveredHello | src/quic_sniffer.rs:141-374 | a well-formed ClientHello cut into overlapping CRYPTO frames, mixed with other frames and spread over any Initials and datagrams within the limits, with whatever suffixes, is judged by its extensions alone |
| QuicDelivery.HelloDecides | src/quic_sniffer.rs:141-374 | if each of these datagrams opens an Initial, one of them decides: every one up to it authenticates, those before it ask for more, and it gives the verdict on the hello's extensions |
| ClientHello.ParseServerName | src/tcp_sniffer.rs:454-497 | one host name, or no match, exactly as the name list says |
| ClientHello.WalkExtensions | src/tcp_sniffer.rs:353-452 | the extension loop computes the declarative verdict, ECH and duplicates included |
| ClientHello.ParseClientHello | src/tcp_sniffer.rs:353-452 | the cursor parser computes the declarative outcome of the message |
| ClientHello.ExtensionsRoundTrip | src/tcp_sniffer.rs:404-452 | every encoded extension block parses back to its extensions |
| ClientHello.HelloRoundTrip | src/tcp_sniffer.rs:353-452 | every well-formed ClientHello is judged by its extensions, whatever its other fields |
| TlsRecords.TlsStable | src/tcp_sniffer.rs:244-351 | a TLS decision never changes when more of the stream arrives |
| TlsRecords.ReassembledStable | src/tcp_sniffer.rs:244-351 | a reassembled or refused message stays so when more of the stream arrives |
| TlsRecords.GatherRecords | src/tcp_sniffer.rs:282-314 | the record loop gathers what the recursive reassembler gathers |
| TlsRecords.SniffTlsSni | src/tcp_sniffer.rs:244-316 | the fast path and the reassembly path together compute the plain reassembler's outcome |
| TlsRecords.SplitIsInvisible | src/tcp_sniffer.rs:244-351 | every split of a length-consistent handshake message into non-empty records within 32 KiB is judged as the unsplit message |
| HttpHost.NoEarlyRegret | src/tcp_sniffer.rs:180-197 | if a longer input has a valid request line, no shorter one is rejected early |
| HttpHost.EarlyRevival | src/tcp_sniffer.rs:180-197 | a rejected input can be asked for more again exactly when it ends in a lone CR after a promising line |
| HttpHost.EarlyDecisionIsNotMonotone | src/tcp_sniffer.rs:180-197 | concrete input on which the early decision alone is not stable |
| HttpHost.RejectionIsFinal | src/tcp_sniffer.rs:138-197 | a rejected prefix has no matching extension |
| HttpHost.MatchIsFinal | src/tcp_sniffer.rs:138-178 | a match is kept by every extension |
| HttpHost.WalkHeaders | src/tcp_sniffer.rs:154-177 | the header loop computes the declarative host verdict |
| HttpHost.SniffHttpHost | src/tcp_sniffer.rs:138-197 | the HTTP parser computes the declarative outcome |
| TcpSniffer.DecisionsAreFinal | src/tcp_sniffer.rs:131-136 | no extension turns a rejection into a match or changes a match |
| TcpSniffer.Sniffer.ParseBuffered | src/tcp_sniffer.rs:131-136 | the outcome of the buffered prefix |
| TcpSniffer.Sniffer.Sniff | src/tcp_sniffer.rs:82-118 | from any retained prefix of at most 32 KiB: what was kept stays in front, buffer and unread bytes are the stream, nothing is read once the prefix decides; the report is that of the prefix where the loop stopped, and each reason for stopping undecided holds, a full buffer, an end with nothing left, a failed read, a deadline after at least a byte per read; a read that neither fails nor runs out of time matches exactly when the first 32 KiB do |
| TcpSniffer.TwoChunkings | src/tcp_sniffer.rs:82-118 | two chunkings of the same stream either report the same domain or neither reports one |
| TcpSniffer.SniffAgain | src/tcp_sniffer.rs:56-118 | dropped and resumed calls lose nothing and report what an undisturbed call could have; resumed often enough they match exactly when the first 32 KiB do |
| Dag.OrderedIsAcyclic | src/config/mod.rs:1975-2030 | a dependency-first order rules out every cycle |
| Dag.StuckIsCyclic | src/config/mod.rs:1975-2030 | nodes that all wait for one another contain a cycle |
| Dag.Release | src/config/mod.rs:2017-2022 | the inner loop takes one unmet dependency from each listed dependent, with multiplicity, and queues it at zero |
| Dag.Order | src/config/mod.rs:2005-2023 | the queue-driven ordering is complete exactly when there is no cycle, and is then a dependency order |
| ProxyGraph.AddDependency | src/config/mod.rs:1987-1991 | records one edge in both directions, or refuses an unknown target |
| ProxyGraph.AddMembers | src/config/mod.rs:1997-2003 | records every routed member with its multiplicity |
| ProxyGraph.RecordEdges | src/config/mod.rs:1985-2003 | the counts and dependents of exactly the configured graph, or unknown target exactly when a reference is out of range |
| ProxyGraph.OrderedTargets | src/config/mod.rs:2012-2016 | an order on node numbers is an order on proxies and groups |
| ProxyGraph.GraphOrder | src/config/mod.rs:1975-2030 | unknown target exactly when a reference is out of range; circular exactly when the graph, duplicate members included, has a cycle; otherwise every proxy and group once, each after all it may be routed through |
| ProxyEndpoints.FlagsAreReachability | src/runtime.rs:1012-1027 | the computed flags say exactly which groups reach DIRECT under some assignment of selected members |
| ProxyEndpoints.DirectGroups | src/runtime.rs:1012-1027 | the pass over the order leaves every group's flag consistent with its members |
| ProxyEndpoints.Restrict | src/runtime.rs:1089-1104 | without IPv6 exactly the IPv4 addresses remain, each as often as before, an error exactly when there is none; with IPv6 nothing changes |
| ProxyEndpoints.KeepV4Splits | src/runtime.rs:1089-1104 | filtering keeps the order of the addresses |
| ProxyEndpoints.Resolved | src/runtime.rs:1036-1077 | succeeds exactly when the lookup of every configured server leaves a permitted address, and then gives each leg what its own server's lookup leaves; legs on one server get the same endpoint |
| ProxyEndpoints.Collect | src/runtime.rs:1078-1087 | endpoints for exactly the proxies that need them, or the first failing lookup in index order |
| ProxyEndpoints.PrepareEndpoints | src/runtime.rs:1004-1087 | a proxy is prepared exactly when it has no dialer-proxy or some selection lets its group reach DIRECT; every error case has its exact condition |
| ProxyBuild.BuildPath | src/runtime.rs:971-1002 | with the dependencies built, a path fails exactly for an unprepared physical root |
| ProxyBuild.BuildConnector | src/runtime.rs:762-957 | upstream and download path of one proxy mirror its configuration |
| ProxyBuild.BuildGroup | src/runtime.rs:726-759 | every member is built from an existing node, in place |
| ProxyBuild.BuildAll | src/runtime.rs:722-963 | following the order no dependency is ever missing; fails exactly when a root is unprepared |
| ProxyBuild.BuildGraph | src/runtime.rs:662-969 | every node is built and mirrors its configuration; mismatched endpoints, an invalid graph and an unprepared root are reported exactly when they occur, in that order; the lifecycle order is dependency-first |
| ProxyBuild.ResolveSelect | src/outbound/connector.rs:460-474 | the selection loop ends at the first member that is not a group |
| ProxyBuild.ResolvePath | src/outbound/connector.rs:534-556 | direct, proxy, rejected, invalid selection or missing endpoint, exactly as the selected members say |
| ProxyBuild.LeafMatchesGraph | src/outbound/connector.rs:460-474 | a built group resolves to DIRECT exactly when the configured members lead there under that selection |
| ProxyBuild.DirectIsPrepared | src/outbound/connector.rs:534-556 | with prepared endpoints, under every selection no path lacks its endpoint, and a path that dials directly dials the proxy's own resolved server |
| ProxyBuild.PreparedIsBuildable | src/runtime.rs:993-1000 | prepared endpoints never fail the build |
| Measure.Heads | src/config/measure.rs:51-60 | exactly the proxies no other proxy dials through |
| Measure.WalkFrom | src/config/measure.rs:72-88 | follows dialer-proxies without repetition until there is none or one repeats |
| Measure.MeasureHead | src/config/measure.rs:49-99 | accepts exactly the configurations whose proxies form one chain, and returns its head |
| PortRanges.MergePortRanges | src/config/mod.rs:1738-1751 | the canonical sorted, non-adjacent form of the same set of ports |
| PortRanges.Overlap | src/config/mod.rs:1753-1765 | the scan with two cursors finds an overlap exactly when some port is in both sets |
| PortRanges.PortRangesContain | src/config/mod.rs:1767-1779 | bisection is plain membership |
| PortRanges.NormalizeSniffer | src/config/mod.rs:1617-1644 | accepts exactly configurations with something to sniff and disjoint HTTP and TLS ports, and keeps all three port sets |
| PortRanges.ConfiguredProtocol | src/tun_runtime.rs:856-864 | each protocol is chosen exactly on its own ports, so asking HTTP first never matters |
| Destinations.DecodesExactly | src/outbound/address.rs:64-150 | decoding gives a destination and a length exactly when the wire form of that valid destination stands in front |
| Destinations.EncodeDestination | src/outbound/address.rs:64-91 | only a domain longer than 255 bytes is refused |
| Destinations.DestinationRoundTrip | src/outbound/address.rs:64-150 | every valid destination reads back, whatever follows it |
| Destinations.DecodedReencodes | src/outbound/address.rs:64-150 | decoding yields only valid destinations, and re-encoding gives back the bytes read |
| FrameStream.DecodeResumes | src/xudp.rs:91-118 | decoding a stream resumes: earlier items stay and the unfinished frame is taken up again |
| FrameStream.FailureIsFinal | src/xudp.rs:120-249 | later bytes do not revise a failure |
| FrameStream.ReadPrefixDelivers | src/xudp.rs:120-249 | the items of a part are the first items of the whole |
| XudpFrames.StepBounds | src/xudp.rs:91-99 | a reader never asks for more than the buffer ceiling and always for more than it has |
| XudpFrames.StepExtends | src/xudp.rs:120-249 | more bytes change no conclusion, and nothing at all until the ones asked for are there |
| XudpFrames.ExactReadIsTight | src/xudp.rs:91-118 | reading exactly what was asked for never takes in a following frame |
| XudpFrames.EncodeFrame | src/xudp.rs:326-364 | encodable exactly when the payload is 1 to 65535 bytes and the destination encodes; the status byte says whether it is the first frame |
| XudpFrames.FrameRoundTrip | src/xudp.rs:120-364 | every KEEP data frame reads back its datagram, whatever follows |
| XudpFrames.StreamRoundTrip | src/xudp.rs:120-364 | a stream of KEEP frames decodes to exactly the datagrams encoded |
| XudpFrames.StepErrors | src/xudp.rs:91-99 | no frame is ever blamed for the buffer ceiling or for the stream itself |
| Xudp.FrameFor | src/xudp.rs:261-295 | only the first frame is NEW; every later one is the plain KEEP frame without the global id |
| Xudp.PeerReadsBack | src/xudp.rs:261-295 | a peer that has taken the opening frame reads every later datagram back |
| Xudp.Transport.Fill | src/xudp.rs:91-118 | reads exactly up to what is required and loses and reorders nothing; it stops short only for a dropped call that has used up its polls, each for at least a byte, for a stream that fails, or for one with nothing left |
| Xudp.Transport.ReadMetadata | src/xudp.rs:120-211 | the metadata stage concludes what the whole-frame reading concludes |
| Xudp.Transport.ReadPayload | src/xudp.rs:213-247 | the payload stage delivers the announced bytes and refuses a length over the ceiling before reading it |
| Xudp.Transport.ReadFrame | src/xudp.rs:120-249 | keepalive and dataless frames are consumed without becoming datagrams; progress survives in the buffer |
| Xudp.Transport.Receive | src/xudp.rs:297-309 | under any fragmentation and after any dropped calls, what has been delivered is the one-shot decoding of the bytes read; a datagram costs at least a byte, a dropped call has read one for each poll, a failing stream and its end are reported only when met; the buffer is a part of the current frame below the ceiling, and the ceiling error is unreachable |
| Xudp.Transport.Send | src/xudp.rs:261-295 | what is neither closed nor refused is sent exactly when the write completes, and its frame is then on the wire; otherwise exactly the part that went out is, and the association is closed; a refused datagram writes nothing |
| Xudp.Transport.Close | src/xudp.rs:311-323 | writes the end frame once, or exactly the part of it that goes out; afterwards nothing is written |
| Xudp.Drive | src/xudp.rs:252-323 | over any run of operations each does and returns what it promises, step by step; the wire is whole frames and at most one truncated last one, and grows no more once closed |
| Xudp.RunWrites | src/xudp.rs:252-323 | over any run the wire grows by exactly the frames, or parts of frames, that the operations write, in order |
| Xudp.Drain | src/xudp.rs:297-309 | over any run of receives the datagrams are an initial part of those of the stream, and all of them once it is read or once there have been more receives than bytes, none of them dropped at once or failing |
| UdpIngress.OneLiveTask | src/tun_runtime.rs:903-1180 | no source is ever served by two live tasks |
| UdpIngress.Ingress.RemoveCompleted | src/tun_runtime.rs:920-933 | removes an entry only when it is still that generation |
| UdpIngress.Ingress.Offer | src/tun_runtime.rs:1052-1138 | the whole new state: a source without an entry gets one with the next generation and a live task, a queued datagram marks it active, a full queue leaves it, a closed one removes it and cancels its task; every other entry and task stays, and nothing starts after stop |
| UdpIngress.Ingress.Touch | src/tun_runtime.rs:1272-1290 | a response queued by a task makes its own association active again, and only while it is that generation's entry |
| UdpIngress.Ingress.Complete | src/tun_runtime.rs:1148-1169 | a joined task leaves, and a stale completion never removes a newer generation |
| UdpIngress.Ingress.Cleanup | src/tun_runtime.rs:935-968 | removes exactly the idle or closed associations and cancels exactly their tasks; every other entry and task stays as it was |
| UdpIngress.Ingress.Stop | src/tun_runtime.rs:1171-1179 | cancels every association and waits for every task |
| UdpIngress.Drive | src/tun_runtime.rs:1024-1180 | in every interleaving table, tasks and generations are what the events make of them one after the other; an unfinished task is cancelled exactly when it is no longer its source's current generation, and none starts after stop |
| UdpIngress.NeverAgain | src/tun_runtime.rs:1080-1138 | in every run a generation whose task has ended is never given out again |
| SocketSetup.StepKeeps | src/dialer.rs:271-344 | every step keeps each permit and each token accounted for |
| SocketSetup.BoundedSetups | src/dialer.rs:271-328 | in every run at most 64 setup closures execute at once |
| SocketSetup.QuietAfterShutdown | src/dialer.rs:330-344 | in every run, once shutdown has returned no closure is queued or executing and none can ever start |
| SocketSetup.NoNewJobs | src/dialer.rs:288-300 | from the moment shutdown marks the owner closed, the tracked jobs only become fewer |
| OutputMux.ServedWithinThree | src/tun_runtime.rs:500-521 | a lane that has something at one output is served by that output or one of the next two |
| OutputMux.Mux.Fair | src/tun_runtime.rs:500-543 | the guarantee for every run of the multiplexer: a lane that had something when an output was taken is served within three outputs |
| OutputMux.Mux.TryNext | src/tun_runtime.rs:500-521 | with senders acting before each ask: takes the front item of the first lane, from the cursor on, that holds something when asked, and nothing else; every lane asked before it held nothing, and is closed exactly if it has no senders; no lane that held something at the start is passed over, and all are asked in vain only if none did |
| OutputMux.Mux.Poll | src/tun_runtime.rs:531-539 | the waiting reader gets the item of the first ready lane from wherever it begins to look, or learns that this lane is finished; it goes on waiting exactly when no open lane holds an item or is finished |
| OutputMux.Mux.Wait | src/tun_runtime.rs:531-541 | returns at the first moment at which an open lane is ready, with everything that arrived up to then in its lane except the item taken; given up only while no open lane is ready |
| OutputMux.Mux.Arrive | src/tun_runtime.rs:477-498 | what a lane's senders queue goes behind what is there; a lane without senders, and every other lane, stays as it is |
| OutputMux.Mux.Recv | src/tun_runtime.rs:523-543 | with senders acting throughout: the lanes are afterwards exactly what they were plus what arrived, less the front item of one lane if an item is returned; a call made while a lane holds something returns an item and passes over no such lane; it ends only when all three lanes are finished and drained, and at once when they are; it is given up only while every open lane is empty |
| OutputMux.Serve | src/tun_runtime.rs:477-543 | over any series of receives, what came out of a lane followed by what it still holds is what the lane held plus what its senders queued, in order, nothing lost and nothing twice |

## Left out

- Key derivation, header protection and packet decryption are uninterpreted parameters; what a correct key opens is not modelled.
- Domain normalisation, Host-header trimming and UTF-8 validation are function parameters of the parsers that call them.
- Sockets, TUN device input and output, Tokio scheduling, deadlines in real time, and every liveness claim about wake-ups.
- YAML and option schemas, protocol options, URL checks, and the parsing of port strings; port ranges enter already parsed.
- The DNS worker pool, routing rules, DNS resolution, GeoData, the controller, logging, counters and the C interface.
- The protocol-specific constructors in graph construction, which may fail for reasons of their own; only the paths handed to them are modelled.
- Shared ownership of built connectors: a node is a value, so two parents hold equal copies instead of one object.
- Lifecycle states, framing, datagram budgets and traffic counters, which would only add easy members.
- Machine integer widths of lengths and counters: sizes are unbounded naturals, with the bounds the code checks stated as such; 16-bit saturation in port merging and 62-bit varints are explicit.
- The sniffer factory is constant: every fresh sniffer is the same blank value.
- UdpAssociation.Association.Turn: opening and closing the transport, before and after the loop, and the content of responses are not modelled.
- UdpIngress.Ingress.Offer: the queue between ingress and task is one of three answers; the datagrams inside it are not tracked.
- Xudp.Transport.Receive: the decoding it is compared with starts at the last completed send, because a send changes the remote that frames without a destination are attributed to.
- SocketSetup.QuietAfterShutdown: one shutdown is modelled; a second one repeats steps that change nothing.
