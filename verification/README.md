# gecit: verified models

A Dafny 4.11 model of the six parts of gecit whose behaviour is subtle enough to
prove something about: the fake TLS ClientHello and the server-name parser, the
TCP/IPv4 packet builder with its checksums, the router's flow table and packet
decision, the kernel-side MSS program, the router engine's lifecycle, and the
resolv.conf rewrite. `dafny verify dfyconfig.toml` checks everything.

Code that works by changing things step by step is a class or a method with
loops, and its contract ties it to a function of its input or old state. The
laws are lemmas about those functions, over every input, run or interleaving.

## Layout

| file | content |
|---|---|
| `Bytes.dfy` | octets, fixed-width integers, length-prefixed blocks |
| `ClientHello.dfy`, `Profiles.dfy` | the ClientHello printer and its three built-in fingerprints |
| `SniParser.dfy`, `HelloGrammar.dfy` | the server-name parser; the grammar of the inputs that carry a name |
| `HelloRoundTrip.dfy`, `HelloDecode.dfy` | what the parser, and a strict reader of every field, find in a printed hello |
| `Classifier.dfy` | the router's quick ClientHello test, next to the parser |
| `InternetChecksum.dfy` | the deferred-carry checksum against RFC 1071 section 2 |
| `Packet.dfy`, `PacketProofs.dfy` | the packet builder; checksum verification and decoding at the receiver |
| `FlowTable.dfy`, `FlowKey.dfy`, `Processor.dfy` | the expiring first-packet table, the printed key, the packet decision |
| `Cascade.dfy` | fakes that come back to the queue |
| `SockOps.dfy` | the sock_ops program over all sockets |
| `Engine.dfy`, `EngineSteps.dfy` | the engine under one caller, call by call and step by step |
| `Text.dfy`, `ResolvConf.dfy`, `ResolvConfRuns.dfy` | lines of text; one Set and Restore; runs of them |
| `ResolvConfNames.dfy` | which nameservers and other lines either pass leaves, for any content |

## How the world enters

- Random bytes, clock readings, packet parse results and the answers of external
  calls (runner factory, nft batches, runner.Stop, worker results) are
  parameters, quantified over in every law.
- Where the builder writes total length and identification in host order
  (pkg/rawsock/ipheader_darwin.go:8-10), the kernel is taken to swap them.
- A build draws one client random, one session id, and one key share for every
  position of the extension order that asks for one.
- `SockOps.World` holds the kernel's sockets beside the program's map. A socket
  records the TCP_MAXSEG values set on it and the segments the program was shown.
  A word of callback flags is the set of its one bits; write-header is bit 6. The
  peer's port is a word in network order, as its octets lie in memory.
- `EngineSteps` has one caller inside Start or Stop and the worker goroutine of
  every run. Each external call, each locked section and each channel operation
  is one step. The grace timer may fire at any moment.

## Where the code and its words differ

- `SetSystemDNS` says the saved nameserver lines survive a crash
  (pkg/dns/system_linux.go:11-13). A second Set drops them, since line 26 skips
  them as gecit lines. `ResolvConfRuns.RestoreAfterTwoSets` says what Restore then
  yields, and `ResolvConfRuns.NameserversComeBackExactly` when nothing is lost over
  a whole run.
- A worker that returns nil within the grace period makes Start roll back and
  return nil. "Running" is therefore a statement about the fields
  (`Engine.SilentRollbackExactly`).
- The program says it restores the MSS once enough octets are sent
  (pkg/ebpf/bpf/src/sockops.go:14-15). An LRU eviction leaves its socket clamped
  for good, and a 32-bit counter that wraps restores late or never.
  `SockOps.ClampedOnceRestoredOnce` says exactly which sockets that spares, and
  `SockOps.EvictedStaysClamped` is a run that shows the loss.
- `buildClientHello` truncates lengths silently. `HelloRoundTrip.RoundTripExactly`,
  `HelloDecode.HelloDecodes`, `HelloDecode.VersionsDecodeExactly` and
  `HelloDecode.AlpnDecodesExactly` give the exact bounds; `PacketProofs.PayloadSurvivesExactly` does so for packets.

## Model

| member | source | states |
|---|---|---|
| Bytes.TruncationKeepsLowBits | pkg/rawsock/rawsock.go:59-62 | every conversion to a narrower unsigned type keeps exactly the low bits, of negative numbers too |
| ClientHello.AppendUint16List | pkg/fake/clienthello.go:213-219 | the loop appends exactly the length-prefixed list of the values |
| ClientHello.AppendExtension | pkg/fake/clienthello.go:221-225 | type, truncated length and body are appended as one extension item |
| ClientHello.Uint16Vector | pkg/fake/clienthello.go:227-234 | the loop builds the vector that `VectorDecodes` reads back |
| ClientHello.ServerNameExtension | pkg/fake/clienthello.go:236-245 | builds the list `ServerNameParses` finds the name in |
| ClientHello.AlpnExtension | pkg/fake/clienthello.go:247-258 | the loop builds the list `AlpnDecodesExactly` is about, over-long names included |
| ClientHello.VersionExtension | pkg/fake/clienthello.go:260-267 | the loop builds the vector `VersionsDecodeExactly` is about |
| ClientHello.KeyShareExtension | pkg/fake/clienthello.go:269-277 | builds the entry `KeyShareDecodes` reads back |
| ClientHello.AppendExtensions | pkg/fake/clienthello.go:139-163 | the loop over the order prints exactly the listed extensions, drawing a fresh key share where one is due |
| ClientHello.BuildClientHello | pkg/fake/clienthello.go:125-184 | for every profile and all random bytes the record is `Hello`, the string all laws below are about |
| ClientHello.HandshakeHasLength | pkg/fake/clienthello.go:132-174 | the message size is a sum over the profile alone, the same for every draw |
| SniParser.ExtensionsAt | pkg/fake/sni.go:24-53 | the absolute cursor, which may run past the end, agrees with reading block after block |
| SniParser.ParseSniExtension | pkg/fake/sni.go:69-91 | the shrinking-slice loop finds the first host_name entry; every read is in range and it ends |
| SniParser.ParseSni | pkg/fake/sni.go:5-67 | for every byte string the cursor walk equals the recursive-descent reading; every read is in range and the loops end |
| HelloGrammar.DerivationParses | pkg/fake/sni.go:5-91 | every printed derivation is read back to its own name, whatever stands in the skipped tails |
| HelloGrammar.DerivationOf | pkg/fake/sni.go:5-91 | every name found comes with a derivation of the whole input: first host_name of the first server_name extension, nested in every declared length |
| HelloGrammar.SniReadsGrammar | pkg/fake/sni.go:5-91 | the parser reads a name exactly when the grammar prints the input with that name |
| HelloRoundTrip.HelloFits | pkg/fake/clienthello.go:165-181 | the single bound of 65535 octets on the handshake implies that every nested length is exact |
| HelloRoundTrip.RoundTrip | pkg/fake/clienthello.go:125-184 | within that bound the parser returns the profile's name wherever its extension stands, and nothing when it is not listed |
| HelloRoundTrip.TooLongIsUnreadable | pkg/fake/clienthello.go:176-181 | one octet more and the record length wraps: the parser finds nothing |
| HelloRoundTrip.RoundTripExactly | pkg/fake/clienthello.go:125-184 | up to the 24-bit handshake limit the round trip holds if and only if the message is at most 65535 octets or there is no name to lose |
| HelloDecode.VectorDecodes | pkg/fake/clienthello.go:227-234 | a group or signature list reads back if and only if its octets fit 16 bits |
| HelloDecode.VersionsDecodeExactly | pkg/fake/clienthello.go:260-267 | the version list reads back if and only if it has at most 127 entries |
| HelloDecode.AlpnDecodesExactly | pkg/fake/clienthello.go:247-258 | the protocol list reads back if and only if every name has at most 255 octets and the whole list at most 65535 |
| HelloDecode.KeyShareDecodes | pkg/fake/clienthello.go:269-277 | group and key read back |
| HelloDecode.HelloDecodes | pkg/fake/clienthello.go:125-184 | a strict reader recovers versions, random, session id, cipher suites, compression and the extension list, with no octet left over, if and only if the message is at most 65535 octets, whatever the profile |
| HelloDecode.ExtensionWalk | pkg/fake/clienthello.go:10-166 | walking the emitted block gives the order without unknown types and without empty ALPN, repeats kept, and each body tells by its registered type number its part of the profile, a key share the bytes drawn for its own position |
| Profiles.BuiltInNames | pkg/fake/clienthello.go:32-123 | each built-in fingerprint takes at most 647 octets and carries its own non-empty name, whatever is drawn |
| Profiles.BuiltInTypes | pkg/fake/clienthello.go:10-123 | the extension types a reader finds in the three built-in hellos, as registered numbers in order |
| Classifier.LooksExactly | pkg/router/packet.go:72-97 | the quick test accepts exactly what passes the parser's first two layers with a non-empty message, except its fit in the record |
| Classifier.ParsedLooksLike | pkg/router/packet.go:72-97 | whatever the parser finds an extension block in passes the quick test, if its second octet is 3 |
| Classifier.StableAfterRecord | pkg/fake/sni.go:9-13 | octets after a complete record change neither answer |
| Classifier.StrictPrefixIsNothing | pkg/fake/clienthello.go:176-183 | no strict prefix of a built hello has a name or passes the quick test |
| Classifier.HelloLooksLike | pkg/router/packet.go:72-97 | every built hello within the bound passes the quick test |
| InternetChecksum.FoldKeepsResidue | pkg/rawsock/rawsock.go:93-95 | a fold keeps the value modulo 65535 and never turns non-zero into zero |
| InternetChecksum.AccumulatorIsExact | pkg/rawsock/rawsock.go:86-92 | up to 131074 octets the 32-bit accumulator cannot wrap |
| InternetChecksum.ChecksumIsRfc1071 | pkg/rawsock/rawsock.go:85-97 | up to that size the deferred carries give the word-by-word end-around-carry sum |
| InternetChecksum.ChecksumIsRfc1071Exactly | pkg/rawsock/rawsock.go:85-97 | for any size: it agrees if and only if the carries lost are a multiple of 65535 and left no zero accumulator |
| InternetChecksum.Checksum | pkg/rawsock/rawsock.go:85-97 | both loops compute that checksum, wrap-around included, with at most two folds |
| InternetChecksum.PatchedVerifies | pkg/rawsock/rawsock.go:65-69 | a checksum stored in a zeroed field at an even offset makes the whole verify to zero |
| Packet.BuildTCPHeader | pkg/rawsock/rawsock.go:72-82 | the in-place stores give the 20-octet header, its checksum field zero |
| Packet.BuildIPHeader | pkg/rawsock/rawsock.go:55-70 | the in-place stores and the patch give the header that `IPHeaderVerifies` and `PacketDecodes` are about, in either octet order and for missing addresses |
| Packet.BuildPacket | pkg/rawsock/rawsock.go:29-53 | the assembled and patched array is `PacketBytes`, for every connection, payload and ttl |
| PacketProofs.IPHeaderVerifies | pkg/rawsock/rawsock.go:65-69 | every built IP header verifies to zero |
| PacketProofs.TCPChecksumVerifies | pkg/rawsock/rawsock.go:38-50 | pseudo-header (as the receiver takes it from the packet) plus segment verifies to zero, odd or even payload, with or without IPv4 addresses |
| PacketProofs.To4Exactly | pkg/rawsock/rawsock.go:40-41 | an address is sent as four octets if and only if it is those octets or their v4-mapped form |
| PacketProofs.PacketDecodes | pkg/rawsock/rawsock.go:29-82 | the layouts of RFC 791 section 3.1 and RFC 9293 section 3.1 give back the addresses denoted, ports, sequence numbers, ttl modulo 256, lengths and payload, from either octet order; type of service, fragment flags and offset, reserved bits and urgent pointer are zero |
| PacketProofs.PayloadSurvivesExactly | pkg/rawsock/rawsock.go:55-59 | in either octet order the payload survives decoding if and only if it has at most 65495 octets |
| FlowTable.Table.MarkOnce | pkg/router/processor.go:129-148 | the pruning loop in any iteration order, the two refusals and the insertion are one step on the set of live entries |
| FlowTable.LiveIsKept | pkg/router/processor.go:133-137 | for every clock, steps back included, the live entries are the keys of the accepted marks that neither now nor any later call finds expired |
| FlowTable.AcceptedExactly | pkg/router/processor.go:129-148 | for every clock a call returns true if and only if its key has no such mark and fewer than limit keys have one |
| FlowTable.KeptIsRecent | pkg/router/processor.go:133-137 | under an ordered clock those marks are the ones accepted at most ttl ago: pruning early loses nothing |
| FlowTable.AcceptedByHistory | pkg/router/processor.go:129-148 | so under an ordered clock a call returns true if and only if its key has no accepted mark at most ttl old and fewer than limit keys have one |
| FlowTable.AcceptedMarksAreApart | pkg/router/processor.go:133-141 | two accepted marks of a key are more than ttl apart |
| FlowTable.NeverOverLimit | pkg/router/processor.go:142-144 | the table never exceeds its limit, for any clock |
| FlowTable.StoredTimes | pkg/router/processor.go:139-146 | a stored time is that of the key's last accepted mark; refusals never refresh it |
| FlowKey.KeyInjective | pkg/router/packet.go:67-69 | two IPv4 tuples print the same key if and only if they are the same tuple |
| Processor.PortAllowed | pkg/router/processor.go:105-112 | true if and only if the port is listed |
| Processor.PacketProcessor.ProcessPacket | pkg/router/processor.go:47-87 | the new table and the action are one decision step; an error is reported exactly for unmarked unparsable packets |
| Processor.AsksExactly | pkg/router/processor.go:48-70 | the flow table is asked if and only if the mark bits are clear and the packet is TCP over IPv4 to a listed port with a ClientHello |
| Processor.InjectionNamesPacket | pkg/router/processor.go:76-103 | over every run, what is injected is the fake drawn for the packet, on the packet's own addresses, ports, sequence and acknowledgement numbers |
| Processor.SkipReasons | pkg/router/processor.go:48-79 | the reason for a skip is that of the first test the packet fails |
| Processor.ConfigMeans | pkg/router/config.go:71-92 | with zero values filled in, on an empty table exactly the configured, or default, mark, ports and limit decide |
| Processor.InjectsExactly | pkg/router/processor.go:47-87 | under an ordered clock a packet is injected for if and only if it is eligible, its own tuple was not injected for within the TTL, and fewer than the limit of tuples were; other tuples block it in no other way |
| Processor.InjectionsAreApart | pkg/router/processor.go:72-74 | two injections for one tuple are more than the TTL apart |
| Processor.FlowsAreBounded | pkg/router/processor.go:129-148 | the flow table of any packet run stays within the configured size |
| Cascade.ConnInfoComesBack | pkg/router/processor.go:89-103 | the metadata of a decoded packet names the connection it was built for |
| Cascade.NoCascade | pkg/router/runner_linux.go:109-114 | with the normalized configuration, over every run with fakes queued again any number of times, fakes emitted are at most the unmarked packets from outside |
| Cascade.EmittedArePaid | pkg/router/processor.go:48-50 | the same for any configuration whose mark is non-zero |
| Cascade.OnlyTheMarkStopsFakes | pkg/router/processor.go:48-74 | a built fake on the wire passes every other test: a fresh table injects for it if and only if its mark bits are clear |
| SockOps.Kernel.HandleEstablished | pkg/ebpf/bpf/src/sockops.go:68-106 | clamp, event, entry and flag change together, and only for a targeted, not excluded destination |
| SockOps.Kernel.HandleWriteHdrOpt | pkg/ebpf/bpf/src/sockops.go:113-141 | the in-place counter, restore, flag and delete give the step the laws below are about |
| SockOps.Kernel.GecitSockops | pkg/ebpf/bpf/src/sockops.go:144-166 | dispatch on the operation, nothing at all while disabled |
| SockOps.StepIsConsistent | pkg/ebpf/bpf/src/sockops.go:68-141 | every event keeps each entry unrestored, below the threshold and on a matching, clamped, flagged socket, and alters no other callback flag |
| SockOps.ReachableIsConsistent | pkg/ebpf/bpf/src/sockops.go:68-166 | so in every reachable state, evictions and switch flips included; the already-restored branch is dead |
| SockOps.TouchedExactly | pkg/ebpf/bpf/src/sockops.go:68-141 | in every reachable state a socket was touched if and only if it was heard while enabled, its address is not excluded and its port is targeted; it was set to the clamp once and then at most to the restore value (1460 by default), and only write-header followed |
| SockOps.WrappedTestIsRight | pkg/ebpf/bpf/src/sockops.go:123-125 | the threshold test is right about the true sum if and only if the 32-bit counter does not wrap |
| SockOps.ClampedOnceRestoredOnce | pkg/ebpf/bpf/src/sockops.go:68-141 | over every run, socket by socket: a matching socket is clamped once and restored once, at the first segment whose running sum exceeds the threshold, the entry holding that sum until then, if and only if no event of the run evicted its entry or wrapped its counter |
| SockOps.ClampedOctets | pkg/ebpf/bpf/src/sockops.go:123-130 | in every reachable world an undisturbed socket has sent, while clamped, at most the threshold and its last segment |
| SockOps.EvictedStaysClamped | pkg/ebpf/bpf/src/sockops.go:113-118 | in every enabled world the run connect, evict, segment leaves a matching socket clamped past its threshold |
| SockOps.UntrackedIsFinal | pkg/ebpf/bpf/src/sockops.go:114-118 | a socket without an entry is never touched again |
| SockOps.RunAnnounces | pkg/ebpf/bpf/src/sockops.go:84-91 | over every run user space hears exactly of the heard, matching connects, in order, each event with its own socket's destination; these are the clamped sockets, each once |
| Engine.RouterEngine.RollbackStartup | pkg/router/engine.go:160-176 | fields cleared, runner stopped, teardown attempted for the given rules, first error kept |
| Engine.RouterEngine.StartEngine | pkg/router/engine.go:87-158 | with any answers of the outside, state, history and error are one sequential Start |
| Engine.RouterEngine.StopEngine | pkg/router/engine.go:179-213 | with any answers of the outside, state, history and error are one sequential Stop |
| Engine.CallKeepsBalance | pkg/router/engine.go:87-213 | every call keeps the four fields together, one open setup exactly when rules are installed, every closed one paired with its teardown, and no run cancelled twice |
| Engine.AlwaysBalanced | pkg/router/engine.go:87-213 | so after every sequence of calls and failures; each teardown names its setup's table, in order |
| Engine.RunnersStoppedOnce | pkg/router/engine.go:169-199 | each launched runner is stopped at most once, and exactly once when its run is over |
| Engine.SilentRollbackExactly | pkg/router/engine.go:87-157 | Start returns nil and leaves nothing running if and only if the worker came back with nil in time and the rollback succeeded; it runs if and only if it ran before or Start returned nil with the worker still out; a rollback leaves fields, setups, teardowns and stops paired |
| Engine.IsCanceledExactly | pkg/router/engine.go:203 | an error counts as a cancellation if and only if a chain of causes leads from it to the cancellation |
| Engine.StartReports | pkg/router/engine.go:87-158 | which error Start returns: the first failure before the launch, changing nothing; after a rollback the worker's joined with the rollback's, the runner before the teardown |
| Engine.StopTwice | pkg/router/engine.go:179-213 | a second Stop does nothing and returns nil |
| EngineSteps.StepKeepsInvariant | pkg/router/engine.go:119-213 | every step of the caller and of any worker keeps the channel and caller invariants |
| EngineSteps.OneSendOneReceive | pkg/router/engine.go:120-132 | in every interleaving a finished worker can send at once, sends once, and is received from at most once |
| EngineSteps.CallEnds | pkg/router/engine.go:134-212 | a call that ends has the effect and the result of the sequential call on the answers its own steps were given, and the worker result among them is what that run's worker sent |
| EngineSteps.NextStopReports | pkg/router/engine.go:179-213 | over every interleaving up to the end of the next Stop of a running engine: the run is cancelled, its runner stopped and its rules torn down once; the result its worker was already back with is the one sent; Stop returns the runner's error, else the worker's unless a chain of causes leads to a cancellation, else the teardown's |
| EngineSteps.EarlyFailureReports | pkg/router/engine.go:134-176 | over every interleaving of a Start that rolls back: fields clear, runner stopped, table torn down once, and the error is the worker's, the rollback's, or both joined |
| EngineSteps.InterleavingIsSequential | pkg/router/engine.go:87-213 | every interleaved run is a run of whole calls with some answers |
| EngineSteps.InterleavedCalls | pkg/router/engine.go:87-213 | from a new engine, whatever is at rest was left by some sequence of whole calls |
| EngineSteps.AtRestBalanced | pkg/router/engine.go:87-213 | so the balance of fields, setups, teardowns and stops holds at rest in every interleaving |
| EngineSteps.StopMakesProgress | pkg/router/engine.go:193-206 | while Stop waits, its run is cancelled and its runner stopped, and either the receive or the worker's own next step can happen |
| EngineSteps.StopRankFalls | pkg/router/engine.go:179-213 | every step of the caller or of the awaited worker strictly lowers a rank of at most six that is zero exactly at rest, and no other worker's step changes it |
| EngineSteps.StopEndsWithinSix | pkg/router/engine.go:179-213 | over every interleaving a Stop takes at most six steps of its caller and its worker; with `StopMakesProgress`, it ends once its worker returns |
| ResolvConf.ResolvConfFile.SetSystemDNS | pkg/dns/system_linux.go:14-37 | the loop over the lines writes `Set` of the content; an unreadable file is left alone |
| ResolvConf.ResolvConfFile.HasGecitDNSState | pkg/dns/system_linux.go:81-88 | true if and only if some line carries gecit state |
| ResolvConf.ResolvConfFile.SystemDNSNeedsRestore | pkg/dns/system_linux.go:41-47 | true if and only if the file is readable and carries state |
| ResolvConf.ResolvConfFile.RestoreSystemDNS | pkg/dns/system_linux.go:50-79 | the loop writes `Restore` of the content; without state the content is untouched |
| ResolvConf.RestoreOfSet | pkg/dns/system_linux.go:14-79 | for every content, one Set and one Restore give the normal form: lines in order, blank and gecit lines dropped, nameserver lines trimmed, or the fallback |
| ResolvConfNames.SetSaves | pkg/dns/system_linux.go:20-34 | from any content a Set leaves "nameserver 127.0.0.1" alone in force and saves the nameservers that were, in order; the other lines stand, what an earlier Set saved is gone, and the marker is the only line besides |
| ResolvConfNames.RestoreBrings | pkg/dns/system_linux.go:58-76 | for any content with state a Restore leaves in force the saved nameservers and those in force but the local one, in order, and keeps the other lines; or 8.8.8.8 when there is no line to keep |
| ResolvConfNames.FixedTexts | pkg/dns/system_linux.go:20-74 | the prefixes and lines that both passes look for and write |
| ResolvConfRuns.RestoredIsFixed | pkg/dns/system_linux.go:14-79 | a restored content comes through every further Set and Restore unchanged |
| ResolvConfRuns.LinesSurvive | pkg/dns/system_linux.go:24-34 | no other line is lost, an original nameserver 127.0.0.1 included |
| ResolvConfRuns.SetKeeps | pkg/dns/system_linux.go:20-34 | from any content a Set keeps the other lines and leaves the local nameserver alone in force |
| ResolvConfRuns.RestoreKeeps | pkg/dns/system_linux.go:55-76 | a Restore keeps the other lines and leaves no state |
| ResolvConfRuns.RunKeeps | pkg/dns/system_linux.go:14-88 | over every run of Sets and Restores from a file without state the other lines are conserved, a final Set leaves the local nameserver alone in force, and a final Restore leaves no state |
| ResolvConfRuns.RunRestores | pkg/dns/system_linux.go:14-79 | over every such run a Restore brings back the original if nothing was set, its normal form if no Set followed a Set, and otherwise the local nameserver with the other lines |
| ResolvConfRuns.NameserversComeBackExactly | pkg/dns/system_linux.go:11-79 | after a run with a Set in it the nameservers come back if and only if no Set followed a Set, or the local one was the only one |
| ResolvConfRuns.RestoreAfterTwoSets | pkg/dns/system_linux.go:26-28 | after two Sets Restore yields the local nameserver and the other lines |
| ResolvConfRuns.SecondSetKeepsNameserversExactly | pkg/dns/system_linux.go:26-28 | two Sets restore to the same nameservers as one if and only if the local one was the only one |

## Left out

- gopacket decoding of queued packets: its result is a parameter, with four-octet addresses for IPv4; the RFC layout reader stands in for it where built packets are decoded.
- IPv6 addresses in the flow key: a packet reaches the key only after the IPv4 test.
- The xorshift fallback of `fillBytes` and the profile rotation counter: every byte string of the right length is covered instead.
- Raw sockets, NFQUEUE, the TUN device, perf readers, the DoH client and server, macOS and Windows DNS commands, command line and logging: I/O plumbing.
- nftables text: only the table name of a setup or teardown matters to the engine.
- Saturation of `time.Time.Sub` at 292 years, against a flow TTL of two minutes.
- Overlapping calls on one engine: `Start` drops its lock between check and publication, so the laws are for sequential callers, as in cmd/gecit/app/router.go:126-136.
- SockOps.World: target ports, excluded addresses and the configuration but for its switch are fixed over a run; setsockopt succeeds; an eviction can hit any entry at any moment rather than only when the map is full.
- HelloRoundTrip.RoundTripExactly: stops at messages of 16 MiB, because past them the three-octet handshake length wraps as well, the suites length with it, and what the parser lands on can be any cipher suite bytes.
- ResolvConf.ResolvConfFile: contents that are not valid UTF-8, and failing writes.
- Growth of slices in place by append: byte slices are values here, so aliasing between them is not captured.
