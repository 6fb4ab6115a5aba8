# gecit in Dafny

gecit lets a TLS connection through deep packet inspection by sending a fake ClientHello into the live TCP
connection: it looks real to a box on the path and dies before it reaches the server. This project models the
parts of it that hold state or arithmetic, and proves what they promise.

| file | models |
|---|---|
| `Bytes.dfy`, `Wrappers.dfy` | fixed-width integers, their byte encodings, options |
| `Checksum.dfy` | the Internet checksum and the one's-complement arithmetic of RFC 1071 |
| `RawSocket.dfy` | crafting IPv4/IPv6 packets and Ethernet frames, and a receiver written from RFC 791, RFC 8200 and RFC 9293 |
| `ClientHello.dfy` | a reference encoder for ClientHello messages, the SNI parser, the builder of the fake |
| `SockOps.dfy` | the sock_ops program: small MSS, byte counting and restoration over many interleaved connections |
| `PerfEvents.dfy` | userspace on Linux: filling the maps, reading events, injecting the fake |
| `FakeTtl.dfy` | the hop limit of the fake against routers that count it down |
| `SeqTracker.dfy` | capturing SYN-ACKs and handing their numbers to the connection of the same port |
| `Relay.dfy` | fakes, then the buffered ClientHello, then two concurrent copies |
| `DnsQueue.dfy` | the queue of resolved domains of each address |
| `Text.dfy`, `Decimal.dfy` | splitting, joining and trimming text; decimal numbers |
| `ResolvConf.dfy`, `LinuxEngine.dfy` | the rewriting of resolv.conf and the engine's start, stop and rollback |
| `StartCommand.dfy`, `Supervisor.dfy` | the app's start command, the helper's allowlist and its supervisor loop |

`dafny verify dfyconfig.toml` checks everything.

Conventions. Bytes and machine integers are bounded `int`s; wrapping, narrowing and truncation are written out
with `%`. A method with loops or in-place updates is proved against a function, and the laws are lemmas about
that function, checked against something written independently of it: RFC receivers and encoders, hop-by-hop
forwarding, unbounded sums, index-based histories. Whatever comes from outside (clocks, faults, deaths of
processes, arrival of bytes and packets, the scheduler) is a parameter or an arbitrary sequence of steps.

Where the code does less than its comments or its users may expect, the model follows the code and the exact
condition is proved:

- The comment at pkg/dns/system_linux.go:11-13 promises that saved nameservers survive a crash. A second Set drops
  them unless 127.0.0.1 was the only one (`TwoSetsLoseNameservers`), and so does a session after a kill or a failed
  restore (`NameserversBack`).
- The help text at cmd/gecit/app/cleanup.go:12 promises that the cleanup command restores DNS after a crash. On
  Linux it does nothing (`CrashThenCleanup`).
- The fake's hop limit is narrowed to a byte, so a negative configured one reaches far beyond the server
  (`DiesOnLikePaths`, `NegativeLimitReachesServer`).
- SYN-ACKs are captured from port 443 only, whatever ports are configured (`OtherPortsGetPlaceholders`).
- The sock_ops program never looks at the address family: an IPv6 connection gets an IPv4 fake that is not its own
  (`FakeMatchesConnection`).
- A field with a blank inside arrives as several arguments, each checked by itself (`CommandRoundTrip`,
  `AcceptedOutsideGrammar`); and the allowlist's `-gt 255` does not stop numbers beyond the shell's integers
  (`FakeTtlAccepted`).
- The 32-bit checksum accumulator and byte counter wrap (`WrapExact`, `CounterWrap`).
- The key of an excluded address is right on little-endian machines only (`ExcludeKeyMatches`).
- A "running" status can be stale when it is written (`RunningLineTrue`).

## Model

| member | source | states |
|---|---|---|
| InternetChecksum.Checksum | pkg/rawsock/rawsock.go:149-161 | The uint32 loop and fold meet the one's-complement definition of RFC 1071 for every input of at most 131074 bytes, and a wrapped accumulator is described exactly beyond that |
| InternetChecksum.OnesSumIsCanon | pkg/rawsock/rawsock.go:149-161 | Adding words one by one with end-around carry gives the same sum as adding them all first and reducing once |
| InternetChecksum.FoldStep | pkg/rawsock/rawsock.go:157-159 | Each turn of the fold loop makes the sum strictly smaller, keeps its value modulo 65535 and never makes it zero |
| InternetChecksum.WrapExact | pkg/rawsock/rawsock.go:150-156 | For input of any length, the 32-bit accumulator gives the RFC 1071 checksum if and only if the lost carries are a multiple of 65535 and the wrapped sum did not vanish (or none was lost) |
| InternetChecksum.NoWrap | pkg/rawsock/rawsock.go:150-156 | 131074 bytes never lose a carry |
| InternetChecksum.WrapHappens | pkg/rawsock/rawsock.go:150-156 | 131076 bytes can: all-ones input of that length gets a wrong checksum |
| InternetChecksum.ChecksumConcat | pkg/rawsock/rawsock.go:149-161 | Pieces of even length can be checksummed separately and combined by one's-complement addition (section 2(A) of RFC 1071) |
| InternetChecksum.ByteOrderIndependence | pkg/rawsock/rawsock.go:149-161 | Swapping the bytes of every word swaps the bytes of the checksum (section 2(B) of RFC 1071) |
| InternetChecksum.FillVerifies | pkg/rawsock/rawsock.go:53-57 | Putting the checksum of a message into its aligned, zeroed checksum field makes the whole message verify to zero |
| InternetChecksum.AppendVerifies | pkg/rawsock/rawsock.go:149-161 | Appending the checksum makes data verify to zero if and only if the length is even or the two checksum bytes are equal |
| InternetChecksum.SingleWordDetection | pkg/rawsock/rawsock.go:149-161 | In data that verifies, one changed word is noticed if and only if it did not go from 0x0000 to 0xFFFF or back - and a change from 0xFFFF to 0x0000 is noticed too when all other words are zero |
| RawSocket.BuildTcpHeader | pkg/rawsock/rawsock.go:136-146 | The buffer filled in place holds ports, sequence and acknowledgement number, offset, flags and window in network order, with a zero checksum |
| RawSocket.BuildV4Header | pkg/rawsock/rawsock.go:62-77 | The buffer holds the IPv4 header with its length and id in the platform's byte order and its own checksum filled in |
| RawSocket.BuildV6Header | pkg/rawsock/rawsock.go:80-89 | The buffer holds the IPv6 header |
| RawSocket.BuildPacket | pkg/rawsock/rawsock.go:34-60 | For every connection of one family, TTL and payload the buffer is IP header, TCP header with checksum, payload; what a receiver makes of every byte of it is BuildThenReceive |
| RawSocket.To4Forms | pkg/rawsock/rawsock.go:41-41 | An address counts as IPv4 if and only if it is a.b.c.d on 4 bytes or ::ffff:a.b.c.d on 16 |
| RawSocket.BuildEthernetFrame | pkg/rawsock/rawsock.go:123-134 | The frame is destination, source, the EtherType of the packet's version, and the packet |
| RawSocket.V4HeaderVerifies | pkg/rawsock/rawsock.go:72-76 | The IPv4 header sums to zero under either byte order of its length field |
| RawSocket.SegmentVerifies | pkg/rawsock/rawsock.go:53-57 | Pseudo-header and segment sum to zero in both families, odd payloads included |
| RawSocket.BuildThenReceive | pkg/rawsock/rawsock.go:34-111 | An RFC receiver that checks version, lengths, protocol and both checksums and holds fragments back gets exactly the family, addresses, ports, numbers, TTL modulo 256 and payload, with type of service, identification, traffic class, flow label, all flags, reserved bits, window and urgent pointer as stated; and gets nothing if the packet does not fit its 16-bit length field |
| RawSocket.FrameThenReceive | pkg/rawsock/rawsock.go:123-134 | Stripping the frame gives back both MAC addresses, cut or padded to 6 bytes, the EtherType of the family and a packet that is received as above |
| RawSocket.ChangedWordIsDropped | pkg/rawsock/rawsock.go:53-57 | Overwriting any one aligned word of the segment makes the receiver drop the packet if and only if the word does not change between the two encodings of zero |
| ClientHello.ParseSni | pkg/fake/sni.go:5-67 | The cursor and slice loops compute the layered reading Sni, whose meaning is given by the lemmas below |
| ClientHello.FindExtensions | pkg/fake/sni.go:24-53 | The cursor over session id, cipher suites and compression methods finds the extension block or none |
| ClientHello.FindServerName | pkg/fake/sni.go:55-66 | The loop over extensions reads the first server_name extension |
| ClientHello.ParseSniExtension | pkg/fake/sni.go:69-91 | The loop over a server_name list reads the first host_name |
| ClientHello.ParseUndoesEncode | pkg/fake/sni.go:5-91 | For every ClientHello that fits one record - any session id, suites, compression methods, extensions and names, with or without an extensions block - parsing its encoding returns the first host_name of its first server_name extension, or "" |
| ClientHello.ParserAcceptsExactlyLenient | pkg/fake/sni.go:5-91 | For every input and every non-empty name, the parser returns that name if and only if the input is a ClientHello of the lenient form (anything may trail at each layer) that carries it |
| ClientHello.NameLeavesRoom | pkg/fake/sni.go:5-91 | A name that was found is at least 53 bytes shorter than the record length field says |
| ClientHello.BuildClientHello | pkg/fake/clienthello.go:6-37 | The appends produce the builder's bytes for a name of any length, and up to 65479 bytes exactly the reference encoding of the fake ClientHello |
| ClientHello.BuiltIsEncoded | pkg/fake/clienthello.go:6-37 | Layer by layer the builder is the reference encoder on the fake ClientHello |
| ClientHello.ParseUndoesBuild | pkg/fake/clienthello.go:6-37 | Parsing what the builder made gives the name back if and only if it has at most 65479 bytes |
| SockOps.Program.HandleEstablished | pkg/ebpf/bpf/sockops.bpf.c:34-71 | For an outgoing connection to a target port and no excluded address: small MSS, one event, a zero entry, the callback flag; otherwise nothing. RunReadsBack says so over every run |
| SockOps.RunReadsBack | pkg/ebpf/bpf/sockops.bpf.c:34-126 | Over every run from loading, read off the steps alone: the switch; every event, in order - one for each connection established while the switch is on, to a target port and no excluded address, and none for any other step; and for every connection its entry and counter, every MSS value written, and the callback flag |
| SockOps.Program.HandleWriteHdrOpt | pkg/ebpf/bpf/sockops.bpf.c:81-106 | Counts a segment modulo 2^32; past the threshold writes the normal MSS, clears the flag and deletes the entry |
| SockOps.Program.GecitSockops | pkg/ebpf/bpf/sockops.bpf.c:108-126 | Dispatches on the callback, and does nothing at all while disabled |
| SockOps.Program.UpdateEnabled | pkg/ebpf/config.go:72-93 | Pushes the whole configuration again, narrowed from userspace integers as at loading: only the switch changes, the thresholds in force stay |
| SockOps.PushedExact | pkg/ebpf/config.go:19-34 | The thresholds reach the kernel unchanged if and only if they fit uint16, uint16 and uint32 |
| SockOps.Isolation | pkg/ebpf/bpf/sockops.bpf.c:34-126 | In any interleaving, configuration, MSS history, counter, flag and events of a connection are those of its own steps and the configuration steps run alone (evictions are steps of their victim) |
| SockOps.EntriesStayPending | pkg/ebpf/bpf/sockops.bpf.c:86-102 | Over every run no stored entry is marked restored and none has counted past the threshold |
| SockOps.Restoration | pkg/ebpf/bpf/sockops.bpf.c:81-106 | Over every run that leaves a tracked connection its entry: while the exact sum of its counted segments is at most restore_after_bytes it has the small MSS; past that the normal MSS was written exactly once, the flag is clear, the entry gone, and it stays so |
| SockOps.UntrackedUntouched | pkg/ebpf/bpf/sockops.bpf.c:84-87 | A connection without an entry - never wanted, restored, or evicted at the small MSS - is not written to until it is established again |
| SockOps.RestorationWithinCapacity | pkg/ebpf/bpf/maps.h:61-66 | As long as never more than 65536 connections wait at one time (established, not yet past the threshold), whatever their total number, the MSS values ever written to a wanted connection are the small one, then the normal one if its bytes passed the threshold |
| SockOps.NoEviction | pkg/ebpf/bpf/maps.h:61-66 | In a run of any length with never more than 65536 connections waiting at one time - counted from the steps alone - nothing is evicted, and the map holds exactly the waiting ones |
| SockOps.CounterWrap | pkg/ebpf/bpf/sockops.bpf.c:89-91 | The wrapping counter decides like the exact sum if and only if the sum stays below 2^32 or wraps to above the threshold |
| SockOps.ThresholdReachable | pkg/ebpf/bpf/sockops.bpf.c:89-91 | Some segment length can trigger the restoration if and only if the threshold is not the largest uint32 |
| PerfEvents.DecodeUndoesEncode | pkg/ebpf/manager.go:180-190 | Reading a sample of at least 20 bytes gives back the event the kernel wrote, in either byte order and with any padding |
| PerfEvents.ReadEvents | pkg/ebpf/manager.go:166-194 | The reader loop sends one packet for each readable sample, in order; it skips short samples and carries on after a send that fails |
| PerfEvents.EveryEventGetsFake | pkg/ebpf/manager.go:166-194 | Whatever padding the samples have, every event the kernel wrote leads to exactly one fake of its own, in order |
| PerfEvents.ShortSamplesSkipped | pkg/ebpf/manager.go:175-180 | Samples of less than 20 bytes change nothing in what is sent |
| PerfEvents.InjectFake | pkg/ebpf/manager.go:196-209 | Builds and sends the fake of one event, unless the send fails |
| PerfEvents.PushTargetPorts | pkg/ebpf/config.go:36-49 | Succeeds if and only if the distinct ports fit the map, and then the map holds exactly these |
| PerfEvents.PushExcludeIps | pkg/ebpf/config.go:51-70 | Succeeds if and only if the distinct IPv4 keys fit the map, and then the map holds exactly these; other addresses are skipped |
| PerfEvents.ExcludeKeyMatches | pkg/ebpf/config.go:63-64 | The key userspace computes equals remote_ip4 if and only if the machine is little-endian or the address reads the same backwards |
| PerfEvents.WantedMeansConfigured | pkg/ebpf/bpf/sockops.bpf.c:37-43 | The program takes a connection of either family if and only if its port is configured and the IPv4 address the kernel shows - the remote one of an IPv4 connection - is not among the excluded ones |
| PerfEvents.FakeMatchesConnection | pkg/ebpf/manager.go:196-209 | The one event of an established connection, of either family, leads to one packet with a ClientHello that parses to www.google.com; a receiver reads it as this connection's own (addresses, ports, snd_nxt, rcv_nxt) if and only if the connection is IPv4 |
| FakeTtl.ForwardLaw | pkg/tun/fakettl.go:14-22 | Hop-by-hop forwarding (section 5.3.1 of RFC 1812) delivers a packet if and only if its hop limit exceeds the number of routers |
| FakeTtl.FakeDiesBeforeServer | pkg/tun/fakettl.go:27-48 | For a server starting at 64, 128 or 255: the guessed initial value is never above the true one, and on every forward path of at least one router and at most three shorter than the return path the fake is dropped |
| FakeTtl.FakeDiesObserved | pkg/tun/fakettl.go:27-48 | For every observed hop limit and every configured limit, the default of 8 included: the exact set of forward paths on which the fake is dropped - as long as the guessed distance less three, or as long as the configured limit |
| FakeTtl.FakeDiesExactly | pkg/tun/fakettl.go:27-48 | Where the guess of the initial value is right, the guessed distance is that of the return path, for every configured limit |
| FakeTtl.GuessIsRight | pkg/tun/fakettl.go:27-39 | For a server starting at 64, 128 or 255 the guess is right if and only if the return path has fewer than 64 resp. 127 routers (or the server starts at 64) |
| FakeTtl.UnknownHopLimit | pkg/tun/fakettl.go:25-30 | With an unknown hop limit the configured one is used and the fake dies exactly on paths at least that long |
| SeqTracker.Tracker.CapturePacket | pkg/capture/capture_darwin.go:22-44 | Only SYN-ACKs from port 443 pass the filter, whatever ports are watched |
| SeqTracker.Tracker.ProcessPacket | pkg/capture/capture_darwin.go:97-140 | A SYN-ACK from a watched port stores one event under our local port; any other packet changes nothing |
| SeqTracker.Tracker.LoadAndDelete | pkg/seqtrack/seqtracker_darwin.go:36-39 | A take returns and removes the stored event of the port |
| SeqTracker.Tracker.WaitForSeqAck | pkg/seqtrack/seqtracker_darwin.go:33-43 | Polls until an event for the port is there or the deadline has passed, whatever else happens between two polls; what it takes and leaves is WaitIsTakes |
| SeqTracker.WaitIsTakes | pkg/seqtrack/seqtracker_darwin.go:33-43 | A wait is the sequence of its polls, each a take: it returns what the last one took, the earlier ones found nothing, without an event all were made, and the map it leaves is the one after these takes and everything in between |
| SeqTracker.NothingLeftToFind | pkg/seqtrack/seqtracker_darwin.go:36-39 | After a wait, found or not, a further wait for the port finds nothing unless there is a new capture for it |
| SeqTracker.OnlySynAcksStored | pkg/capture/capture_darwin.go:97-140 | The entry of a port changes only by a SYN-ACK over IP from a watched port to this one |
| SeqTracker.GetSeqAck | pkg/seqtrack/seqtracker_darwin.go:60-81 | The numbers of the event found in time; 1, 1, 0 without one, without a tracker and for a connection that is not TCP |
| SeqTracker.EventCarriesHandshake | pkg/capture/capture_darwin.go:129-137 | For every pair of initial sequence numbers, wrap-around included, the event has the client's snd_nxt and rcv_nxt, its ports, its own address first and the hop limit, in both families |
| SeqTracker.StoredIsLastCaptured | pkg/seqtrack/seqtracker_darwin.go:25-43 | Over every interleaving of captures and takes, the stored event of a port is the last one captured for it since its last take, and there is none if there was no such capture |
| SeqTracker.TakenOnce | pkg/seqtrack/seqtracker_darwin.go:33-43 | Two takes of a port that both find an event find different captures, the second one captured after the first take |
| SeqTracker.WaitGetsHandshake | pkg/seqtrack/seqtracker_darwin.go:60-81 | With no stale event, a connection gets the numbers of its own handshake if and only if it goes to port 443, this port is watched and its SYN-ACK arrives before the deadline; the placeholders otherwise |
| SeqTracker.OtherPortsGetPlaceholders | pkg/capture/capture_darwin.go:44-44 | A connection to any other port, configured or not, always gets the placeholders |
| SeqTracker.StaleEventIsTaken | pkg/seqtrack/seqtracker_darwin.go:33-43 | With a stale event for the port, the connection gets its own event if and only if its SYN-ACK passes the filter, from a watched port, before the first poll, and the stale one otherwise |
| Relay.InjectAndForward | pkg/tun/handler.go:68-116 | At most three fakes, none after a failed send, then the buffered ClientHello; the copies start only if it was written in full, and nothing goes out if it could not be read |
| Relay.CopyLoop | pkg/tun/handler.go:184-210 | The loop of reads and writes ends after a failed write or a read error; its state is that of the actions of its turns, and what it delivered is a prefix of what its source produced |
| Relay.TurnDelivers | pkg/tun/handler.go:192-204 | A turn reads as many bytes as it asks for, as there are and as fit 32768, and delivers all of them, also when the read reports an error, which then ends the loop |
| Relay.TurnFails | pkg/tun/handler.go:195-199 | A write that fails after k bytes delivers exactly these of what was read, and ends the loop |
| Relay.DirectionsAreIndependent | pkg/tun/handler.go:184-210 | In any interleaving each direction is where its own actions, run alone, bring it |
| Relay.InterleavedLoops | pkg/tun/handler.go:184-210 | Two copy loops, interleaved in any way, end where each ends on its own, with only prefixes of what was produced delivered and the ClientHello first |
| Relay.StoppedStays | pkg/tun/handler.go:192-205 | A loop that stopped reads and delivers nothing more: what it had not read is lost |
| Relay.RelayDeliversInOrder | pkg/tun/handler.go:184-210 | In any interleaving of the two copies what was delivered in each direction is always a prefix of what was produced and starts with the ClientHello towards the server; of what was read nothing is lost unless a write failed; all fakes precede the first real byte. Once one side has ended both deadlines are set, so a read error can stop the other loop too, and bytes it has not read are then lost without a failed write |
| Relay.FakesSentAreFakes | pkg/tun/handler.go:97-103 | The number of fakes is the number of sends before the first failing one, at most three; all are alike |
| Relay.FakesFit | pkg/tun/handler.go:83-103 | What a receiver reads in each fake of a connection without a stale event: its ports, a ClientHello for www.google.com and, if the SYN-ACK came in time from port 443 and this port is watched, the sequence number of the real ClientHello's first byte and the right acknowledgement number, else the placeholders; and it is dropped on exactly the paths for that SYN-ACK's hop limit, else for an unknown one |
| Relay.FakesDie | pkg/tun/handler.go:97-103 | For every configured limit each fake is received as the connection's own packet on the way, and is dropped before the server on exactly the stated forward paths |
| Relay.DiesOnLikePaths | pkg/tun/handler.go:97-103 | On a path of at least one router and at most three shorter than the return path, from a server starting at 64, 128 or 255, the fake is dropped if and only if the configured limit is not negative, or the path is as long as its low 8 bits say |
| Relay.NegativeLimitReachesServer | pkg/tun/handler.go:97-103 | With the limit -1 a fake passes even 10 routers towards a server that is 4 away |
| Relay.TtlFitsByte | pkg/tun/handler.go:97-99 | The limit survives its narrowing to a byte if and only if it is not negative and at most 255 or cut down by an observed hop limit |
| DnsQueue.Server.PopDomain | pkg/dns/server.go:25-39 | Returns and removes the oldest domain of the address, "" if there is none |
| DnsQueue.Server.RecordAnswer | pkg/dns/server.go:121-145 | An answered A or AAAA question appends its domain once for each address record |
| DnsQueue.FirstInFirstOut | pkg/dns/server.go:25-39 | Over every interleaving of answers and pops, the domains handed out for an address followed by its queue are the domains pushed for it in order; other addresses make no difference and no stored queue is empty |
| DnsQueue.EmptyMeansNone | pkg/dns/server.go:28-31 | If no question asks for the root, no queued domain is "", so "" means an empty queue |
| DnsQueue.TrimDotTakesDot | pkg/dns/server.go:133-133 | A domain is queued without its closing dot, and otherwise as asked |
| ResolvConf.SetSystemDns | pkg/dns/system_linux.go:14-37 | The loop writes the marker, 127.0.0.1 and the replacement of each line, in order |
| ResolvConf.RestoreSystemDns | pkg/dns/system_linux.go:40-66 | The loop writes what is restored of each line, or the fallback if nothing is |
| ResolvConf.SetStarts | pkg/dns/system_linux.go:20-24 | The file Set writes starts with the marker and the local nameserver and ends with a newline |
| ResolvConf.RestoreUndoesSet | pkg/dns/system_linux.go:11-66 | Restore after Set gives the file with blank and gecit lines dropped and nameserver lines trimmed, or the fallback |
| ResolvConf.RestoreKeepsForeign | pkg/dns/system_linux.go:40-66 | Lines other programs added in the meantime, nameservers included, survive the Restore, in order and unchanged but for blank ones |
| Text.TrimSpaceTakes | pkg/dns/system_linux.go:25-25 | Trimming takes all white space off both ends and nothing else |
| Text.JoinUndoesSplit | pkg/dns/system_linux.go:20-36 | Joining the lines of a file at newlines gives the file back |
| ResolvConf.NormalIsFixed | pkg/dns/system_linux.go:11-66 | Doing this again changes nothing |
| ResolvConf.AfterSet | pkg/dns/system_linux.go:20-36 | After Set, whatever the file: the only nameserver line is 127.0.0.1, the old nameservers are saved in order, every other line survives unchanged and in order |
| ResolvConf.RestoreAfterTwoSets | pkg/dns/system_linux.go:24-34 | After two Sets the only nameserver that can be restored is 127.0.0.1 |
| ResolvConf.TwoSetsLoseNameservers | pkg/dns/system_linux.go:11-13 | So the promise that saved nameservers survive a crash and restart - as saved ones, and after Restore - holds if and only if 127.0.0.1 already was the only nameserver |
| ResolvConf.TwoSetsChangeFile | pkg/dns/system_linux.go:11-13 | And the whole restored file is the same as after one Set if and only if, besides, that nameserver came before every other kept line |
| LinuxEngine.Engine.Start | cmd/gecit/app/run_linux.go:79-100 | Starts the parts in order and rolls them back on failure |
| LinuxEngine.Engine.Stop | cmd/gecit/app/run_linux.go:102-113 | Restores the file and stops everything, carrying on if the restore fails |
| LinuxEngine.StartOutcome | cmd/gecit/app/run_linux.go:79-100 | A start succeeds if and only if its parts do, and then they run; after a failure nothing is left running, and the file is the original or its normal form - or still points at 127.0.0.1 if and only if the rollback failed too |
| LinuxEngine.AnySessions | cmd/gecit/app/run_linux.go:79-113 | Any number of sessions, each failing at any point, in its rollback or in the restore of its stop, or killed: the file is untouched if none got as far as rewriting it, and otherwise it is given exactly by the last rewriting session and whether an earlier one left it unrestored |
| LinuxEngine.BackToNormal | cmd/gecit/app/run_linux.go:102-113 | It is back in normal form if and only if the last rewriting session restored it and so did every earlier one - or 127.0.0.1 had been the only nameserver and first |
| LinuxEngine.NameserversBack | cmd/gecit/app/run_linux.go:102-113 | Its nameservers are back if and only if every rewriting session restored it, or 127.0.0.1 had been the only one |
| LinuxEngine.FailedRestoreLoses | cmd/gecit/app/run_linux.go:104-106 | One rewriting session that failed to restore or was killed, and one clean session after it, lose every nameserver |
| LinuxEngine.CleanCycles | cmd/gecit/app/run_linux.go:79-113 | n clean start/stop cycles give the same file for every n >= 1 |
| LinuxEngine.CrashThenSession | cmd/gecit/app/run_linux.go:79-113 | Killed while running and used once more, the engine gives the nameservers back if and only if 127.0.0.1 already was the only one, and the whole file if and only if it also came first |
| LinuxEngine.CrashThenCleanup | cmd/gecit/app/cleanup_linux.go:3-5 | Killed after the rewriting, the cleanup command changes nothing: 127.0.0.1 stays the only nameserver, although restoring the file then would still give its normal form |
| StartCommand.BuildStartCommand | apps/macos/geçit/Core/RuntimeCommandBuilder.swift:4-16 | The command is "start", the TTL of at least 1, the DoH switch and each non-empty trimmed field, joined by blanks; what it says is CommandGivesSettings |
| StartCommand.CommandGivesSettings | apps/macos/geçit/Core/RuntimeCommandBuilder.swift:4-16 | An independent option parser reads TTL and DoH switch back from what arrives for every settings value, and, where no trimmed field holds a blank, every field exactly once if it is not empty |
| StartCommand.CommandRoundTrip | apps/macos/geçit/Core/RuntimeCommandBuilder.swift:4-16 | For every settings value: the words the helper splits off; they are the app's own arguments if and only if no trimmed field holds a blank, and the allowlist takes all of them if and only if the TTL is at most 255 and each field is empty or its first word is in its grammar and its further words are allowed arguments |
| StartCommand.AcceptedIsAcceptable | apps/macos/geçit/Core/Installer/HelperDaemonScriptBuilder.swift:100-143 | For settings without such fields, accepted is the same as being in the grammar |
| StartCommand.FieldHoldsTwoArguments | apps/macos/geçit/Core/RuntimeCommandBuilder.swift:7-9 | An interface field holding an interface, a blank and any allowed argument is outside the grammar, but comes in as these two allowed arguments |
| StartCommand.AcceptedOutsideGrammar | apps/macos/geçit/Core/RuntimeCommandBuilder.swift:7-9 | So settings outside the grammar are accepted, and launch with an argument that no field stands for |
| StartCommand.AcceptedOutsideGrammarInstance | apps/macos/geçit/Core/RuntimeCommandBuilder.swift:7-9 | For instance "en0 --ports=1" as the interface |
| StartCommand.AcceptableIsUnspaced | apps/macos/geçit/Core/RuntimeCommandBuilder.swift:7-9 | Settings in the grammar arrive as the app's own arguments |
| StartCommand.FakeTtlAccepted | apps/macos/geçit/Core/Installer/HelperDaemonScriptBuilder.swift:105-109 | An accepted fake-ttl is the decimal text of a number from 1 to 255 - or of one so large that the shell's comparison fails, which lets it through |
| StartCommand.PortsAccepted | apps/macos/geçit/Core/Installer/HelperDaemonScriptBuilder.swift:128-137 | Accepted port lists are exactly the comma-separated decimal texts of one or more numbers from 1 to 65535 |
| StartCommand.AcceptedPorts | cmd/gecit/app/run.go:88-94 | The numbers read from an accepted list print back to it and survive the narrowing to uint16, for a list of any length |
| StartCommand.ToUint16Slice | cmd/gecit/app/run.go:88-94 | The output slice holds every element narrowed to its low 16 bits |
| Decimal.CanonicalIsDigits | apps/macos/geçit/Core/Installer/HelperDaemonScriptBuilder.swift:107-107 | Digit strings without a leading zero are the decimal texts of the positive numbers |
| Supervisor.CheckToken | apps/macos/geçit/Core/Installer/HelperDaemonScriptBuilder.swift:104-140 | The case statement decides TokenOk |
| Supervisor.CheckPorts | apps/macos/geçit/Core/Installer/HelperDaemonScriptBuilder.swift:128-136 | The loop over the ports of a list decides PortsOk |
| Supervisor.Helper.SanitizeStartArgs | apps/macos/geçit/Core/Installer/HelperDaemonScriptBuilder.swift:100-143 | Accepts if and only if every token is allowed; SAFE_ARGS holds the tokens in front of the first that is not |
| Supervisor.Helper.WriteStatus | apps/macos/geçit/Core/Installer/HelperDaemonScriptBuilder.swift:48-63 | Writes the state and the pid of a live engine, with time passing before and after it looks |
| Supervisor.Helper.StartGecit | apps/macos/geçit/Core/Installer/HelperDaemonScriptBuilder.swift:145-159 | Rejects bad arguments, reports an engine that runs already or a missing binary, else launches |
| Supervisor.Helper.Launch | apps/macos/geçit/Core/Installer/HelperDaemonScriptBuilder.swift:160-176 | Runs the binary, records its pid, waits, and reports what it finds |
| Supervisor.Helper.StopGecit | apps/macos/geçit/Core/Installer/HelperDaemonScriptBuilder.swift:178-190 | Terminates and kills the engine, removes the pid file, and runs the binary's cleanup command if the binary is there |
| Supervisor.Helper.HandleCommand | apps/macos/geçit/Core/Installer/HelperDaemonScriptBuilder.swift:192-202 | Dispatches on the first word; without a word the shell exits on an unbound variable |
| Supervisor.Helper.Loop | apps/macos/geçit/Core/Installer/HelperDaemonScriptBuilder.swift:204-219 | The loop over any sequence of command file contents, an exited helper being launched anew; what its turns do and leave alone are the rows below |
| Supervisor.EnginesLeftAlone | apps/macos/geçit/Core/Installer/HelperDaemonScriptBuilder.swift:204-219 | Over every run without a stop or cleanup command, every engine that was alive still is, unless it died by itself in a moment that passed |
| Supervisor.IdleTurn | apps/macos/geçit/Core/Installer/HelperDaemonScriptBuilder.swift:212-218 | A turn without a command says "running" once if the engine is found alive and nothing otherwise, and changes nothing else |
| Supervisor.CommandTurn | apps/macos/geçit/Core/Installer/HelperDaemonScriptBuilder.swift:207-218 | A turn with a command obeys it and then sleeps |
| Supervisor.ExitedTurn | apps/macos/geçit/Core/Installer/HelperDaemonScriptBuilder.swift:204-206 | A helper that exited is launched anew, says "stopped" and leaves a running engine alone |
| Supervisor.BootSays | apps/macos/geçit/Core/Installer/HelperDaemonScriptBuilder.swift:204-206 | The helper starts with nothing running and says "stopped" |
| Supervisor.OtherAnswers | apps/macos/geçit/Core/Installer/HelperDaemonScriptBuilder.swift:192-202 | "status" says "running" or "stopped" as the engine is found, an unknown command "error", and neither changes anything; a command without a word only ends the helper |
| Supervisor.StartRefused | apps/macos/geçit/Core/Installer/HelperDaemonScriptBuilder.swift:145-159 | A start with a bad argument, a running engine or no binary gives one answer - "running" only for the second - and launches nothing |
| Supervisor.StartLaunched | apps/macos/geçit/Core/Installer/HelperDaemonScriptBuilder.swift:160-176 | Any other start launches one engine with exactly its arguments and says "starting" and then "running", with the pid on file, or "error", with none, as the engine lives through the two moments until it is looked for |
| Supervisor.StopAnswers | apps/macos/geçit/Core/Installer/HelperDaemonScriptBuilder.swift:178-190 | A stop says "stopping", takes its time to end an engine it finds, says "stopped", and launches nothing |
| Supervisor.EveryRunIsSafe | apps/macos/geçit/Core/Installer/HelperDaemonScriptBuilder.swift:145-219 | Over every run, engines dying at any moment: at most one engine is ever alive and it is the one in the pid file; engines get allowed arguments only; "running" is written only after a successful check, and only while it is true if nothing dies between check and write |
| Supervisor.RunningLineTrue | apps/macos/geçit/Core/Installer/HelperDaemonScriptBuilder.swift:48-70 | A "running" line is true when written if and only if its engine survives the two moments between check and write |
| Supervisor.StartReports | apps/macos/geçit/Core/Installer/HelperDaemonScriptBuilder.swift:145-176 | The last status of a start is "running" only with allowed arguments, a pid file and an engine found alive, and "error" only if an argument was not allowed or no engine is alive |
| Supervisor.StopStops | apps/macos/geçit/Core/Installer/HelperDaemonScriptBuilder.swift:178-190 | A stop or cleanup leaves no engine alive and no pid file, and runs the cleanup command once if and only if the binary is there |
| Supervisor.AppCommandLaunches | apps/macos/geçit/Core/GecitControlService.swift:9-10 | For every settings value, the command the app builds and sends launches the engine once if what arrives is accepted, no engine runs and the binary is there, with exactly the words that arrive - the arguments of the settings if and only if no trimmed field holds a blank |

## Left out

- Sockets, pcap, the TUN device, eBPF loading, perf ring buffers, HTTP and DoH transport: foreign calls; a send is an append to a trace and setsockopt a write to the socket's history.
- The kernel's rejection of MSS values: setsockopt always succeeds in the model.
- RawSocket.BuildPacket: connections whose two addresses are of different families, for which the code leaves address bytes zero or missing, are not modelled; no caller produces them.
- Eviction by the kernel's LRU hash is a step that may pick any victim of an overfull map; which entry the kernel picks, and that it may evict somewhat before the map is full, is not modelled.
- SockOps.Restoration: like RestorationWithinCapacity, assumes that a connection's cookie is not used again and that the threshold plus one segment length stays below 2^32; CounterWrap states what happens beyond.
- SockOps.Program.GecitSockops: that the kernel calls back for a segment at all, which needs the callback flag and, by its rules, reserved option space (the program asks for none), is assumed; the laws speak of the segments that are reported.
- Relay.CopyLoop: the two concurrent copies are a state machine over the reads and writes of the two loops rather than two threads; what is read and when is arbitrary; timeouts, and the deadlines set once one side has ended, are reads with an error. No claim about progress.
- Relay.InjectAndForward: the log lines, and the name the parser found, which only goes into a log line.
- SeqTracker.Tracker.CapturePacket: an IPv6 SYN-ACK behind extension headers, which the filter's fixed offset misses, counts as passing.
- PerfEvents.FakeMatchesConnection: what the kernel shows in the IPv4 address fields of an IPv6 socket is arbitrary.
- SeqTracker.Tracker.WaitForSeqAck: the deadline is a number of polls.
- Writing resolv.conf only in part (a full disk): a rewrite happens or leaves the file as it was. Bytes that are not UTF-8: the file is a sequence of characters.
- LinuxEngine.Engine.Start: resolving the upstreams' addresses before the DNS takeover, and what the manager sets up inside its own start.
- Supervisor.Helper.StartGecit: log rotation, file modes and ownership, the text and time in status lines. Pids are not reused by other processes. The helper itself is killed only where the shell exits by itself.
- StartCommand.FakeTtlAccepted: character ranges in shell patterns are those of the C locale.
- Default configuration, presets, DoH fallback between upstreams, button states: easy members only.
- DNS setup on macOS and Windows, ARP/NDP and route scraping, interface detection: driven by the output of external commands.
- The Windows pcap sender, the views, the installer and the property lists of the app.
