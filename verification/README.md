# FerrumProxy: a Dafny model of the proxy core

FerrumProxy forwards TCP and UDP traffic, above all for Minecraft Bedrock servers. Its core is a set of
small protocols whose correctness spans whole runs: a per-address flood guard, an HTTP/1 observer and an
answer relay for NetherNet signaling, a UDP session machine that re-arms PROXY headers, a shared relay with
a port allocator and a framed UDP tunnel, the codecs these rest on, path and Location rewriting, the
manager's credential store and the client's bandwidth window. This project models that core and proves
what it promises, for all inputs, all runs and all interleavings of its steps.

Code that computes is modelled by functions. Code that loops or changes fields is modelled by methods and
classes, each proved equal to a function of its inputs or of its old state; the theorems are about those
functions. Where a promise fails on some inputs, the condition under which it holds is proved as an
equivalence on the settings or the input, and the failing runs or texts are constructed.

| files | contents |
|---|---|
| `net`, `utf8`, `text`, `chunking` | addresses, UTF-8, the string operations the sources use, chunked bodies |
| `ddos_guard`, `ddos_service` | the flood guard as a function of its calls, and as the running object |
| `ddos_meters`, `ddos_guard_proofs`, `ddos_pruning`, `ddos_window`, `ddos_conformance`, `ddos_invariants` | pruning, window bounds, admission, escalation, permits |
| `ddos_runs`, `ddos_exactness` | runs built call by call, and why the conditions are exact |
| `observer`, `observer_proofs`, `observer_cuts`, `observer_limits`, `observer_print`, `observer_stream` | the HTTP observer: stability, chunking independence, limits, printed streams |
| `sdp_lines`, `sdp`, `sdp_proofs`, `sdp_twice`, `sdp_passes` | candidate advertisement in SDP answers |
| `answers`, `answers_proofs`, `answers_print`, `answers_heads`, `answers_rerelay`, `answers_framing`, `answers_fixpoint`, `answers_example` | the answer relay as parser and printer |
| `udp_session`, `udp_headers`, `udp_history`, `udp_targets`, `udp_accounting` | UDP sessions, PROXY header re-arming, session counters |
| `allocator`, `allocator_queue` | port allocation and the queue of waiters |
| `proxy_protocol`, `raknet`, `tunnel`, `pong`, `pong_proofs` | PROXY v2 chains, the UDP tunnel, RakNet pongs |
| `http_rewrite`, `secrets`, `secrets_trace`, `secrets_store`, `bandwidth` | redirects, credentials, bandwidth window |

Standards: PROXY v2 headers follow section 2.2 of the HAProxy PROXY protocol specification, mapped addresses
section 2.5.5.2 of RFC 4291, HTTP framing sections 6.3 and 7.1 of RFC 9112, SDP lines section 5 of RFC 8866,
candidate lines section 5.1 of RFC 8839.

## Model

| member | source | states |
|---|---|---|
| DdosPruning.PruningIsInvisible | src/ddos_guard.rs:63-142 | In every run with a monotone clock, every call gets the same answer from the pruned map as from one that never prunes, when all three meters are forgettable: never taken from, refilling within the 600 s retention, or, for bytes, held back enough by the packet bucket |
| DdosGuardProofs.StepsAlike | src/ddos_guard.rs:219-303 | The simulation step: maps that agree on settled tokens, decayed violations, live blocks and permits answer alike and stay in agreement, one pruned and one not |
| DdosGuardProofs.PrunedIsFresh | src/ddos_guard.rs:295-303 | A state whose spent tokens come back within the retention is, once pruned and settled, indistinguishable from a new one |
| DdosPruning.RunShallow | src/ddos_guard.rs:101-132 | Under a forgettable meter, in every state of every run, what an address owes when last seen comes back within the retention |
| DdosPruning.DebtBounded | src/ddos_guard.rs:259-293 | Bytes owed are explained by largest datagrams and time; no number of them in any time that the packet bucket allows owes more than the retention gives back |
| DdosGuardProofs.SettledLater | src/ddos_guard.rs:285-293 | Settling a state at one time and again later equals settling it once at the later time |
| DdosExactness.PruningInvisibleIff | src/ddos_guard.rs:295-303 | Pruning is invisible in every answer of every run if and only if the guard is disabled or all three meters are forgettable, for all real rates and bursts |
| DdosWindow.WindowBound | src/ddos_guard.rs:101-132 | In every run and for all t1 <= t2, admitted connections, packets and bytes of one address are each at most burst + rate * (t2 - t1), across pruning too |
| DdosWindow.PotentialBound | src/ddos_guard.rs:259-293 | Tokens taken in a window plus the bucket's remaining level never exceed burst plus what the window earned |
| DdosWindow.StepPays | src/ddos_guard.rs:276-293 | Every call lowers the level of its address by exactly the tokens it takes, pruned or not |
| DdosExactness.WindowBoundIffForgettable | src/ddos_guard.rs:295-303 | For each meter and all real rates and bursts, the window bound holds of every pruned run if and only if the meter is forgettable |
| DdosExactness.BeatsBound | src/ddos_guard.rs:63-132 | If a meter is not forgettable, the run that beats the bound: run up a debt deeper than the retention gives back, be forgotten, and repeat |
| DdosExactness.Visit | src/ddos_guard.rs:63-132 | Whoever is met as new can owe more than will be forgiven: by whole calls and one more for the fraction, or by datagrams in a burst, with one more packet waited for, or in a trickle |
| DdosRuns.Wait | src/ddos_guard.rs:295-303 | An address can wait for any time without being forgotten, its buckets refilling and nothing being admitted |
| DdosConformance.LevelIffConforms | src/ddos_guard.rs:259-293 | After any run each of the three buckets holds an amount if and only if taking it keeps every window ending now within burst plus rate times duration |
| DdosConformance.OpenAdmittedIff | src/ddos_guard.rs:63-99 | After any run a connection is admitted if and only if its address is not blocked, has fewer outstanding permits than the limit, and one more connection keeps every window within the bound |
| DdosConformance.DatagramAdmittedIff | src/ddos_guard.rs:101-132 | After any run a datagram is admitted if and only if its address is not blocked, it is not too large, and both one more packet and its bytes keep every window within the bound |
| DdosConformance.PacketSpentIff | src/ddos_guard.rs:101-132 | A datagram spends a packet, admitted or dropped for its bytes, if and only if its address is not blocked, it is not too large, and one more packet conforms |
| DdosConformance.LastFull | src/ddos_guard.rs:276-293 | At any time some window has used exactly what the bucket lacks: the one since it was last full |
| DdosInvariants.EscalationBound | src/ddos_guard.rs:219-256 | In every reachable state violations are at most 25, and a block lasts exactly 20 s at the 24th or 40 s at the 25th |
| DdosInvariants.PermitConservation | src/ddos_guard.rs:63-99 | In every run an address's connection count equals its outstanding permits, never exceeds the limit, and an address with permits is never pruned |
| DdosInvariants.ReleaseNeverSaturates | src/ddos_guard.rs:134-157 | Dropping a permit always finds its entry with a positive count |
| DdosService.Guard.TcpConnectionOpened | src/ddos_guard.rs:63-99 | The running object's map and answer are one step of the model, and a granted permit is live exactly when the guard is enabled |
| DdosService.Guard.UdpDatagramAllowed | src/ddos_guard.rs:101-132 | The running object's map and answer are one step of the model |
| DdosService.Guard.DropPermit | src/ddos_guard.rs:134-157 | A live permit releases its connection once; a released one changes nothing |
| DdosService.Guard.PruneIdleStates | src/ddos_guard.rs:295-303 | Leaves exactly the retained entries |
| DdosService.Guard.RecordViolation | src/ddos_guard.rs:228-256 | Stores the escalated state and gives the reason the model gives |
| DdosService.TakeTokens | src/ddos_guard.rs:276-293 | Refill and take agree with the bucket of the model |
| ObserverProofs.FrameStable | src/nethernet_diagnostics.rs:141-265 | Past the blank line every answer of the framer, success or error, is unchanged by more bytes |
| ObserverProofs.ChunksStable | src/nethernet_diagnostics.rs:267-301 | Any answer of the chunk parser is unchanged by more bytes |
| ObserverProofs.QuietUntilCompleteIffHeadFits | src/nethernet_diagnostics.rs:155-166 | A complete message stays undecided on every proper prefix if and only if its blank line ends within one byte of the header limit |
| ObserverCuts.CutIndependence | src/nethernet_diagnostics.rs:92-132 | However a stream of observable messages and an unfinished rest is cut into feeds, the same events come out in order and the rest stays pending, unless some feed overflows the inspection limit; then, and only then, the observer gives up |
| ObserverLimits.MalformedCutIndependence | src/nethernet_diagnostics.rs:92-140 | However a stream is cut within the inspection limit whose rest, once its blank line is there within a byte of the header limit, is refused, the messages before it are reported, it is skipped exactly once and for the same reason, and the observer is silent from then on |
| ObserverLimits.ReadsAreSafe | src/nethernet_diagnostics.rs:303-335 | Feeds of at most 16 KiB, the size of the relay's reads, never overflow the inspection limit when every message ends a read before it and an unfinished rest lies within it |
| ObserverLimits.LateHeadDependsOnCut | src/nethernet_diagnostics.rs:155-166 | Every complete message whose head does not fit: fed whole it is reported, fed with its blank line in two parts it is given up |
| ObserverCuts.UnfinishedIsQuiet | src/nethernet_diagnostics.rs:141-265 | Every proper prefix of an observable message is such a rest |
| ObserverCuts.CloseDelimitedIsQuiet | src/nethernet_diagnostics.rs:230-234 | A response delimited by the end of the stream is undecided until then |
| ObserverCuts.CloseDelimitedAtEof | src/nethernet_diagnostics.rs:230-234 | At the end of the stream it is reported with everything after its head as body |
| ObserverStream.PrintedIsSeen | src/nethernet_diagnostics.rs:141-265 | Reading undoes printing: a printed request or response in any framing is reported whole, with its method, path class or status, its coding, content kind and body, if its head is at most four bytes over the header limit, and is skipped for its head otherwise; its head fits, so that it may be cut anywhere, if and only if it is at most one byte over |
| ObserverStream.LateRequestDependsOnCut | src/nethernet_diagnostics.rs:155-166 | Requests two, three and four bytes over the limit: reported when fed whole, given up when the last byte comes alone |
| ObserverStream.StreamIsSeen | src/nethernet_diagnostics.rs:92-132 | A stream of printed messages, cut anyhow within the limit, is reported message by message and nothing stays pending |
| ObserverStream.ChunksSeen | src/nethernet_diagnostics.rs:267-301 | The chunk parser undoes chunked coding for any split of a body, any size lines it accepts and any trailers, and finds the exact end |
| ObserverStream.EveryBodyHasParts | src/nethernet_diagnostics.rs:267-301 | Every body within the limit has a chunked coding of this kind |
| ObserverStream.HeadRead | src/nethernet_diagnostics.rs:167-207 | The head of a printed message parses to its start line, framing, coding and content kind |
| ObserverPrint.PrintedDelimiter | src/nethernet_diagnostics.rs:142-154 | The blank line is found where the printer put it and not earlier |
| Observer.HttpObserver.FeedBytes | src/nethernet_diagnostics.rs:92-132 | The running observer's pending bytes, flag and events are one feed of the model |
| Observer.HttpObserver.Stop | src/nethernet_diagnostics.rs:133-140 | Giving up reports the reason, drops the pending bytes and disables the observer |
| Observer.ParseChunks | src/nethernet_diagnostics.rs:267-301 | The chunk loop ends on every input and computes the model's chunk parser |
| Observer.ReadChunk | src/nethernet_diagnostics.rs:270-299 | One turn of the chunk loop, with its limit and delimiter errors |
| Observer.SkipTrailers | src/nethernet_diagnostics.rs:277-286 | Skips trailer lines to the first empty one |
| AnswersProofs.WritesWholeMessages | src/nethernet_signaling.rs:44-230 | Whatever happens, the relay has written exactly the outputs of the whole responses before some rest of the stream, and it fails only on the response that starts that rest |
| AnswersProofs.OthersPassUnchanged | src/nethernet_signaling.rs:211-226 | A stream without SDP answers passes byte for byte |
| AnswersProofs.MessageConserves | src/nethernet_signaling.rs:57-182 | A response read off a stream is exactly the bytes before the rest |
| AnswersFixpoint.RelayTwiceIff | src/nethernet_signaling.rs:44-230 | Whatever the relay has written for a stream, relaying it again reproduces it and succeeds if and only if, for every SDP answer handled, the last header line is not a kept one that ends in a bare LF, the reprinted head and body are within the limits, and the lines settle |
| AnswersFixpoint.AnswerTwice | src/nethernet_signaling.rs:183-226 | An SDP answer that meets this is, once relayed, read and written again as itself, whatever follows it |
| AnswersFixpoint.AnswerDiffers | src/nethernet_signaling.rs:183-226 | One that does not is not, whatever follows it |
| AnswersHeads.AcceptedIsPrinted | src/nethernet_signaling.rs:57-84 | Every response head that the relay accepts is the printed form of its lines: lines without CR LF, none empty, of which only the last may end in a bare LF |
| AnswersHeads.HeadReads | src/nethernet_signaling.rs:57-84 | Every such head, bare LFs included, is read back as exactly its lines, or refused if it is over the header limit |
| AnswersFixpoint.MessageLocal | src/nethernet_signaling.rs:57-182 | A self-delimiting response is read the same whatever follows it |
| AnswersFraming.FramingDoesNotMatter | src/nethernet_signaling.rs:112-226 | Anywhere on a stream, answers with the same other headers and body, both or neither with a head over the limit, are relayed to the same bytes, or the same failure, chunked, with a length, without a body or closed by the stream |
| AnswersFraming.FramedAnswer | src/nethernet_signaling.rs:57-226 | An answer with any head that the relay accepts, in any framing, is relayed by its lines and its body alone, followed by what the rest of the stream is relayed to |
| AnswersFraming.EveryAnswerIsFramed | src/nethernet_signaling.rs:57-182 | These are all: every SDP answer that the relay reads is the stream of its lines and its body in one of the framings |
| AnswersFraming.EveryBodyHasChunks | src/nethernet_signaling.rs:117-161 | Every body within the limit has a chunked framing |
| AnswersFraming.AnswerDeliveredIff | src/nethernet_signaling.rs:183-226 | The peer, reading as the relay does, reads one length-framed response with the same status line and other headers and the advertised body, then the relayed rest of the stream, if and only if the last header line is not a kept one that ends in a bare LF and the reprinted head and body are within the limits |
| AnswersFraming.ChunkedReads | src/nethernet_signaling.rs:117-161 | The relay's chunk decoder undoes chunked coding for any split, any size lines it accepts and any trailers |
| AnswersFraming.ExtendedSizeLine | src/nethernet_signaling.rs:121-127 | Any hexadecimal text with any extension makes such a size line |
| AnswersRerelay.ReprintedReadsIff | src/nethernet_signaling.rs:196-210 | A reprinted answer reads back as an SDP answer with the same body under exactly this condition |
| AnswersRerelay.DanglingReads | src/nethernet_signaling.rs:196-210 | If the last kept line ends in a bare LF, the reprinted head ends before its length line: that line and the body are read as a body ended by the close, or as the next response |
| AnswersExample.BareEndIsNotDelivered | src/nethernet_signaling.rs:196-210 | A head of three lines, the last `X: y` and a bare LF, whose answer reaches the peer with the length line in its body |
| Answers.RelayAnswers | src/nethernet_signaling.rs:44-230 | The relay loop ends on every stream and writes what the model writes, with the same failure |
| Answers.ReadHeadLoop | src/nethernet_signaling.rs:66-78 | The head loop reads lines to the blank one within the header limit |
| Answers.ReadChunkedLoop | src/nethernet_signaling.rs:121-161 | The chunked-body loop agrees with the model's decoder, its limits and errors |
| Answers.ReadOneChunk | src/nethernet_signaling.rs:121-161 | One turn of that loop |
| Answers.ReadTrailersLoop | src/nethernet_signaling.rs:132-146 | The trailer loop reads lines to the blank one within its limit |
| SdpProofs.RestoresIffWholeLines | src/nethernet_signaling.rs:232-287 | Deleting added candidate lines from the output restores the input lines if and only if every gaining section ends its candidates with a whole line |
| SdpProofs.SectionGain | src/nethernet_signaling.rs:241-285 | A media section gains exactly one line if and only if it has a usable host candidate and none equal to the endpoint; otherwise it is unchanged; a gaining section whose end-of-candidates text is a whole line advertises the endpoint afterwards |
| SdpTwice.AdvertiseTwiceIff | src/nethernet_signaling.rs:232-287 | Advertising twice gives the bytes of advertising once if and only if, in every gaining section, the line that the added text is put on advertises the endpoint |
| SdpPasses.PassesNeeded | src/nethernet_signaling.rs:232-287 | A description needs one pass if it settles; the third pass changes nothing if and only if no unsettled section has a host candidate whose port word ends in the end-of-candidates text; with such a section every pass gains a line |
| SdpPasses.AdvertiseThriceIff | src/nethernet_signaling.rs:232-287 | The same on bytes: advertising three times gives the bytes of advertising twice under exactly this condition |
| SdpPasses.FlushSettlesIff | src/nethernet_signaling.rs:241-253 | One pass over a section leaves it unsettled if and only if it is such a section, and then it is one again |
| SdpTwice.LinesTwiceIff | src/nethernet_signaling.rs:241-285 | The same on lines: a section gains again if and only if the line its added text was put on does not advertise |
| SdpTwice.WholeLinesSettle | src/nethernet_signaling.rs:245-250 | Whole end-of-candidates lines are enough for that |
| SdpPasses.CutExamplePasses | src/nethernet_signaling.rs:245-250 | A text in which the search cuts a line in two: it gains a second line on the second pass and none on the third, or, if the port word ends in the end-of-candidates text, one with every pass |
| SdpProofs.AddedAdvertises | src/nethernet_signaling.rs:244-268 | The line that is added is itself a component-1 UDP candidate for the endpoint |
| SdpProofs.CutExampleNotRestored | src/nethernet_signaling.rs:245-250 | A text in which the substring search cuts a line in two, so that deletion does not restore it |
| Sdp.AdvertiseCandidates | src/nethernet_signaling.rs:232-287 | The line scan with its growing output computes the section-wise specification on every body, and rejects the same bodies and endpoints |
| Sdp.ScanAll | src/nethernet_signaling.rs:254-286 | The scan's string output is the specified lines, each ended by CRLF |
| Sdp.ScanLine | src/nethernet_signaling.rs:254-282 | One line of the scan keeps output, media flag, candidate and found flag in step with the specification |
| Sdp.Append | src/nethernet_signaling.rs:241-253 | Unless the endpoint is advertised already, inserts the candidate line by substring search: before the end of candidates behind the last media line, or at the end |
| UdpHistory.HeaderIff | src/udp.rs:355-372 | In every run, a datagram carries a PROXY header if and only if the session is RakNet with haproxy and it is the first, or nothing was sent or received for 10,000 ms before it, or a send has failed since the datagram before it |
| UdpHistory.RecordedIsHistory | src/udp.rs:136-144 | The idle time and the failure flag that decide are those of the events: the time since the last send or receive, and a failed send since the last datagram |
| UdpHeaders.LiveMappingHeaderIff | src/udp.rs:771-875 | Within 10,000 ms of any earlier datagram a header is sent if and only if a send failed in between |
| UdpTargets.SameTargetHeaderIff | src/udp.rs:771-813 | Of two datagrams to the same target within 10,000 ms, the later carries a header if and only if, since the datagram before it, one was refused by every target from that one on |
| UdpTargets.FailoverIsNew | src/udp.rs:771-813 | A change of target goes to one never sent to before, and carries a header |
| UdpHeaders.HeaderAfterSilence | src/udp.rs:136-163 | Without failures a later header comes only when every earlier datagram is more than 9,999 ms old |
| UdpHeaders.SendOutcome | src/udp.rs:771-813 | Failover picks the first usable target from the active one on; the header, the flag and the all-failed reset are as stated |
| UdpHeaders.TargetsMoveForward | src/udp.rs:771-813 | Over a run, failover never goes back to an earlier target |
| UdpHeaders.WireCarriesPayload | src/udp.rs:815-875 | Stripping the PROXY chain from what is sent gives the payload and exactly the due header, naming client and target |
| UdpHeaders.NetherNetUntouched | src/udp.rs:254-273 | Without RakNet handling datagrams pass unaltered in both directions |
| UdpHeaders.FailureReachesLiveMapping | src/udp.rs:804-807 | A run in which a failed send puts a header into a mapping one millisecond old |
| UdpHeaders.TruncationReachesLiveMapping | src/udp.rs:136-144 | A run in which whole milliseconds let a header through after 9,999.1 ms |
| UdpSession.UdpUpstream.HandleClientDatagram | src/udp.rs:355-372 | The running session's fields and what it sends are one datagram of the model |
| UdpSession.UdpUpstream.TrySendUdp | src/udp.rs:771-813 | The failover loop over the targets computes the model's attempt |
| UdpSession.UdpUpstream.TouchNow | src/udp.rs:136-139 | Records the session's age in whole milliseconds as its last activity |
| UdpSession.UdpUpstream.MarkEstablishedNow | src/udp.rs:158-163 | Records the time of the first establishment only |
| UdpAccounting.CountersBalance | src/udp.rs:419-501 | In every interleaving, opened minus closed is the number of sessions plus removals not yet counted, and no close finds the active counter at zero |
| UdpAccounting.SettledCounters | src/runtime.rs:213-225 | Once all removals are counted, the active counter is the number of sessions |
| UdpAccounting.OldTaskRemovesNewerSession | src/udp.rs:685-688 | A run in which a receive task outlives its session and removes its peer's newer one |
| UdpAccounting.SessionTable.Obtain | src/udp.rs:466-502 | Inserts unless the peer has a session by now, and counts the opening |
| UdpAccounting.SessionTable.ResetIfStale | src/udp.rs:419-446 | Removes a stale session, aborts its task and counts the close, or changes nothing |
| UdpAccounting.SessionTable.ExitTask | src/udp.rs:685-688 | Removes whatever session the receive task's peer has by now and counts a close only if there was one |
| AllocatorQueue.RunKeepsInv | src/shared_relay.rs:539-678 | In every interleaving of CONNECT and RELEASE: allocations are keyed by their own port, in range if the range is in order, no token owns two ports, both counters are the queued tasks, and queued anonymous tasks never exceed the queue limit |
| AllocatorQueue.ReachableInv | src/shared_relay.rs:539-678 | So it is in every state reached from the empty relay |
| AllocatorQueue.StepKeepsInv | src/shared_relay.rs:539-614 | Every lock section keeps this, and a decrement never finds its counter at zero |
| AllocatorQueue.NoDoubleHandout | src/shared_relay.rs:616-678 | Between two hand-outs of one port there is a release of it |
| AllocatorQueue.OwnedUntilReleased | src/shared_relay.rs:1750-1787 | A port stays allocated through any steps that do not release it |
| Allocator.FullIff | src/shared_relay.rs:661-678 | A request without a fixed port is told Full if and only if every port the scan comes to is taken, whatever the range |
| Allocator.FullInOrderIff | src/shared_relay.rs:661-678 | For a range in order: if and only if every port of the range is taken, or the range is all 65,536 ports, whose size overflows to zero |
| Allocator.AttemptOutcome | src/shared_relay.rs:616-678 | One attempt: a grant is in range, free and as asked; a token in use and a full answer change nothing and have their reason |
| Allocator.GrantsInRangeIff | src/shared_relay.rs:623-664 | Every grant lies in the range, for all requests and tables, if and only if the range is in order or its size comes out as zero; configuration does not check the order |
| Allocator.ScanHitsEvery | src/shared_relay.rs:661-664 | The rotated scan visits every port from the start on for the size of the range, wrapping, from any offset |
| AllocatorQueue.RelayState.TryAllocatePort | src/shared_relay.rs:616-678 | The scan under the write lock computes the model's attempt |
| AllocatorQueue.RelayState.TokenInUseBy | src/shared_relay.rs:628-635 | The loop over allocations decides whether a non-empty token already owns a port |
| AllocatorQueue.RelayState.JoinQueue | src/shared_relay.rs:576-596 | Joining the queue changes the counters as the model's step does, and is refused exactly when the model's task ends there |
| AllocatorQueue.RelayState.DecrementWaitingCounter | src/shared_relay.rs:602-614 | Leaving the queue changes the counters as the model's step does |
| AllocatorQueue.RelayState.HandleRelease | src/shared_relay.rs:1750-1787 | Frees the port and answers by whether it was allocated or lies outside the range |
| Tunnel.TunnelRoundTrip | src/shared_relay.rs:1593-1622 | Decoding the written stream and stripping PROXY chains gives every remote and payload in order, each with exactly its due header, if and only if no payload itself starts as a PROXY header |
| Tunnel.HeaderPayloadIsLost | src/shared_relay.rs:1593-1622 | One packet whose payload is a PROXY header: it is delivered as a header and an empty payload |
| Tunnel.ExpectedAt | src/shared_relay.rs:1594-1609 | The expected sequence, position by position: a header on each offline ping and on a remote's first other packet |
| Tunnel.FrameReads | src/shared_relay.rs:1698-1725 | A frame reads back as its remote and payload, leaving the rest of the stream |
| Tunnel.WriteTask | src/shared_relay.rs:1593-1622 | The write loop with its growing set of remotes writes the specified stream |
| ProxyProtocol.ChainRoundTrip | src/proxy_protocol.rs:26-56 | Any chain of built headers before an unsigned payload parses to those headers in order and the exact offset, mixed families mapped to IPv6 |
| ProxyProtocol.OneHeaderRoundTripIff | src/proxy_protocol.rs:26-56 | A header and payload parse back if and only if the payload is not signed |
| ProxyProtocol.BuiltHeaderParses | src/proxy_protocol.rs:58-138 | A built header parses to what a reader sees of it, of its exact length, whatever follows |
| ProxyProtocol.Chain | src/proxy_protocol.rs:26-56 | The payload offset lies within the buffer, what starts there is not signed, and no header is read exactly when the offset is zero |
| ProxyProtocol.ParseProxyChain | src/proxy_protocol.rs:26-56 | The parser's loop ends on every input and reads the reference chain |
| ProxyProtocol.ParseHeaderAt | src/proxy_protocol.rs:31-52 | One turn of the loop, with the errors for short and unsupported headers |
| PongProofs.CacheAgreement | src/udp.rs:298-323 | A reply served from the cache is byte for byte what the pipeline makes of the same backend pong carrying the ping's timestamp |
| PongProofs.ProcessStamps | src/udp.rs:561-611 | Port rewriting and MOTD normalisation commute with timestamp replacement |
| Pong.PortsRewritten | src/bedrock.rs:297-332 | A port rewrite sets fields 10 and 11 and keeps the field count, every other field and all bytes outside the string |
| Pong.PortsFixedPoint | src/bedrock.rs:297-332 | A rewritten pong needs no second rewrite |
| Pong.RebuiltParses | src/bedrock.rs:416-455 | A rebuilt pong parses to its new string and keeps the bytes around it |
| PongProofs.MotdNormalized | src/bedrock.rs:369-398 | Fields 1 and 7 become their own clean text or the other's where empty; the field count, other fields and outside bytes are kept |
| PongProofs.NormalizedAgreesIff | src/bedrock.rs:369-398 | After normalisation fields 1 and 7 are both empty or both filled if and only if the result fits its length field or they agreed before |
| PongProofs.LongTextStaysApart | src/bedrock.rs:369-398 | Pongs with 32,765 to 65,528 letters in field 1 and nothing in field 7: the result does not fit, and the fields stay apart |
| Pong.SanitizedIsOneLine | src/bedrock.rs:400-414 | A sanitized field has no control characters, single blanks only, and the words of the unquoted field |
| PongProofs.SanitizeTwiceIff | src/bedrock.rs:400-414 | Sanitizing again changes nothing if and only if the text inside the outer quotes, blanks and controls around it aside, is not again in quotes |
| PongProofs.NestedQuotesChangeTwice | src/bedrock.rs:400-414 | A field in nested quotes that changes twice |
| HttpRewrite.FollowedRedirectIff | src/http_rewrite.rs:154-274 | Following a redirect to origin + base + p brings the backend base + p, query kept, if and only if the public path is neither the base nor under it and the mount path holds no question mark |
| HttpRewrite.RepeatedBaseIsLost | src/http_rewrite.rs:154-274 | A redirect to the base below the base, with no mount path: following it asks for the base alone |
| HttpRewrite.FollowingRequestLine | src/http_rewrite.rs:94-106 | The same on the request line: the rewritten line asks for base + p |
| HttpRewrite.RedirectIsPublic | src/http_rewrite.rs:166-200 | A Location at origin + base + p becomes the mounted public path |
| HttpRewrite.TargetRebased | src/http_rewrite.rs:210-260 | A target's query survives whatever happens to its path |
| HttpRewrite.BasedOnce | src/http_rewrite.rs:210-260 | Without a mount path, a target that has the base is not given it again |
| HttpRewrite.StripsMount | src/http_rewrite.rs:262-274 | Stripping undoes mounting |
| HttpRewrite.NormalizeMappingPath | src/config.rs:652-658 | A configured mapping path becomes a lone slash or starts with a slash and ends without one |
| HttpRewrite.MappingPathKept | src/config.rs:652-658 | It is one slash and exactly what stands between the outer slashes of the configured text |
| SecretsTrace.PermitsIff | src/manager_secrets.rs:132-144 | After any history a token is permitted a scope if and only if some successful issue handed it out with that scope, its expiry lies ahead, and no revocation of it or removal of its certificate has succeeded since |
| SecretsTrace.RemovalIsFinal | src/manager_secrets.rs:268-278 | Whoever is permitted a removed certificate's scope later holds a token issued after the removal, even if the id was registered again |
| SecretsTrace.HoldsIffGranted | src/manager_secrets.rs:153-278 | Credential by credential, what the store holds is what the history granted and did not withdraw |
| Secrets.ReachableInv | src/manager_secrets.rs:153-278 | In every reachable state certificate ids are unique, every certificate scope names a registered certificate, and all hashes use the current salt |
| SecretsStore.Store.IssueCredential | src/manager_secrets.rs:153-207 | Loads, checks, appends and saves as the model's step, with the same refusals; a failed save changes nothing |
| SecretsStore.Store.PermitsNow | src/manager_secrets.rs:132-144 | The scan over credentials decides the model's permission |
| SecretsStore.Store.RevokeCredential | src/manager_secrets.rs:209-214 | Removes the credential as the model's step does |
| SecretsStore.Store.RegisterSource | src/manager_secrets.rs:221-252 | Replaces a source of the same id as the model's step does |
| SecretsStore.Store.Remove | src/manager_secrets.rs:268-278 | Removes the source and its scope from every credential as the model's step does |
| SecretsStore.CheckScopes | src/manager_secrets.rs:167-177 | The loop accepts exactly the scopes that are fixed ones or name a registered certificate |
| SecretsStore.DropScope | src/manager_secrets.rs:274-276 | The loop removes the scope from each credential and nothing else |
| Bandwidth.WindowBound | FerrumClient/src/sharedServiceManager.ts:409-424 | Bytes counted in and out during any k * 1000 ms are at most (k + 1) times the limit, whatever came before |
| Bandwidth.WindowBoundIsTight | FerrumClient/src/sharedServiceManager.ts:409-424 | For every limit and every k some run from the empty state with a monotone clock reaches (k + 1) times the limit within k * 1000 ms |
| Bandwidth.WithinWindows | FerrumClient/src/sharedServiceManager.ts:413-417 | Windows start at least 1000 ms apart, so m further windows admit at most m further limits |
| Bandwidth.SharedService.ConsumeBandwidth | FerrumClient/src/sharedServiceManager.ts:409-424 | Opens a new window when due, counts the bytes even when refused, and answers by the limit |
| Bandwidth.SharedService.HandleTraffic | FerrumClient/src/sharedServiceManager.ts:282-295 | Counts bytes in or out exactly when they are let through |

## Left out

- Sockets, tokio tasks, TLS and QUIC: sends, receives and lock sections are atomic steps.
- Clocks, randomness and the state file: passed in as parameters; `Instant` skew before a lock and races of relaxed atomics are not modelled.
- Backend datagrams that arrive while a client datagram of the same session is being sent: a run orders them before or after it.
- Rounding of `f64` in the token buckets: tokens and rates are reals.
- Datagram sizes: any natural number, as the guard's own parameter allows; its one caller in `src/udp.rs` passes at most 65,535, and the runs of DdosExactness may pass more.
- OpenAdmittedIff: "not blocked" is a fact of the state; its cause is bounded by EscalationBound.
- Liveness of queued relay clients: a stored wake-up can be lost, so only safety and counting are claimed; a wake-up may come at any time.
- RangeSize: follows release builds, where the 16-bit size wraps; a debug build stops on the full port range.
- HandleTraffic: models a service with a status; without one nothing is counted.
- Textual IP addresses: printing and parsing are parameters assumed to agree where a theorem says so.
- JSON event contents: an observer event is the parsed head and the body, of which the reported fields are functions; `sdp_summary` is not modelled.
- UTF-8 request lines decoded with replacement characters, X-Forwarded and Host lines of `rewrite_http_request`, and the splitting of response heads into lines.
- URL parsing of absolute-form request targets: a function parameter.
- SHA-256, X.509, PEM and the checks of a certificate source other than its id: hashes are told apart by their inputs, and the checks are one Boolean.
- RFC 3339 text of expiry times: expiries are instants.
- The comment in `src/udp.rs` about a 10 s mapping and the code's whole milliseconds differ by up to one millisecond; the code is followed.
- RakNet stage logging, connect and disconnect notifications, `udp_kind` and the `describe_` functions: log text.
- `spawn_rewrite_relay` in `src/tcp.rs`: its result depends on chunk boundaries and it has no specification to prove.
- `strip_unconnected_pong_name_quotes` drops a pair of quotes and is not called by the pipeline; UDP peer expiry in the client closes a socket; shared-service tokens are compared with configured ones. Nothing above depends on them.
- Firewall commands, the GUI server, self-update, process management, host metrics, front ends and benchmarks.
