# A verified model of the tethering driver

The driver carries IP traffic between a macOS utun interface and an Android phone that speaks RNDIS
over USB. This project models its parts in Dafny and proves what they promise:

- **The asynchronous bridge** (`Bridge`, `BridgeInvariant`, `BridgeRuns`, `BridgeFates`,
  `BridgeThreads`, `BridgeStopping`, `BridgeDraining`, `BridgeContext`): the TX thread, the RX
  thread, the main thread, the signal handler and libusb's completion callbacks as one transition
  system in which every access to a shared field is a step of its own, for pools of any size. One
  invariant is kept by every step of every party; the laws about slots, counters, what becomes of
  each packet and transfer, stopping, draining and freeing follow from it for every reachable state
  and run. `BridgeCtx` holds the TX pool and the counters of `bridge_ctx` in its own fields; the
  flags, the mutex and the RX pool are part of the system only. Each of its methods is proved to be
  a step of the system: besides the loops listed below these are the single accesses of
  src/main.c:255, 277, 345-346, 409-422, from wrapping and filling to the counters.
- **RNDIS framing** (`Rndis`, `Unwrap`, `RndisControl`): builder, parser and message walker with the
  code's mixture of `uint32_t` and `size_t`, and the control handshake.
- **The tunnel** (`Frame`, `Arp`, `RxPath`, `Tunnel`): conversion between utun packets and Ethernet
  frames, what happens to each received frame, and the round trip over a whole batch.
- **The DHCP client** (`Checksum`, `DhcpOptions`, `DhcpPackets`, `DhcpReplies`, `DhcpClient`): the
  two builders with their checksum, the three option loops, the reading of replies, and the
  two-phase exchange.
- **Sessions and control** (`UsbDevice`, `Session`, `IpcServer`, `Watch`, `LineReader`): ledgers of
  what is acquired and released, the command-driven state machine of watch mode, and line reassembly
  in the menu application.

Code that works in place is modelled in place: buffers are arrays, objects with fields are classes,
loops are loops with invariants. Each such method is proved equal to a function of its inputs or of
the old state, and the properties are lemmas about those functions. `Bytes`, `FiniteSets` and
`Options` are shared helpers. A buffer's contents after a method are always given in full
(`Splice`), including the bytes it leaves alone.

The host is little-endian with a 64-bit `size_t`; `AF_INET` is 2 and `AF_INET6` is 30, as on macOS.
An IPv4 address is its four bytes in memory order.

## Where the code and its promises differ

The model keeps what the code does. Where a property fails, a lemma gives the input, and another
says exactly when the property holds.

- `active_tx` is added to after the submission, so a completion can overtake the addition and the
  counter can be -1 (`CompletionOvertakes`). What holds is `CounterLaw`.
- The slot of the last submission need not have been reserved before a flag fell: the flag can fall
  between the slot loop's tests and its scan (`ReservedAfterStop`). `LastSubmissionExact` says when
  there can be another submission, and when it is sure to come from a slot already held.
- Two zero counters do not make the pools safe to free (`DrainCanMissATransfer`). `DrainTestExact`
  says when they do; `NothingPendingAtFree` is the case of a TX thread that has returned.
- `8 + data_offset` is a `uint32_t` sum. When it wraps, the parser hands out bytes although the
  payload lies outside the message (`WrappingOffset`, `ParserMeetsFormat`); the same holds for query
  answers (`WrappingInfo`, `QueryMeetsFormat`).
- The walker's `offset + msg_len` is a `uint32_t` sum as well. It can wrap only at the length field
  where the walk should stop; `StopsWhereMessagesEnd` proves that the walk stops there exactly if it
  does not. If it does, the walk goes on at an earlier offset, for ever if that is the start of a
  message (`EndlessWalk`, `WrapToBoundaryNeverEnds`; `EndsSoonOrNever` says when it ends at all),
  and the parser is told of a message that reaches beyond what was received, so that the frame
  handed out can lie there (`HandsOutBeyond`); `WalkInsideExact` says when nothing outside is read
  or handed out. `SumFits` names the hypothesis; the two walkers of the DHCP client need it too,
  where they come that far.
- A frame of no bytes can be encoded but is never delivered (`ParseUndoesBuild`).
- `dhcp_build_request` writes 303 bytes but refuses only buffers below 300. The model gives the
  builder the memory behind its buffer, and `RequestStaysInside` says when it is left alone.
- The option scanners of `dhcp_discover` do not check that a value fits and can read behind the
  options (`ScannersReadOutside`); `ScanInside` names the hypothesis, and `ScanInsideExact` proves
  that it is exactly what staying inside takes. `StartsAgree` says when the scanners find options
  where `dhcp_parse_options` does.
- The IP header length of a received frame is not compared with the frame (`HeaderTooLong`).
  `FrameOk` names the hypothesis on a frame, and `FrameOkExact` proves that it is exactly what
  staying inside the frame takes.
- The second DNS server may come from an earlier option than the first (`DnsFromTwoOptions`);
  `DnsFromOneOption` says when it does not.
- The server named in the request need not be that of the offer (`OtherServerAsked`);
  `ServerAskedExact` says when it is.
- One USB interface can be chosen for both roles (`SharedInput`, `SharedExact`); it is then claimed
  twice and released twice. The ledger counts the releases that release nothing; `Find`,
  `CloseDevice` and `RunSession` say exactly how many there are.
- A query answer shorter than six bytes is accepted and sets only the first bytes of the MAC address
  (`ShortAnswer`); `MacIsTheDevices` says when the address is the whole answer.

Two remarks besides:

- The comment at src/main.c:153-155 says that the TX thread reads the gateway address only after it
  was learned. The TX thread does not test that flag, and nothing here relies on it.
- `IPCClient` resets its end-of-file count neither on connecting nor when a read finds nothing
  (`EofsAfter`).

## Model

| member | source | states |
|---|---|---|
| BridgeInvariant.StartOk | src/main.c:565-587 | the bridge starts in a state that satisfies the invariant, for pools of any size |
| BridgeInvariant.StepKeeps | src/main.c:219-433 | every step of every party, whatever its outcome, keeps the invariant |
| BridgeRuns.RunKeeps | src/main.c:219-433 | so does every interleaving |
| BridgeRuns.SlotPartition | src/main.c:384-428 | in every reachable state each TX slot is exactly one of free, reserved by the TX thread, in flight; in_use holds exactly for the last two; at most one slot is reserved |
| BridgeRuns.WrittenOnlyWhileReserved | src/main.c:409-412 | a slot's buffer is wrapped into and its transfer filled only while the TX thread holds the slot and neither libusb nor a callback does, whatever is written |
| BridgeRuns.OnlyWritesWrite | src/main.c:409-412 | no other step of any party changes them |
| BridgeRuns.CarriesWhatWasSubmitted | src/main.c:409-414 | in every reachable state a slot about to be submitted carries the packet of its frame, byte for byte, and a slot in flight still that of the frame it was submitted with |
| BridgeRuns.CounterLaw | src/main.c:414-415 | active_tx is the number of transfers submitted and not yet subtracted, less one exactly between submission and addition, so it lies in [-1, N]; the same law for active_rx |
| BridgeRuns.StatsLaw | src/main.c:414-418 | tx_pkts and tx_bytes are, modulo 2^64, the count and length sum of all successful submissions, up to one submission not yet counted |
| BridgeStopping.OneMoreSubmission | src/main.c:386-414 | after a flag has fallen at most one more TX submission succeeds in any continuation, and only that of the frame for which the slot loop's tests had been passed |
| BridgeStopping.LastSubmissionExact | src/main.c:386-414 | after a flag has fallen another submission can follow if and only if the TX thread holds a slot or is between tests and scan with a slot free; and it is sure to come from a slot already held if and only if the second is not the case |
| BridgeStopping.ReservedAfterStop | src/main.c:386-392 | for pools of every size, a reachable run in which the slot of that submission is reserved only after the flag fell |
| BridgeStopping.CompletionOvertakes | src/main.c:414-415 | for pools of every size, a reachable state in which active_tx is -1 |
| BridgeRuns.NothingPendingAtFree | src/main.c:316-326 | if the drain loop's last test saw both counters at zero after the TX thread returned, then and ever after, hence at both free loops, libusb holds no pool transfer, no RX callback runs, and a TX callback has at most its unlock to do |
| BridgeRuns.QuietIsHistory | src/main.c:317 | in every run that history is set if and only if some step of the run was such a test |
| BridgeFates.RxCallbackEffect | src/main.c:220-256 | from its start to its end, whatever other threads do meanwhile, an RX callback leaves active_rx as it was if it resubmits and lowers it by exactly one if not, apart from what the RX thread adds |
| BridgeFates.NoResubmitWhenDown | src/main.c:250-255 | a callback that begins after a flag has fallen does not resubmit |
| BridgeFates.ResubmitExact | src/main.c:225-256 | an RX callback puts its transfer in flight again if and only if the device is there, the transfer was not cancelled, both flags stand when they are read, and the submission succeeds |
| BridgeFates.ResubmitsWhileUp | src/main.c:225-256 | in particular a completed transfer is in flight again when its callback ends, if nothing failed and no flag has fallen |
| BridgeFates.CallbackEnds | src/main.c:220-256 | every step of a callback, TX or RX, brings it nearer to its end, whatever the flags say |
| BridgeFates.PacketFate | src/main.c:384-429 | a packet for which a slot is looked for is submitted, once, if and only if both flags stand whenever they are read and it can be wrapped and submitted; it is never dropped for want of a free slot, and its batch goes on unless a flag was found down while waiting |
| BridgeFates.SubmittedWhileUp | src/main.c:384-429 | in particular if nothing failed and no flag has fallen by then |
| BridgeFates.WaiterSubmits | src/main.c:386-404 | a thread that waits for a slot can submit its packet as soon as one is free |
| BridgeFates.TxReturnsSoon | src/main.c:362-433 | after a flag has fallen the TX thread takes at most sixteen more steps, and has returned exactly when it can take none |
| BridgeThreads.StartupExact | src/main.c:263-281 | when startup is over each of the m transfers has been tried once, exactly those that could be are allocated, and each of these has been tried to submit |
| BridgeThreads.TransfersConserved | src/main.c:220-281 | in every run the RX transfers with libusb or a callback are those ever first submitted less those a callback has subtracted |
| BridgeThreads.ServesOn | src/main.c:285-296 | the event loop goes on as long as both flags stand, active_rx is positive and the device is there |
| BridgeThreads.LeavesLoop | src/main.c:263-299 | when a flag is down the RX thread has left startup and event loop after a bounded number of steps of its own |
| BridgeThreads.LeavesWhenDry | src/main.c:285-299 | when no RX transfer is left the RX thread has left the event loop after at most five steps of its own, flags or no flags |
| BridgeThreads.AllAskedToCancel | src/main.c:302-313 | from the end of the cancel loops on libusb has been asked to cancel every RX transfer and every TX transfer that is reserved or in flight |
| BridgeThreads.DrainsQuietlyInTime | src/main.c:316-320 | unless its time runs out, the drain loop is left only with nothing pending, the TX thread having returned |
| BridgeThreads.DrainIsTimed | src/main.c:316-320 | when its time has run out the drain loop ends whatever is pending |
| BridgeThreads.FreesAfterBothReturned | src/main.c:594-683 | the TX thread returns and main leaves its loop only after a flag fell, and main frees the TX pool only after running was cleared, both threads have returned and the RX pool is freed |
| BridgeThreads.DisconnectedExact | src/main.c:232-237 | in every run disconnected is set if and only if a callback or the event loop met the loss of the device, and then the session is told to stop |
| BridgeThreads.StopIsFinal | src/main.c:648-668 | after a stop command at whatever point of a run, running is 0 for good |
| BridgeDraining.DrainTestExact | src/main.c:316-326 | after a drain test on zero counters, no transfer is pending in any continuation if and only if the TX thread neither holds a slot it may submit, nor is about to reserve one, nor stands between a still pending submission and its addition |
| BridgeDraining.DrainCanMissATransfer | src/main.c:316-326 | for pools of every size, a reachable state in which main frees the TX pool while libusb holds one of its transfers |
| BridgeDraining.DrainBounded | src/main.c:225-256 | once running is 0 and the TX thread is done, no run takes more callback steps than a weighted sum over the transfers, those the RX thread has yet to submit included, although an RX callback that read running earlier may still resubmit |
| BridgeDraining.WorkStep | src/main.c:225-281 | every callback step lowers that sum strictly and no other step raises it |
| BridgeDraining.DrainProgress | src/main.c:317-320 | while the sum is positive a callback step can be taken, or the RX thread can go on with its startup, or the thread that holds the mutex can go on |
| BridgeRuns.RxFreedOnce | src/main.c:322-326 | when the RX thread is done, each RX transfer that was allocated has been freed exactly once, and no other |
| BridgeContext.BridgeCtx.TakeFreeSlot | src/main.c:387-393 | the scan takes the first free slot, or none if there is none, as one step of the protocol |
| BridgeContext.BridgeCtx.CancelSlot | src/main.c:309-312 | one round of the cancel loop is one step of the protocol and cancels exactly if the slot is reserved or in flight |
| BridgeContext.BridgeCtx.CancelTxTransfers | src/main.c:308-313 | undisturbed, the cancel loop takes the protocol through its rounds and cancels exactly the slots that are reserved or in flight |
| Rndis.BuildDataPacket | src/rndis.c:141-159 | writes the packet of section 2.2.14 of MS-RNDIS in front and nothing else, or refuses and writes nothing |
| Rndis.DataPacketBytes | src/rndis.c:141-159 | every byte of a built packet, in numbers |
| Rndis.ParseData | src/rndis.c:161-182 | a slice that is handed out is non-empty and lies inside the message, for every value of both fields |
| Rndis.ParserMeetsFormat | src/rndis.c:161-182 | the parser agrees with the format if and only if the offset sum does not wrap; when it does, a slice that begins in the first 8 bytes is handed out |
| Rndis.WrappingOffset | src/rndis.c:174-179 | a message of 44 bytes on which it does not |
| Rndis.ParseUndoesBuild | src/rndis.c:141-182 | parsing a built packet gives back the frame, except that an empty frame is refused |
| RndisControl.QueryMeetsFormat | src/rndis.c:63-87 | the query parser agrees with the format if and only if the offset sum does not wrap |
| RndisControl.WrappingInfo | src/rndis.c:76-78 | an answer of 24 bytes on which it does not |
| RndisControl.ParseQuery | src/rndis.c:63-87 | copies out what the parser accepts, no more than there is room for, hands back its length, and leaves the rest of the caller's buffer alone |
| RndisControl.Driver.BuildInit | src/rndis.c:7-23 | writes the initialise message under the next request id, or refuses and changes nothing |
| RndisControl.Driver.BuildQuery | src/rndis.c:45-61 | writes the query message under the next request id, or refuses and changes nothing |
| RndisControl.Driver.BuildSet | src/rndis.c:89-110 | writes the set message under the next request id, or refuses and changes nothing |
| RndisControl.SetCarriesData | src/rndis.c:89-110 | a device that reads the set message by the format finds exactly the given data |
| RndisControl.ScriptBytes | src/rndis.c:7-110 | every byte of the three requests of the handshake, in numbers, under consecutive ids |
| RndisControl.AnswersBytes | src/rndis.c:25-71 | which answers are accepted, in bytes: the type with the top bit set and a status of zero |
| RndisControl.Driver.Init | src/proto_rndis.c:12-87 | which of the three requests are sent for every combination of outcomes, under consecutive request ids; success exactly if the initialisation was accepted and the other two answered; the address and parameters taken |
| RndisControl.MacIsTheDevices | src/proto_rndis.c:48-57 | for every answer the address is what the device answered, zero-padded, or what the parser found behind a wrapped offset, or the fallback; and it is the whole of what was answered if and only if that is six bytes |
| RndisControl.ShortAnswer | src/proto_rndis.c:48-57 | an answer of one byte that leaves five bytes of the address zero |
| Unwrap.TestsMeetMeaning | src/proto_rndis.c:109-115 | the walker's 32-bit tests mean that a whole message is there if the sum does not wrap; otherwise they hold without one and the next offset is smaller |
| Unwrap.UnwrapData | src/proto_rndis.c:103-127 | under the hypothesis that the sum does not wrap, the walk ends and delivers exactly the frames of the whole messages, in order |
| Unwrap.StopsWhereMessagesEnd | src/proto_rndis.c:109-124 | the walk, in the arithmetic of the code, comes to the end of the last whole message and stops there if and only if that hypothesis holds |
| Unwrap.WalkInsideExact | src/proto_rndis.c:109-124 | whatever lies behind the received bytes, the walk reads and hands out nothing outside them if and only if none of its rounds with a wrapping sum does; there is none if the hypothesis holds, and the last message end is one if not |
| Unwrap.RoundInsideExact | src/proto_rndis.c:109-121 | one round, at the last message end or anywhere, stays inside the received bytes if and only if its sum fits or the slice that the header there names does not leave them |
| Unwrap.HandsOutBeyond | src/proto_rndis.c:115-121 | 24 received bytes of which the walk hands out bytes 52 to 1052 |
| Unwrap.EndsSoonOrNever | src/proto_rndis.c:109-124 | on every buffer, whatever its sums do, the walk ends if and only if it ends within two rounds more than there are bytes |
| Unwrap.WrapToBoundaryNeverEnds | src/proto_rndis.c:109-124 | if the sum wraps to the start of the buffer or of any of its messages, the walk is still running after every number of rounds |
| Unwrap.EndlessWalk | src/proto_rndis.c:109-124 | a buffer of 16 bytes with such a walk |
| Unwrap.FramesConcat | src/proto_rndis.c:109-124 | unwrap(a + b) = unwrap(a) + unwrap(b) whenever the walk consumes a exactly |
| Unwrap.UnwrapUndoesWrap | src/proto_rndis.c:96-127 | for every list of frames and other messages, and every tail with no whole message, the walk delivers exactly the non-empty frames in order; its hypothesis holds unless the tail has a length field that wraps the sum |
| Unwrap.UnwrapTruncated | src/proto_rndis.c:109-124 | any truncation delivers exactly the frames of the messages that fit whole, and meets the hypothesis |
| Unwrap.FittingIsLargest | src/proto_rndis.c:109-116 | those messages are the longest prefix that fits |
| Frame.IpToEth | src/frame.c:7-45 | the buffer after every outcome, including the two addresses written before a packet of unknown version is refused |
| Frame.EthToUtun | src/frame.c:47-74 | the buffer after every outcome; a refusal writes nothing |
| Frame.GoesOutAs | src/frame.c:11-44 | exactly which packets are converted, and every byte of the frame, in numbers |
| Frame.ComesInAs | src/frame.c:50-73 | exactly which frames are converted, and every byte of the packet, in numbers |
| Frame.EthUndone | src/frame.c:11-73 | out and back, the IP packet is unchanged and the family is normalised from the version only if it was unknown |
| Frame.UtunUndone | src/frame.c:11-73 | a convertible frame is rebuilt byte for byte if and only if it carries a payload |
| Arp.BuildReply | src/arp.c:10-37 | the whole reply written in front, or nothing |
| Arp.HandleRequest | src/arp.c:39-67 | answers exactly the requests for our address; all else returns 0 and writes nothing |
| Arp.AnswerExact | src/arp.c:10-67 | exactly which frames are answered, and every byte of the answer, in numbers |
| Arp.AnswerIsAReply | src/arp.c:10-67 | an answer goes to the asker's addresses, claims the address asked for, and is never itself answered |
| RxPath.BridgeRx.ProcessRxFrame | src/main.c:150-210 | gateway, counters, utun writes and replies after one received frame |
| RxPath.OnePath | src/main.c:168-209 | a frame is written to utun exactly if it converts, answered exactly if it asks for us and can be sent, and never both |
| RxPath.StepExact | src/main.c:150-210 | gateway, reply, utun packet and counters after one frame, by the bytes of the frame |
| RxPath.GatewayLearnedOnce | src/main.c:156-165 | over every run gw_mac is all 0xFF until the first frame of at least 14 bytes whose source does not start with 0xFF, and that source for ever after |
| RxPath.CountersCountConversions | src/main.c:203-209 | over every run rx_pkts and rx_bytes count exactly the converted frames, and utun receives exactly their conversions in order |
| Tunnel.TunnelPreservesTraffic | src/main.c:374-418 | for every sequence of utun packets, and whatever gateway address each of them meets, converting, wrapping, batching, unwrapping and converting back yields the acceptable packets unchanged and in order |
| Tunnel.ReceiveBulk | src/main.c:226-231 | one received buffer has the effect of its frames, one after the other, on gateway, counters, replies and utun, which is written exactly what they convert to |
| Checksum.FoldIsResidue | src/dhcp.c:110-111 | folding ends, keeps the residue modulo 65535, and gives zero only for zero |
| Checksum.HeaderChecksum | src/dhcp.c:105-112 | for headers of up to 65537 words no 32-bit addition wraps, and the complement of the folded sum is stored |
| Checksum.ChecksumVerifies | src/dhcp.c:103-112 | storing that value where zero was summed makes the header fold to 0xFFFF (section 1 of RFC 1071) |
| Checksum.SingleChangeDetected | src/dhcp.c:105-112 | a change of one word goes unnoticed exactly between the two representations of zero |
| DhcpOptions.ParseOptions | src/dhcp.c:11-42 | on arbitrary bytes the loop ends, stays inside, finds options at given offsets and applies the decoded options in order |
| DhcpOptions.LastWriterWins | src/dhcp.c:24-39 | each field is what the last option that sets it says |
| DhcpOptions.UntouchedUnlessSet | src/dhcp.c:24-39 | a field that no option sets keeps its value |
| DhcpOptions.SettersByNumber | src/dhcp.c:24-39 | which options set which field, by number and least length; all others set none |
| DhcpOptions.OptionsByNumber | src/dhcp.c:24-39 | what options 3, 1 and 6 with such values do to the settings, whatever bytes follow the addresses |
| DhcpOptions.DnsFromOneOption | src/dhcp.c:33-38 | both DNS servers come from one option if and only if the last DNS option holds two |
| DhcpOptions.DnsFromTwoOptions | src/dhcp.c:33-38 | for all addresses, two options of which the first server is taken from the second and the second from the first |
| DhcpOptions.ScanOptions | src/dhcp.c:238-249 | under ScanInside the offer scanner ends, finds options at given offsets and notes type and server of those it sees |
| DhcpOptions.ScanType | src/dhcp.c:318-327 | under the weaker hypothesis that it needs the acknowledgement scanner ends, finds options at the same offsets and notes the type |
| DhcpOptions.ScanInsideExact | src/dhcp.c:239-249 | for either scanner, all the bytes it looks at lie inside the area if and only if ScanInside holds |
| DhcpOptions.ScannersReadOutside | src/dhcp.c:244-247 | areas of which the scanners look at one or two bytes behind the end |
| DhcpOptions.ScanTakesLastType | src/dhcp.c:244-245 | the message type is that of the last option 53 |
| DhcpOptions.ScanTakesLastServer | src/dhcp.c:246-247 | the server is that of the last option 54 with an address |
| DhcpOptions.StartsAgree | src/dhcp.c:15-41 | the scanners and dhcp_parse_options find options at the same offsets if and only if every value the scanners come to fits; otherwise the scanners find exactly one more |
| DhcpOptions.DecodedAtStarts | src/dhcp.c:15-41 | the decoded options are those that stand at these offsets |
| DhcpOptions.DecodeUndoesEncode | src/dhcp.c:11-42 | for every list of options, any pads and any bytes behind the end marker, all three loops find exactly that list |
| DhcpPackets.BuildDiscover | src/dhcp.c:44-115 | returns 300 and fills the whole buffer with the discover and zeros, or refuses and writes nothing |
| DhcpPackets.BuildRequest | src/dhcp.c:117-180 | returns 303 with the buffer cleared and the request written to its front, whether or not the buffer has room for it, or refuses below 300 and writes nothing |
| DhcpPackets.RequestStaysInside | src/dhcp.c:121-124 | of the buffers the guard admits, exactly those of 303 bytes and more keep the memory behind them as it was |
| DhcpPackets.MessageConsistent | src/dhcp.c:93-114 | both length fields measure what follows them, the header checksum verifies, MAC and xid are the given ones, for any options |
| DhcpPackets.MessageBytes | src/dhcp.c:52-85 | every header byte that is the same in all messages, in numbers: addresses, types, ports 68 to 67, flags, cookie, padding |
| DhcpPackets.OptionBytes | src/dhcp.c:87-91 | every byte of the options of a discover and of a request, in numbers |
| DhcpPackets.RequestOptionsRead | src/dhcp.c:154-159 | reading a built request yields its type, the address asked for and exactly the given server |
| DhcpPackets.DiscoverOptionsRead | src/dhcp.c:87-91 | reading a built discover yields its type and no server |
| DhcpReplies.ServerFrameTaken | src/dhcp.c:223-236 | every message a server builds for our transaction is taken with its address and options, whatever surrounds them and however long its IP header |
| DhcpReplies.ReplyExact | src/dhcp.c:223-236 | exactly which frames are taken for a message of ours, and what is taken from them, by their bytes |
| DhcpReplies.HeaderTooLong | src/dhcp.c:223-235 | a frame that passes the tests although its claimed DHCP part lies beyond its end |
| DhcpReplies.FrameOkExact | src/dhcp.c:223-249 | for either loop, all that it looks at lies inside the frame if and only if FrameOk holds |
| DhcpReplies.EncodedMessageTyped | src/dhcp.c:238-256 | and it counts as an offer or acknowledgement just as its last option 53 says |
| DhcpReplies.WalkForOffer | src/dhcp.c:210-265 | the first hand-inlined walker looks at exactly the frames unwrapping delivers, up to the first offer; hypotheses are needed only of what it looks at |
| DhcpReplies.WalkForAck | src/dhcp.c:292-368 | the second one likewise, up to the first acknowledgement |
| DhcpClient.RunExchange | src/dhcp.c:182-373 | a lease is returned along the trace of a completed exchange, and otherwise what was sent and received is one of the failing traces; hypotheses are needed only of the buffers it comes to |
| DhcpClient.AnsweredExchangeCompletes | src/dhcp.c:202-359 | against a server that answers with an offer and then an acknowledgement the exchange completes after two receives, whatever later ones would return |
| DhcpClient.ServerLeases | src/dhcp.c:182-373 | for all addresses and encoded options of a server, an offer (type 2) and an acknowledgement (type 5) complete the exchange with the acknowledged address, and each other field is what the last option that sets it says, offer first, or the default if none does or it is zero |
| DhcpClient.CompletedIsExact | src/dhcp.c:202-373 | what the link does decides the outcome: an exchange that can complete cannot fail, and completes with one lease and one trace only |
| DhcpClient.LeaseProvenance | src/dhcp.c:182-334 | a lease is granted only on the trace discover, first offer with a non-zero address, request for it, first acknowledgement, with nothing else sent and within 100 receives; its address is the acknowledgement's |
| DhcpClient.FailureTrace | src/dhcp.c:182-372 | what a failed exchange has sent and how many receives it has waited for, in each case |
| DhcpClient.ServerOfMessage | src/dhcp.c:238-249 | a message for our transaction makes the address in its last option 54 the server to ask, or leaves the one noted before |
| DhcpClient.ServerAskedExact | src/dhcp.c:202-278 | the server asked is the same after every earlier history if and only if the offer itself names one |
| DhcpClient.OtherServerAsked | src/dhcp.c:238-278 | for every address, two frames after which an offer is requested from the server that refused |
| DhcpClient.LeaseFieldIsLastOption | src/dhcp.c:330-354 | every other field of the lease is what the last option that sets it says, over the offer and then the acknowledgement, or the default if that is zero |
| DhcpClient.LeaseFieldDefault | src/dhcp.c:336-354 | a field that neither message sets gets the default |
| UsbDevice.VisitMeaning | src/usb_device.c:96-116 | which communication and data interface the loops choose, and exactly when there is none |
| UsbDevice.ChosenMeaning | src/usb_device.c:7-39 | which interfaces are chosen in a configuration, in the class, subclass and protocol numbers of its settings, with the fallback to the next number |
| UsbDevice.ChooseInterfaces | src/usb_device.c:96-129 | both passes over a configuration choose those interfaces, or the next number as a fallback |
| UsbDevice.SharedExact | src/usb_device.c:100-129 | one interface is chosen for both roles exactly if the last RNDIS setting and the last data setting behind one belong to it |
| UsbDevice.SharedInput | src/usb_device.c:100-116 | an interface with a setting of each kind, which is chosen for both roles |
| UsbDevice.Usb.TryDevice | src/usb_device.c:85-214 | whatever fails on a candidate, its handle, claims and descriptor are given back; an interface is released in vain exactly if it was chosen for both roles and endpoints are missing |
| UsbDevice.Usb.Find | src/usb_device.c:64-227 | for any device list the first device on which every step works is opened with just its two interfaces claimed, or there is none and nothing is held; and how many releases were in vain |
| UsbDevice.Usb.CloseDevice | src/usb_device.c:319-339 | closing what a search opened leaves nothing held, with a release in vain exactly if one interface had both roles |
| Session.Host.RunSession | src/main.c:437-701 | for every combination of failures all is released at return, the TX pool, mutex and condition included, and another session is asked for exactly if the process still runs and a step failed or the device left; and while the bridge runs, which is exactly if no step failed, all that was asked for is held |
| Session.Host.RunSessions | src/main.c:758-803 | so do any number of sessions and the cleanup at exit |
| Session.Host.Restore | src/main.c:37-51 | restoring undoes what binding did, once |
| IpcServer.RecogniseExact | src/ipc.c:156-163 | a text asks to stop if it contains "stop" in quotes before its first NUL, else to disable or to enable likewise, else for nothing |
| IpcServer.MessagesUnderstood | ui/MenuApp.swift:145-155 | each of the menu application's three messages is taken for its own command |
| IpcServer.LastCommandMeaning | src/ipc.c:150-172 | a poll returns nothing exactly if no client's text asks for anything, and otherwise what the text from the highest such slot asks for |
| IpcServer.Server.Accept | src/ipc.c:128-148 | a new client takes the first free slot or is turned away, and the count stays that of the table |
| IpcServer.Server.Poll | src/ipc.c:121-173 | the slot table and that command after any accept and any reads |
| Watch.ObeysCommands | src/main.c:641-803 | at every point of every run g_watch_enabled is the last enable or disable any poll returned, 0 if none, and sessions start only when it is 1 |
| Watch.LoopShape | src/main.c:594-803 | what every step of every run leads to; a session starts at a test exactly if the last enable or disable returned by a poll was an enable |
| Watch.SessionsStarted | src/main.c:758-782 | in every run exactly one session is started for each idle poll after which auto-connect was wanted |
| Watch.OnlySignalsEndTheDaemon | src/main.c:641-661 | g_running falls if and only if a signal arrives or the trigger file is found; no commands clear it |
| Watch.NoPollUntilSessionEnds | src/main.c:594-661 | in every run, between a poll that returned stop or disable in a session and the next poll the session has ended |
| Watch.Daemon.OnTrigger | src/main.c:641-645 | finding the trigger file is a step of the machine, after which the same round may still poll |
| Watch.Daemon.OnSessionCommand | src/main.c:648-661 | the in-session poll site is a step of the machine, and the session goes on exactly while its flag and g_running stand |
| Watch.Daemon.WaitToRetry | src/main.c:789-801 | whenever signals arrive, the waiting loop is a run of the machine with at most six polls, and it ends early only if a flag fell |
| LineReader.IPCClient.Poll | ui/MenuApp.swift:88-143 | lines, buffer, counts and connection after each outcome of a read, whether or not the search finds a newline behind a carriage return |
| LineReader.IPCClient.PollAll | ui/MenuApp.swift:88-143 | for every way of cutting the stream and whatever the reads find in between, the lines of all polls are exactly the complete lines of what was read while the connection lasted, in order, and the buffer keeps the rest |
| LineReader.LinesConcat | ui/MenuApp.swift:97-108 | going on from the rest is reading the whole stream |
| LineReader.LinesCover | ui/MenuApp.swift:100-102 | lines and rest make up the stream, and no line holds a newline that the search would find |
| LineReader.LinesOfJoin | ui/MenuApp.swift:100-102 | any such lines and rest are read back |
| LineReader.ReturnThenNewline | ui/MenuApp.swift:100-102 | a newline behind a carriage return ends a line exactly if the search finds it; the carriage return then stays in the line |
| LineReader.NoReturns | ui/MenuApp.swift:97-108 | a stream without carriage returns is cut at every newline and nowhere else, whatever the search does |

## Left out

- libusb, pthreads, sockets, `poll` and `system()`: each call is an outcome that the environment chooses. Completion callbacks may begin at any time and on any thread, one at a time.
- Wall-clock time: the drain limit of two seconds, sleeps, time-outs and the keepalive period are choices of the environment. Progress is proved as a bound on callback steps, not as a time.
- The batch counter of 64 packets in tun_to_usb: a batch may end after any packet, which allows more runs than the code.
- BridgeContext.BridgeCtx.CancelTxTransfers: covers the loop when no other thread steps in between; `CancelSlot` covers each round of it in every interleaving.
- Watch.OnlySignalsEndTheDaemon: after a signal during a session the machine lets the session poll once even if the loop's test comes first, which allows more runs than the code.
- The bytes behind the packet in a TX buffer, which are never sent.
- ARP replies in the bridge protocol: they use transfers of their own outside both pools, and whether one can be sent is an outcome in `RxPath`.
- Allocation of the TX pool inside the bridge protocol, which the code does not check; RX transfers may fail to be allocated.
- Memory order: steps interleave sequentially. The gateway address is written by callbacks and read by the TX thread, and no claim is made about what that thread sees of it.
- LineReader.IPCClient.PollAll: covers ASCII streams; a chunk that cuts a UTF-8 character, which Swift drops as a whole, is outside it. Decoding of the lines as JSON is not modelled.
- Whether the kernel's drivers are attached: the one of the data interface is detached and never attached again.
- Endpoint addresses, which may stem from an earlier candidate device: whether both are known is an outcome.
- The static address configuration, the gratuitous ARP, configuration files, command line, logging, statistics files and the one-shot mode of `main`.
- `utun_restore_dns` clears the override and does not restore saved servers; the ledger tracks the override.
- The keepalive, indication and set-answer messages of the control channel, and matching answers to requests, which the code does not do.
- IP addresses as dotted strings: a lease holds four bytes for each.
