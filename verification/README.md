# Cellular modem data path and control channel: a Dafny model

BananaWRT drives 4G/5G USB modems with two kernel drivers (`qmi_wwan_q.c` for Quectel modules,
`qmi_wwan_f.c` for Fibocom modules) and a connection manager (`quectel_cm_5G`) that talks QMI and AT
commands. This project models the parts of them that carry the most state and proves what they
promise. `dafny verify dfyconfig.toml` checks everything.

- **QMAP transmit.** `QmapFrame` is the frame format and the two header encoders. `TxAggregator` is
  the lock-protected batching buffer as the object the driver updates. `TxMachine` runs it as a state
  machine: the submit loop, the unlocked tests after it, the flush timer, its callback, the flush work
  and the two stores of the settings change are separate atomic steps that interleave in any order, with
  arbitrary clock readings, `xmit_more` values, skip decisions and allocation failures. `TxLimits` says
  exactly when a buffer is too small, `TxExact` exactly when nothing is lost, and `TxDevice` puts any
  number of channels on one bus.
- **QMAP receive.** `PullLoop` is the receive loop over an arbitrary loop body and `QmapDecode` the
  Quectel body. `FibocomDecode` is the Fibocom loop with its running headroom, `FibocomCopy` compares it
  with a receiver that copies every packet, `ZeroCopyRx` is its memory (packets are windows into one
  `array<byte>`, Ethernet headers are written into that array), and `FibocomReceiver` the queue that
  survives from call to call. `ModeChoice` and `LinkState` are the mode selection and the carrier machine.
- **AT channel.** `AtLines` says what a line is, `AtReader` is the in-place line buffer, `AtCommand` the
  pending-command state, `AtCalls` its runs and what every caller gets, `AtTokenizer` the in-place field
  splitter.
- **QMI control.** `QmiTransaction` is request/response matching over all interleavings of the command
  thread and the reader thread, `QmiReplies` what the callers get told from the events alone, `QmiTlv` and `QmiProfile` compose and read messages in byte buffers,
  `Registration` is the loop over the system-information fields of a reply.

Main results: packets submitted on any number of channels come out of the shared bus, per channel, once
each and in order, in every interleaving (`TxDevice.ChannelsIsolated`, `TxMachine.EndToEnd`), and nothing
is lost exactly when the receiver accepts the packets (`TxExact.EndToEndIff`); a held buffer always has a
flush on its way, and left alone the driver empties it within a fixed number of steps of any schedule
(`TxMachine.NothingStranded`, `TxDevice.EverythingDeliveredToAll`); the settings for which some
interleaving overruns a batch buffer are exactly known (`TxLimits.OverrunReachableIff`); zero-copy
receive delivers what a receiver that copies every packet would, although headers are written into the
buffer the packets share, if and only if it hands out no untrimmed window
(`FibocomReceiver.RefinesCopyingIff`, on top of `FibocomReceiver.Receiver.RxFixup` and
`FibocomReceiver.RxCalls`), and the calls that crash are exactly known (`FibocomReceiver.CallCrashesIff`);
the two drivers' decoders agree exactly where stated (`FibocomDecode.DriversAgreeIff`); lines do not depend on how
the stream is cut into reads (`AtReader.ReadStream`), and every AT call ends exactly as the events say
(`AtCalls.LineRouting`, `AtCalls.CallEnds`); a QMI caller gets a reply if and only if a matching one came in
time (`QmiReplies.WokenWithReplyIff`), and a late QMI reply is never handed to any of the next
65534 service requests (`QmiTransaction.LateReplyNotMisdelivered`).

## What the code does where a reader might expect otherwise

- The Quectel decoder never leaves its loop on a truncated frame that names an unregistered channel:
  the frame is skipped before its length is checked, and pulling more than there is does nothing.
  `QmapDecode.DecodeTerminatesIff` gives the exact condition, `ModeChoice.RmnetSpinsIff` says for which
  devices such an input exists, `QmapDecode.SpinExample` shows five bytes that do it.
- The Quectel decoder compares lengths and channel ids as unsigned numbers, so a pad count above the
  packet length, or a channel id below 0x81, ends decoding. The Fibocom decoder compares its length as a
  signed number and goes on. When it shares the buffer, trimming to a negative length does nothing and
  the window handed out runs to the end of the input, with all later frames in it
  (`FibocomReceiver.UntrimmedExample`); a later packet that shares the buffer also writes its Ethernet
  header into it (`ZeroCopyRx.SpoiledIff`, `ZeroCopyRx.SpoiledExample`). When it copies, the negative
  length goes to `memcpy`, which the model takes for a crash. `FibocomCopy.CrashIff` says on exactly which
  inputs that happens and `FibocomCopy.CrashExample` shows five bytes that do it.
- The settings change stores the packet count and then the size, without the lock of the batch buffer. A
  buffer allocated under the first size can be appended to under the second, and `skb_put` then panics
  although every frame fits both sizes. `TxLimits.OverrunReachableIff` gives the settings for which this
  can happen, `TxLimits.OverrunExample` a run in which it does. A frame larger than the size in force
  overruns a fresh buffer as well (`TxLimits.PassOverrunsIff`), and a packet of 1500 bytes makes such a
  frame (`TxLimits.BigFrameExample`). With a smaller second size the held buffer
  can exceed the limit (`TxLimits.ExcessReachableIff`).
- The aggregator's clock test looks at whole seconds and the nanoseconds left over. A limit of a second or
  more is cut to just below one second, and when the clock has gone back only the nanoseconds count, so a
  clock set back by whole seconds is not late (`TxAggregator.ExpiredMeaning`, `TxAggregator.BackwardExample`).
- The AT reader's prompt rule depends on what has arrived so far (`AtLines.PromptDependsOnArrival`). After
  the prompt the cursor is past the terminator, against the comment at lines 424-425 of `atchannel.c`, and
  the next call takes what earlier reads left there for received text. `AtReader.LineReader.ReadLine`
  states both for every call, `AtLines.StaleHarmlessIff` says when it does no harm, and
  `AtReader.StaleExample` shows three reads after which a line is returned that was never sent. If the
  prompt ends at the last cell of the buffer the cursor is outside it; `ReadLine` says for exactly which
  arrivals, and `AtReader.BrimExample` is one.
- A QMI request counts as sent when polling for room timed out and nothing was written
  (`QmiWwanCM.c`, lines 145-163); the caller then waits for a reply.
- The HDR personality depends on the order of the fields although attachment and radio family do not;
  `Registration.PersonalityOrderIff` says for which replies.
- The test `qmap_size > 4096` in the mode selection can never hold, because the value it tests is eight
  bits wide; the model keeps it.

## Model

| member | source | states |
|---|---|---|
| QmapFrame.PadFor | 5G-Modem/qmi_wwan_q.c:697-710 | padding is below four, fits the tailroom, and aligns the packet whenever there is room |
| QmapFrame.Framed | 5G-Modem/qmi_wwan_q.c:697-756 | the payload is the front of the body and only padding follows it, whatever the tail memory holds |
| QmapFrame.SkBuff.AddQhdr | 5G-Modem/qmi_wwan_q.c:697-718 | padding and pushing the 4-byte header yields the wire form of the version-1 frame |
| QmapFrame.SkBuff.AddQhdrV5 | 5G-Modem/qmi_wwan_q.c:720-756 | the same for the 8-byte header with the checksum-offload extension |
| QmapFrame.WireMeaning | 5G-Modem/qmi_wwan_q.c:697-756 | the frames byte by byte: pad count, next-header bit, channel, length, and one extension header of the checksum-offload type with no header behind it and no other bit set |
| PullLoop.Run | 5G-Modem/qmi_wwan_q.c:1691-1807 | the pull loop queues the decoded packets in order, cut short after as many as can be allocated |
| PullLoop.TerminatesIff | 5G-Modem/qmi_wwan_q.c:1691-1807 | a pull loop ends on an input exactly when it never reaches a round that pulls nothing |
| PullLoop.LoopIsLined | 5G-Modem/qmi_wwan_q.c:1691-1807 | packets come one each from rounds that are in input order and do not overlap |
| PullLoop.LoopConcat | 5G-Modem/qmi_wwan_q.c:1691-1807 | reading `a ++ b` is reading `a` and then `b` when `a` is taken apart completely |
| QmapDecode.AdmittedMeaning | 5G-Modem/qmi_wwan_q.c:1702-1735 | unsigned comparison admits only channel ids from 0x81 up to the channel count and only pads within the packet |
| QmapDecode.PacketDecode | 5G-Modem/qmi_wwan_q.c:1677-1811 | on every input on which it terminates the decoder queues the decoded packets up to the first allocation failure |
| QmapDecode.DecodeTerminatesIff | 5G-Modem/qmi_wwan_q.c:1710-1730 | the decoder terminates if and only if it never reaches a truncated frame for an empty slot |
| QmapDecode.RegisteredTerminates | 5G-Modem/qmi_wwan_q.c:1716-1720 | with every slot registered it terminates on every input |
| QmapDecode.SpinExample | 5G-Modem/qmi_wwan_q.c:1716-1720 | a five-byte input on which it does not terminate |
| QmapDecode.DecodeSound | 5G-Modem/qmi_wwan_q.c:1691-1807 | each packet is a slice of its own frame less padding, frames are disjoint and in order, the channel is the one named and in range |
| QmapDecode.DecodeFrames | 5G-Modem/qmi_wwan_q.c:1691-1807 | decoding printed frames yields the packets of the frames before the first rejected one, then goes on with what follows |
| QmapDecode.RoundIsJudge | 5G-Modem/qmi_wwan_q.c:1691-1807 | one round on the bytes of a frame is the judgement of that frame, for command, oversize, unknown and bad-protocol frames alike |
| QmapDecode.DecodeConcat | 5G-Modem/qmi_wwan_q.c:1691-1807 | decode(a ++ b) is decode(a) ++ decode(b) when `a` is whole frames |
| QmapDecode.RoundTripIff | 5G-Modem/qmi_wwan_q.c:697-756 | an encoded payload decodes to itself if and only if it is sendable: registered channel, within the MTU and 16 bits, non-empty, IP version nibble |
| QmapDecode.SendableRoundTrip | 5G-Modem/qmi_wwan_q.c:1691-1807 | a sendable payload decodes to exactly one packet for both header versions and any tail memory |
| TxAggregator.Aggregator.NewPacket | 5G-Modem/qmi_wwan_q.c:1037-1114 | one pass under the lock, field by field, is the pass that `PassSends` and `PassKeeps` describe; a copy beyond the room the buffer was allocated with panics and changes nothing |
| TxAggregator.ExpiredMeaning | 5G-Modem/qmi_wwan_q.c:1049-1052 | the test on seconds and nanoseconds in terms of the two clock readings, for every limit, clocks going back included |
| TxAggregator.PassSends | 5G-Modem/qmi_wwan_q.c:1037-1114 | what a pass sends, for every state, clock and environment: with nothing held the packet itself iff too much time has passed, it is hasty or no buffer is to be had; else the buffer with the packet iff late, hasty or full, the buffer alone iff the packet does not fit |
| TxAggregator.PassKeeps | 5G-Modem/qmi_wwan_q.c:1037-1114 | and what it keeps: buffer, count and time of the last sending |
| TxAggregator.BypassExample | 5G-Modem/qmi_wwan_q.c:1078-1086 | with nothing held five seconds after the last sending the packet is sent at once |
| TxAggregator.BackwardExample | 5G-Modem/qmi_wwan_q.c:1049-1052 | a clock that has gone back by whole seconds does not count as late |
| TxAggregator.Aggregator.Transmit | 5G-Modem/qmi_wwan_q.c:1002-1138 | at most two passes; what goes to the bus plus what is held, plus the packet itself after a panic, is the old held bytes plus the packet |
| TxAggregator.Aggregator.Work | 5G-Modem/qmi_wwan_q.c:954-970 | the flush work detaches exactly the held buffer |
| TxMachine.StepKeepsInv | 5G-Modem/qmi_wwan_q.c:954-1138 | every step of submitter, timer, work and of the two settings stores keeps the invariant |
| TxMachine.HeldBuffer | 5G-Modem/qmi_wwan_q.c:1044-1104 | in every reachable state the held buffer is exactly `agg_count` whole frames, fewer than the limit and within the room allocated for it; the size limit was asked for, and from two frames on the buffer is strictly below it, unless the size was stored while the buffer was held |
| TxMachine.NothingStranded | 5G-Modem/qmi_wwan_q.c:985-992 | in every reachable state with no submit under way a held buffer has a timer, callback or work about to flush it |
| TxMachine.EverythingDelivered | 5G-Modem/qmi_wwan_q.c:954-1138 | when no new packet comes, every schedule of the remaining steps ends within 23 of them, and then, unless a copy panicked, the bus alone decodes to exactly the submitted packets |
| TxMachine.SecondPassIsLast | 5G-Modem/qmi_wwan_q.c:1128-1130 | the `new_packet` loop never needs a third pass, whatever happens between passes, unless the second one panics |
| TxLimits.OverrunMeansNoRoom | 5G-Modem/qmi_wwan_q.c:1045-1098 | in every reachable state a panic means that the packet in hand is above the size limit with nothing held, or fits the limit but not the room of the held buffer |
| TxLimits.PassOverrunsIff | 5G-Modem/qmi_wwan_q.c:1045-1098 | some clock, `xmit_more`, skip test and allocation result make the pass overrun if and only if the packet does not fit so and the bypass time is not negative; an append overruns under all of them |
| TxLimits.CarefulRunsFit | 5G-Modem/qmi_wwan_q.c:1436-1447 | no overrun in any run in which every packet that may start a buffer fits the size in force and the size does not grow beyond the room of a held buffer |
| TxLimits.OverrunReachableIff | 5G-Modem/qmi_wwan_q.c:1436-1447 | with all frames within the old and the new size and every allocation rounded up by the same amount, some interleaving overruns if and only if the new size is more than one above the room 1500 bytes get and the bypass time is not negative |
| TxLimits.OverrunExample | 5G-Modem/qmi_wwan_q.c:1436-1447 | such a run for ten packets of 4096 bytes, the default times and any rounding below 1500 |
| TxLimits.BigFrameExample | 5G-Modem/qmi_wwan_q.c:1091-1098 | a packet of 1500 bytes submitted between the two stores overruns its fresh buffer, unless that was rounded up by the size of the header |
| TxLimits.ExcessReachableIff | 5G-Modem/qmi_wwan_q.c:1436-1447 | with all frames within both sizes, a held buffer can come to exceed the size limit if and only if at least three packets may share it, the new size is below 1499 but fits a header, and neither time parameter is negative |
| TxMachine.BytesConserved | 5G-Modem/qmi_wwan_q.c:1037-1126 | bus, held buffer and packet in hand are the submitted frames back to back, for every payload |
| TxMachine.EndToEnd | 5G-Modem/qmi_wwan_q.c:954-1138 | decoding the detached buffers, the held one and the packet in hand gives back the submitted packets, once each and in order, in every interleaving |
| TxExact.EndToEndIff | 5G-Modem/qmi_wwan_q.c:697-756 | for packets that are not empty and every receiver, all of them come back if and only if the receiver accepts each and expects no downlink padding |
| TxMachine.EndToEndStream | 5G-Modem/qmi_wwan_q.c:1691-1807 | the same when everything is read as one stream |
| TxDevice.ChannelsIsolated | 5G-Modem/qmi_wwan_q.c:1002-1185 | with any number of channels interleaving on one bus each channel's packets come out complete and in order |
| TxDevice.StepKeepsBus | 5G-Modem/qmi_wwan_q.c:1425-1449 | every device step, the shared settings stores included, keeps the bus made of the channels' own buffers |
| TxDevice.EverythingDeliveredToAll | 5G-Modem/qmi_wwan_q.c:954-1138 | for all channels together: when no new packet comes, every schedule ends within 23 steps for each channel, and then, unless a copy panicked, the shared bus carries exactly what was submitted on each |
| ModeChoice.RawIpHooksServeParent | 5G-Modem/qmi_wwan_q.c:2117-2190 | raw-IP hooks never run with more than one channel, always terminate and deliver to the parent device only |
| ModeChoice.RmnetSpinsIff | 5G-Modem/qmi_wwan_q.c:2518-2529 | a device with its own channel devices has a non-terminating input if and only if a registration failed |
| ModeChoice.BindMeaning | 5G-Modem/qmi_wwan_q.c:2117-2190 | mode, hooks and own devices in terms of product and module parameter: the first channel is forced on fast devices, larger parameters are clamped |
| FibocomDecode.FTerminates | 5G-Modem/qmi_wwan_f.c:1570-1661 | the Fibocom loop ends on every input, after at most one round for every four bytes |
| FibocomDecode.RoundMeaning | 5G-Modem/qmi_wwan_f.c:1570-1661 | one round told from the bytes: the loop drains iff at most four bytes are left, goes on iff length and, for data, protocol and channel are good and no negative copy is due, and hands out exactly the data frames of registered channels |
| FibocomDecode.SharingIff | 5G-Modem/qmi_wwan_f.c:1619-1636 | over every input a packet shares the buffer iff the packet before it left fourteen bytes: its padding if it was shared, its frame length if it was copied |
| FibocomDecode.RoundsAgreeIff | 5G-Modem/qmi_wwan_f.c:1578-1617 | on a version-1 frame for a registered channel the two loop bodies agree, for any headroom, if and only if the frame is not over-padded |
| FibocomDecode.DriversAgreeIff | 5G-Modem/qmi_wwan_f.c:1570-1661 | on streams of version-1 frames for registered channels both drivers decode the same and end the same way if and only if no over-padded frame is met, or nothing is handed out from the first one on and the loop aborts all the same |
| FibocomDecode.DriversAgree | 5G-Modem/qmi_wwan_f.c:1570-1661 | so they agree on all such streams without over-padded frames, truncated, oversize, command and bad-protocol frames included |
| FibocomCopy.CopyIff | 5G-Modem/qmi_wwan_f.c:1619-1648 | the packets and the end are those of a loop that copies every packet if and only if no window is left untrimmed; otherwise copying gets to the first such frame and crashes |
| FibocomCopy.CrashIff | 5G-Modem/qmi_wwan_f.c:1629-1637 | a negative length is copied exactly if the walk reaches a complete, over-padded IP frame for a registered channel with less than fourteen bytes of headroom |
| FibocomCopy.WellPaddedIsCopying | 5G-Modem/qmi_wwan_f.c:1570-1661 | inputs without over-padded frames never crash and are decoded as if copied |
| FibocomCopy.CrashExample | 5G-Modem/qmi_wwan_f.c:1629-1637 | five bytes that do it |
| ZeroCopyRx.DriverBehaves | 5G-Modem/qmi_wwan_f.c:1570-1661 | every round of the driver pulls a whole frame and cuts its packet from it, untrimmed if the frame is over-padded |
| ZeroCopyRx.HandOut | 5G-Modem/qmi_wwan_f.c:1619-1648 | sharing or copying, the packet handed out reads as header plus payload; sharing overwrites the fourteen bytes before the payload and nothing else, copying nothing |
| ZeroCopyRx.LaidNext | 5G-Modem/qmi_wwan_f.c:1619-1657 | handing out a packet keeps every window but the untrimmed ones clear of the headroom and as it was, puts the new header into the untrimmed ones, and leaves unread input alone |
| ZeroCopyRx.AllSettle | 5G-Modem/qmi_wwan_f.c:1568-1661 | wherever the loop stops, on every input, the windows and copies read as the packets settle to |
| ZeroCopyRx.SpoiledIff | 5G-Modem/qmi_wwan_f.c:1619-1627 | a packet no longer reads as it was handed out at the end of the call if and only if it was cut from an over-padded frame and a later packet of the call shares the buffer |
| ZeroCopyRx.NoneSpoiled | 5G-Modem/qmi_wwan_f.c:1619-1648 | without untrimmed windows every packet reads as it was handed out |
| ZeroCopyRx.SpoiledExample | 5G-Modem/qmi_wwan_f.c:1619-1627 | two frames of which the first is delivered with the header of the second inside |
| FibocomReceiver.Receiver.Walk | 5G-Modem/qmi_wwan_f.c:1568-1661 | the loop over the array leaves exactly the windows, copies and header writes of the decoded packets, up to the first failed allocation |
| FibocomReceiver.Receiver.Receive | 5G-Modem/qmi_wwan_f.c:1568-1661 | on every input all queued packets of earlier calls read as before and those of this call as they settle to, in the memory they share |
| FibocomReceiver.Receiver.Drain | 5G-Modem/qmi_wwan_f.c:1663-1672 | draining delivers the queue in order, each packet read only then |
| FibocomReceiver.Receiver.RxFixup | 5G-Modem/qmi_wwan_f.c:1557-1676 | a call that reads its input to the end delivers what earlier calls left and then what its own packets settle to, and empties the queue; any other call delivers nothing and keeps its packets queued |
| FibocomReceiver.DeliversIff | 5G-Modem/qmi_wwan_f.c:1637-1674 | everything queued is delivered iff after some number of rounds the loop drains its input and every packet could be allocated |
| FibocomReceiver.DriverReadsToEndIff | 5G-Modem/qmi_wwan_f.c:1570-1674 | for the driver that is: the rounds leave at most four bytes unread and no allocation failed |
| FibocomReceiver.TrimmedMeaning | 5G-Modem/qmi_wwan_f.c:1592-1672 | a trimmed packet as delivered, told from the bytes of its frame: channel, both addresses, EtherType by the first nibble, and the frame without its padding |
| FibocomReceiver.RefinesCopyingIff | 5G-Modem/qmi_wwan_f.c:1557-1676 | for every input, headroom and number of allocations the call queues what a copying receiver would and ends the same way if and only if none of its packets is an untrimmed window |
| FibocomReceiver.DeliveredAsCopiedIff | 5G-Modem/qmi_wwan_f.c:1619-1672 | a packet is delivered as copying its own frame would have it if and only if it was trimmed |
| FibocomReceiver.DeliveredIntactIff | 5G-Modem/qmi_wwan_f.c:1619-1672 | a packet is delivered as it was handed out if and only if it is not spoiled |
| FibocomReceiver.CallCrashesIff | 5G-Modem/qmi_wwan_f.c:1629-1642 | a call crashes if and only if it reaches a negative copy with an allocation left for it |
| FibocomReceiver.WellPaddedCalls | 5G-Modem/qmi_wwan_f.c:1557-1676 | a call on an input without over-padded frames never crashes and queues what a copying receiver would |
| FibocomReceiver.UntrimmedExample | 5G-Modem/qmi_wwan_f.c:1619-1627 | a packet of one byte is handed out with the whole next frame behind it |
| FibocomReceiver.CallsConserve | 5G-Modem/qmi_wwan_f.c:1557-1676 | for any outcomes of a run of calls, deliveries followed by the queue are what every call added, in order |
| FibocomReceiver.RxCalls | 5G-Modem/qmi_wwan_f.c:1557-1676 | the hook called on one buffer after another, until a crash: deliveries followed by the queue are every call's packets in order, although earlier packets still lie in earlier buffers |
| LinkState.Device.LinkStateStore | 5G-Modem/qmi_wwan_f.c:383-438 | a store sets or clears one bit, or the only one, and updates parent carrier, flag and carrier, whose meaning over runs `LinkedIff`, `CarrierIff` and `LinksConsistent` state |
| LinkState.Device.Open | 5G-Modem/qmi_wwan_f.c:563-580 | opening turns the carrier on only with the parent up, its carrier on and the channel linked |
| LinkState.Device.Stop | 5G-Modem/qmi_wwan_f.c:582-586 | stopping turns the carrier off and changes nothing else |
| LinkState.LinksConsistent | 5G-Modem/qmi_wwan_f.c:383-586 | over every run bits stay below the channel count, flags equal bits, and a carrier on implies its bit and the parent's carrier |
| LinkState.LinkedIff | 5G-Modem/qmi_wwan_f.c:397-409 | after every run a channel is linked if and only if the last store that names it asked for it |
| LinkState.CarrierIff | 5G-Modem/qmi_wwan_f.c:383-586 | after every run a registered channel's carrier is on iff some store newly linked it, or it was opened with its parent up while linked, and since then it was neither stopped nor unlinked; its flag is on iff it is linked |
| LinkState.ChannelsIndependent | 5G-Modem/qmi_wwan_f.c:383-586 | a channel's flag and carrier after a run are what the events that name it alone would have made them, although opening reads the shared carrier |
| AtLines.LinesOfPrint | 5G-Modem/5G-Modem-Support/quectel_cm_5G/src/atchannel.c:304-315 | splitting undoes printing lines with any runs of line ends |
| AtLines.EolMeaning | 5G-Modem/5G-Modem-Support/quectel_cm_5G/src/atchannel.c:312-314 | line ends are carriage return and line feed |
| AtLines.PromptDependsOnArrival | 5G-Modem/5G-Modem-Support/quectel_cm_5G/src/atchannel.c:304-310 | a line end already found is moved by later bytes if and only if the text so far is the prompt |
| AtReader.LineReader.FindNextEol | 5G-Modem/5G-Modem-Support/quectel_cm_5G/src/atchannel.c:304-315 | the scan finds the first line end of the buffered text, or the prompt |
| AtReader.LineReader.ReadLine | 5G-Modem/5G-Modem-Support/quectel_cm_5G/src/atchannel.c:328-429 | for every stream and buffer: what was pending is dropped line ends, or also discarded overlong text, then a text that begins with the returned line, then what is still to arrive; the cursor stays at or before the terminator if and only if the text is not the prompt, after which the bytes behind the terminator are pending; where the terminator lies, which cells are as before, and that the cursor leaves the buffer exactly for a prompt that fills it to the brim |
| AtReader.LineReader.NextLine | 5G-Modem/5G-Modem-Support/quectel_cm_5G/src/atchannel.c:328-429 | under the conditions on the stream the line returned is the first of the pending stream and exactly the others remain, whatever the reads return |
| AtReader.StaleExample | 5G-Modem/5G-Modem-Support/quectel_cm_5G/src/atchannel.c:419-425 | a fresh reader and three reads after which a line is returned that was never sent |
| AtReader.BrimExample | 5G-Modem/5G-Modem-Support/quectel_cm_5G/src/atchannel.c:419-425 | one read after which the second call leaves the cursor outside the buffer |
| AtLines.StaleHarmlessIff | 5G-Modem/5G-Modem-Support/quectel_cm_5G/src/atchannel.c:336-350 | bytes left behind the prompt change no later line, whatever arrives, if and only if they are all line ends |
| AtReader.LineReader.Compact | 5G-Modem/5G-Modem-Support/quectel_cm_5G/src/atchannel.c:354-363 | moving a partial line up keeps its text |
| AtReader.LineReader.Overflow | 5G-Modem/5G-Modem-Support/quectel_cm_5G/src/atchannel.c:369-375 | a discarded full buffer held line ends only, unless a line and the line ends before it are as long as the buffer |
| AtReader.ReadStream | 5G-Modem/5G-Modem-Support/quectel_cm_5G/src/atchannel.c:450-481 | for every way of cutting a stream into reads the lines are the non-empty pieces between CR and LF |
| AtCommand.StrStartsWith | 5G-Modem/5G-Modem-Support/quectel_cm_5G/src/atchannel.c:99-108 | the character loop decides the prefix relation |
| AtCommand.ReverseIntermediates | 5G-Modem/5G-Modem-Support/quectel_cm_5G/src/atchannel.c:722-735 | the reversed list reads in order of arrival |
| AtCommand.AtChannel.ProcessLine | 5G-Modem/5G-Modem-Support/quectel_cm_5G/src/atchannel.c:229-295 | each line is routed and recorded as the routing function says |
| AtCommand.AtChannel.Begin | 5G-Modem/5G-Modem-Support/quectel_cm_5G/src/atchannel.c:743-768 | a command becomes pending unless the channel is closed or the write fails, which end the call at once |
| AtCommand.AtChannel.Conclude | 5G-Modem/5G-Modem-Support/quectel_cm_5G/src/atchannel.c:770-799 | the issuer's answer for final result, timeout and closed channel, with the command cleared; `AtCalls.CallEnds` says which answer over runs |
| AtCommand.RouteMeaning | 5G-Modem/5G-Modem-Support/quectel_cm_5G/src/atchannel.c:229-295 | with a command pending a line is final, a prompt, intermediate or unsolicited exactly as its text and what the command waits for say |
| AtCommand.TablesMeaning | 5G-Modem/5G-Modem-Support/quectel_cm_5G/src/atchannel.c:132-163 | the final result prefixes and the digits, one by one |
| AtCalls.LineRouting | 5G-Modem/5G-Modem-Support/quectel_cm_5G/src/atchannel.c:229-295 | over every run, told from the events alone: each issuer gets exactly its answer, in order, and handler and prompt actions get exactly the unsolicited lines and the prompts, in order |
| AtCalls.CallEnds | 5G-Modem/5G-Modem-Support/quectel_cm_5G/src/atchannel.c:770-799 | a call ends in a timeout iff its wait timed out; in a closed channel iff not and the channel was closed before; else in an invalid response iff a strict call succeeded without a line, and otherwise in the last final result and the lines due to it, at most one for single-line and numeric calls |
| AtCalls.OnceEach | 5G-Modem/5G-Modem-Support/quectel_cm_5G/src/atchannel.c:743-799 | every call but the pending one is answered, once and in order of issue |
| AtTokenizer.TokensOfJoin | 5G-Modem/5G-Modem-Support/quectel_cm_5G/src/at_tok.c:50-89 | fields joined by commas come back in order, and there is more until the last is taken |
| AtTokenizer.SpaceMeaning | 5G-Modem/5G-Modem-Support/quectel_cm_5G/src/at_tok.c:50-57 | the white space skipped is that of the C locale |
| AtTokenizer.Cursor.Next | 5G-Modem/5G-Modem-Support/quectel_cm_5G/src/at_tok.c:72-89 | the in-place token and remaining text are those of the splitting function |
| AtTokenizer.Cursor.StrSep | 5G-Modem/5G-Modem-Support/quectel_cm_5G/src/at_tok.c:80-85 | separating in place gives the piece before the separator and the text after it |
| AtTokenizer.Tokenize | 5G-Modem/5G-Modem-Support/quectel_cm_5G/src/at_tok.c:187-190 | taking tokens while there is more returns all tokens of the line |
| QmiTransaction.SameIdIff | 5G-Modem/5G-Modem-Support/quectel_cm_5G/src/QMIThread.c:96-101 | two requests share a transaction id exactly when they are a multiple of the period apart |
| QmiTransaction.IdCounter.Next | 5G-Modem/5G-Modem-Support/quectel_cm_5G/src/QMIThread.c:96-101 | the counter hands out 1 to its period, round and round |
| QmiTransaction.QmiThread.SendQmi | 5G-Modem/5G-Modem-Support/quectel_cm_5G/src/QMIThread.c:600-617 | sending publishes the request, clears the reply, stamps it and waits unless the write failed; a poll timeout without a write also waits |
| QmiTransaction.QmiThread.FinishWait | 5G-Modem/5G-Modem-Support/quectel_cm_5G/src/QMIThread.c:619-637 | the caller gets the published reply if it asked for one |
| QmiTransaction.QmiThread.RecvQmi | 5G-Modem/5G-Modem-Support/quectel_cm_5G/src/QMIThread.c:639-660 | a matching reply frees the request and is published; others leave both pointers alone; `QmiReplies.RepliesExactly` says what callers get by it |
| QmiTransaction.RepliesMatch | 5G-Modem/5G-Modem-Support/quectel_cm_5G/src/QMIThread.c:582-660 | over every run a reply handed over arrived after its request and matches type, client id and transaction id; no reply and no caller is served twice |
| QmiReplies.WokenWithReplyIff | 5G-Modem/5G-Modem-Support/quectel_cm_5G/src/QMIThread.c:600-660 | a caller that wakes gets a reply iff it asked for it and since its request went out a message with the type, client id and transaction id the request carries arrived before any quit, the first such message being copied; it gets that message |
| QmiReplies.RepliesExactly | 5G-Modem/5G-Modem-Support/quectel_cm_5G/src/QMIThread.c:582-660 | over every run the replies handed over are exactly those, told from the events alone, in order |
| QmiReplies.FreedExactly | 5G-Modem/5G-Modem-Support/quectel_cm_5G/src/QMIThread.c:639-654 | over every run exactly the requests that were answered or met a quit are freed, each by the first event that decides it |
| QmiReplies.SentAsStamped | 5G-Modem/5G-Modem-Support/quectel_cm_5G/src/QmiWwanCM.c:134-163 | the last request sent carries the client id last assigned to its service, the second WDS client's under type WDS, and the id of its ordinal; its caller waits iff there was a client id, the write did not fail and no wait has returned since |
| QmiTransaction.LateReplyNotMisdelivered | 5G-Modem/5G-Modem-Support/quectel_cm_5G/src/QMIThread.c:600-660 | a reply that answers an older request reaches a later caller only a whole number of periods on, so none of the next 65534 service or 254 control requests |
| QmiTransaction.NoDoubleFree | 5G-Modem/5G-Modem-Support/quectel_cm_5G/src/QMIThread.c:639-660 | no request buffer is freed twice and the published one is not freed |
| QmiTransaction.WdsClientsKeptApart | 5G-Modem/5G-Modem-Support/quectel_cm_5G/src/QmiWwanCM.c:134-143 | with distinct client ids a reply to one WDS client's caller answers no request of the other, despite the type rewrite |
| QmiTlv.GetTlv | 5G-Modem/5G-Modem-Support/quectel_cm_5G/src/QMIThread.c:75-94 | the lookup loop, by type or by position, its 16-bit count and its reads past the message included |
| QmiTlv.LookupMeaning | 5G-Modem/5G-Modem-Support/quectel_cm_5G/src/QMIThread.c:75-94 | on every message, well-formed or not, the lookup ends at the first header, going by the claimed lengths, that matches, lies outside the message, or has too little left by the wrapping count |
| QmiTlv.LookupFinds | 5G-Modem/5G-Modem-Support/quectel_cm_5G/src/QMIThread.c:75-94 | on a message tiled by fields it finds the first of the kind with its whole value, or nothing |
| QmiTlv.NthFinds | 5G-Modem/5G-Modem-Support/quectel_cm_5G/src/QMIThread.c:80-84 | by position it finds the n-th field with its whole value, or nothing if there are fewer |
| QmiTlv.Composer.Put | 5G-Modem/5G-Modem-Support/quectel_cm_5G/src/QMIThread.c:205-213 | appends exactly one field to those already in the buffer |
| QmiTlv.Composer.PutString | 5G-Modem/5G-Modem-Support/quectel_cm_5G/src/QMIThread.c:215-222 | the same for a string although its terminator lands one byte past the field |
| QmiProfile.FramingCheck | 5G-Modem/5G-Modem-Support/quectel_cm_5G/src/QmiWwanCM.c:425-428 | the head byte by byte, transaction id and message kind included; the length field plus one is the message size the reader demands |
| QmiProfile.Compose | 5G-Modem/5G-Modem-Support/quectel_cm_5G/src/QMIThread.c:103-133 | the composed message is headers plus the fields in the buffer |
| QmiProfile.WdsStartNwInterfaceReq | 5G-Modem/5G-Modem-Support/quectel_cm_5G/src/QMIThread.c:181-271 | composes exactly the start-network fields, with the CDMA default account |
| QmiProfile.StartNetwork | 5G-Modem/5G-Modem-Support/quectel_cm_5G/src/QMIThread.c:103-271 | the whole request for every profile that fits the 256-byte buffer |
| QmiProfile.StartRoundTrip | 5G-Modem/5G-Modem-Support/quectel_cm_5G/src/QMIThread.c:75-271 | in it every kind of field looks up to what the profile says about it: no access point and no profile index on CDMA, a blank CDMA account replaced by the default one, omitted and unknown fields absent |
| QmiProfile.WdsModifyProfileSettingsReq | 5G-Modem/5G-Modem-Support/quectel_cm_5G/src/QMIThread.c:503-560 | composes exactly the modify-profile fields |
| QmiProfile.Uchar2Char | 5G-Modem/5G-Modem-Support/quectel_cm_5G/src/QMIThread.c:62-68 | the destination holds the source cut to fit, as a string |
| QmiProfile.RequestGetProfile | 5G-Modem/5G-Modem-Support/quectel_cm_5G/src/QMIThread.c:2090-2107 | reading a reply's bytes yields the first field of each kind, strings cut to 63 bytes; for an empty one-byte field the byte behind its header |
| QmiProfile.ReadBackIff | 5G-Modem/5G-Modem-Support/quectel_cm_5G/src/QMIThread.c:2033-2040 | after a write is echoed back nothing is left to set if and only if strings are at most 63 bytes and numbers fit their fields |
| QmiProfile.RequestSetProfile | 5G-Modem/5G-Modem-Support/quectel_cm_5G/src/QMIThread.c:2030-2052 | refuses without a profile index, skips when nothing changed, else sends exactly the modify request |
| QmiProfile.WriteReadWrite | 5G-Modem/5G-Modem-Support/quectel_cm_5G/src/QMIThread.c:503-560 | on the bytes of request and reply: after a write whose fields the modem returns among others, the next write is skipped if and only if the profile is representable |
| Registration.RegistrationState | 5G-Modem/5G-Modem-Support/quectel_cm_5G/src/QMIThread.c:1405-1635 | the loop over the bytes of a reply, with its running pointer and signed count, computes the fold of the field switch or looks outside the message |
| Registration.FieldsTiled | 5G-Modem/5G-Modem-Support/quectel_cm_5G/src/QMIThread.c:1405-1635 | on a message tiled by fields the loop goes over exactly these and never outside |
| Registration.ReplyMeaning | 5G-Modem/5G-Modem-Support/quectel_cm_5G/src/QMIThread.c:1410-1635 | for the bytes of a reply: attached iff some system-information field has a valid domain with packet service; LTE iff an LTE or NR status says service or the LTE domain has packet service; CDMA iff the same holds of a CDMA or HDR field and not of LTE; eHRPD iff such a personality comes at or after attachment |
| Registration.ReplyOrderIndependent | 5G-Modem/5G-Modem-Support/quectel_cm_5G/src/QMIThread.c:1410-1635 | replies that carry the same fields in any order give the same attachment and radio family |
| Registration.FoldMeaning | 5G-Modem/5G-Modem-Support/quectel_cm_5G/src/QMIThread.c:1410-1635 | attached iff some field reports packet service; CDMA iff some CDMA/HDR field reports service and no LTE/NR field does; eHRPD iff such a field follows attachment |
| Registration.OrderIndependent | 5G-Modem/5G-Modem-Support/quectel_cm_5G/src/QMIThread.c:1410-1635 | attachment and radio family are the same for every order of the fields |
| Registration.PersonalityOrderIff | 5G-Modem/5G-Modem-Support/quectel_cm_5G/src/QMIThread.c:1511-1536 | the HDR personality changes with the order if and only if eHRPD is named only by fields without packet service while another has it |

## Left out

- PacketDecode: inputs on which the driver's loop does not terminate are excluded; they are exactly those of `DecodeTerminatesIff`.
- EndToEnd: stated for payloads the receiver accepts and no downlink padding; `EndToEndIff` shows that this is necessary for packets that are not empty, and `BytesConserved` covers every payload at the level of bytes.
- EndToEndIff: empty packets are excluded; whether the receiver hands one out depends on the byte that happens to follow its frame.
- EndToEndStream: the same restriction as `EndToEnd`.
- ChannelsIsolated: the same restriction as `EndToEnd`, for each channel.
- RxFixup: what memory looks like after a copy with a negative length is not modelled; the call ends in a crash there.
- RxCalls: all calls are for one device whose channels do not change, and each call has a buffer of its own.
- ReadLine: NUL bytes in the stream are not modelled, because the reader takes them for the end of the text.
- ReadStream: the stream has no NUL byte, no line starts with the SMS prompt, and each run of line ends plus its line is shorter than the buffer; without these the lines are not those of the stream, as `ReadLine` and `StaleExample` show.
- LineRouting: one command thread, so a second command while one is pending is not modelled, and no proxy mode; the two-line SMS notifications that bypass `processLine` are not modelled.
- LateReplyNotMisdelivered: one command thread; the meaning of indications is not modelled, only that they change neither pointer.
- StartNetwork: profiles whose message exceeds the 256-byte buffer are excluded, because the source then writes past it.
- WriteReadWrite: the same for the modify request, which also needs room for a string's terminator; the result codes of the exchanges are not modelled.
- RegistrationState: operator codes, device class and the data-class name are not modelled, nor reads outside the message for them.
- LinksConsistent: the link-state word is modelled as the set of its one bits, it starts at zero, and changes of the parent's carrier by usbnet itself are not modelled.
- OverrunReachableIff: every allocation of a run is rounded up by the same amount, below 1500 bytes; the two stores of the settings change become visible in program order.
- Buffers reach the bus in detach order; the transmit calls after the lock, statistics and queue stopping are not modelled.
- `rmnet_usb_tx_agg_skip`, clocks, allocation results, read sizes and modem replies are arbitrary inputs.
- Bridge mode, ARP replies, NSS offload, power management, sysfs and ioctl plumbing.
- The Fibocom aggregator and its second receive handler, which no product entry selects.
- MBIM, GobiNet, QRTR, DHCP, process and device handling of the connection manager.
- CDMA digit conversion, QoS, cell and signal information, logging.
