# A verified model of the sponge TCP/IP stack

Sponge is a user-space TCP/IP stack: a bounded byte stream, a reassembler over a ring buffer, a TCP sender
with a retransmission timer, a receiver, a connection on top of both, an ARP network interface, a
longest-prefix router, and the IPv4 and TCP wire formats. This project models those parts and proves
properties over every input and every run.

Each stateful part appears twice. A value with pure functions says what every operation does (`Sending`,
`Reassembly`, `Connecting`, `Arp`, `Routing`, `IPv4`, `TcpWire`). A class with the source's fields and loops
(`TCPSender`, `StreamReassembler`, `TCPConnection`, `NetworkInterface`, `Router`, `NetParser`,
`InternetChecksum`) is proved to do exactly that. The properties are then proved of the values, and so hold of
the classes.

`dafny verify dfyconfig.toml` checks everything.

## Main results

- **Transfer.** Sender, receiver, a network that loses, repeats and reorders segments, and an ack channel that
  loses but does not reorder form a transition system. In every run the receiver's bytes are a prefix of what
  was written (`TransferSafety.EndToEndPrefix`), and once the sender's FIN is acknowledged everything has
  been delivered and ended (`TransferSafety.FinAckedMeansDelivered`). Both hold for acknowledgments in any order
  too, as long as the sender takes only those whose number and right edge do not go back
  (`AnyAcks.AnyOrderPrefix`, `AnyAcks.AnyOrderDelivered`).
- **Both directions.** Two connections whose acknowledgments ride on each other's segments form a second transition
  system. In every run each has assembled a prefix of what the other's application wrote, and all of it once the
  other's FIN is acknowledged (`TwoWay.BothPrefixes`).
- **Reassembly.** The ring buffer refines a map from stream index to byte, for all pushes. In-window runs
  assemble exactly the covered prefix whatever the order, overlap or repetition of the pushes.
- **Sending.** The outstanding queue stays a gap-free chain, every segment ever emitted carries the right bytes,
  the window is respected, the timeout is the initial one times a power of two, and the retry limit takes at
  least 511 timeouts.
- **Promptness.** A fill sends all data up to the edge of the window in full segments, and the FIN exactly when it
  fits (`Filling.FillSends`, `Filling.FillsFull`). In every run a connection that has heard the peer's SYN holds nothing
  back that fits (`Promptness.RunPrompt`), every segment it puts out reports its receiver as it then is
  (`Promptness.RunSpeaks`), whatever takes sequence space is answered, and a plain acknowledgment is not
  (`Answering.DataIsAnswered`, `Answering.AcksAreNotAnswered`).
- **Closing.** An inactive connection without a reset has shut down cleanly, and the state summary says
  closed exactly then. After every run the next tick and the next segment close a connection exactly under stated
  conditions (`Closing.TickClosesIff`, `Closing.SegmentClosesIff`): a finished one does close, after ten quiet
  timeouts if the peer did not end first.
- **ARP and routing.** Every submitted datagram is framed or queued exactly once and in order. It is framed at once
  exactly if its hop was learned in the last 30 seconds, and a request goes out exactly if none did in the last five
  (`ArpRuns.SubmitIff`). A request from one interface to another is answered, and the answer sends what was waiting
  (`ArpExchange.Exchange`). Routing picks the longest prefix, the earliest route on ties.
- **Wire.** Every field is at its offset in the standards, and the TCP checksum covers the pseudo-header
  (`WireFormat.WrappedBytes`, `WireFormat.SegmentOnWire`). Datagrams and segments come back from the wire exactly when stated conditions hold, and a segment
  wrapped by one adapter is delivered by another exactly when that one takes segments of the connection. So
  every segment a sender emits crosses the wire unchanged (`Crossing.EmittedCrosses`). A datagram forwarded by each
  router's own table reaches the host exactly when the routes lead there within its time to live (`Hops.Arrives`,
  `Hops.Led`, `Hops.SegmentTravels`), which ties the transfer and routing results to bytes.

## What the code does not promise

Each of these is a property one might expect that fails. Each has the exact condition under which it holds, and
a run or a family of inputs on which it does not.

- A push beyond the window is not discarded: it lands on another index's slot (`OutOfWindowCorrupts`,
  `StoreIsClippedIff`). The comment at `libsponge/stream_reassembler.hh:39` says such bytes are discarded.
- An empty end-of-stream push ahead of a hole ends the stream at once if nothing is held, and otherwise as soon
  as the rest but the last byte arrives (`EndRightIff`, `EndExactIff`, `EmptyEndEndsEarly`, `EndGoesWrong`). A FIN
  without payload that overtakes data does this to a whole connection, and the sender then forgets the data
  (`DeliverEndIff`, `EarlyEnd.EndsEarly`).
- The free window is an unsigned difference. When the peer pulls its window back it wraps and the sender
  overruns the window (`FillOverrunsIff`, `Overrun.RunOverruns`).
- The room for a FIN is compared with the whole window, not with what is free of it. So a FIN can lie one number beyond
  the edge, and goes out exactly when `FinFits` says (`Filling.FillSends`).
- The timer runs before a SYN is sent, so a passive connection that only waits resets after 511 timeouts
  (`RetryResetNeedsTime`, `ListenerGivesUp`). In every run the next tick of an active connection resets it exactly
  when all eight retransmissions are used, the window is not zero and the timer expires, whether or not anything was
  sent (`ResetIff`).
- A stale acknowledgment still has its window stored (`libsponge/tcp_sender.cc:103`). When one overtakes another the
  sender can pass the receiver's window, and the receiver's bytes are then no prefix of those written
  (`LateAck.BreaksPrefix`). One acknowledgment leaves the sender within what the receiver offers exactly when it is
  not older than the last or its window still fits (`AnyAcks.WithinOfferIff`). Every run is safe whose sender takes
  only those with `previousAck <= n` and `previousAck + window <= n + newWindow`, where `n` is the unwrapped number
  (`AnyAcks.AnyOrderPrefix`). The sender can check that by itself, it is exactly what acknowledgments in order
  give (`AnyAcks.PassesIff`), and acknowledgments in order always meet it (`AnyAcks.InOrderPasses`).
- An acknowledged FIN is noted from the number field even without the ACK flag (`FinAckedRightIff`). A connection
  that does not linger then closes with its FIN unacknowledged (`FlaglessAck.UncleanShutdown`,
  `FlaglessAck.PassiveClose`), so `CleanShutdown` assumes the flag after our FIN.
- Writing to a stream that has reached its end leaves it marked as ended (`WriteKeepsSettledIff`).
- The closest number to a checkpoint is missed when the 64 bits overflow (`Unwrap64NearestIff`).
- Datagrams and segments drop the verdict of their header parsers. A bad header checksum does not reject a
  datagram (`DatagramAcceptedIff`, `HeaderChecksumIff`, `BadChecksumAccepted`), nor a data offset under five words
  a segment (`SegmentAcceptedIff`, `ShortOffsetAccepted`).

Where comments and code differ the model follows the code: the payload limit is 1000 bytes
(`libsponge/tcp_helpers/tcp_config.hh:15`), not the 1452 of the comment in `libsponge/tcp_sender.cc:74`; an ARP
reply teaches from its sender fields, not from the "target" fields named in `libsponge/router.hh:35`.

## Modelling choices

- Absolute sequence numbers, byte counts and times are unbounded naturals. Sequence numbers on the wire, windows
  and checksums keep their widths, and the wrap of the unsigned window subtraction is written out.
- `Segment.at`, `Ack.number` and the `hop` of an outgoing frame record where a value came from. No operation
  reads them; statements about runs do.
- The initial sequence number, time and the network are parameters or steps. An address is a 32-bit number.
- The edge of a window counts from the number the sender keeps. An ack beyond what was sent is ignored but for its
  window, so its own number says nothing about the edge; for every other ack its own right edge is enough.
- The sender's runs assume fewer than 2^31 numbers in flight when an ack arrives and no write after the end of
  input. The transfer system proves the first of these, and delivers only segments within half the sequence
  space of the receiver's position, since a 32-bit number says nothing beyond that.
- With two connections a packet is taken by a connection that is active, and only if its number is within half the
  sequence space and its acknowledgment, if any, passes the sender's test; other packets count as lost.
- Capacity zero is excluded for a reassembler: the source divides by it.

## Model

| member | source | states |
|---|---|---|
| `WrappingIntegers.WrapCongruent` | libsponge/wrapping_integers.cc:18-21 | a number wraps to n exactly when its remainder modulo 2^32 is n's offset from the ISN |
| `WrappingIntegers.UnwrapNearest` | libsponge/wrapping_integers.cc:33-55 | the result wraps to n and no other natural number that does is closer to the checkpoint |
| `WrappingIntegers.UnwrapInvertsWrap` | libsponge/wrapping_integers.cc:18-55 | unwrapping undoes wrapping for every number less than 2^31 from the checkpoint |
| `WrappingIntegers.Unwrap64NearestIff` | libsponge/wrapping_integers.cc:33-55 | in 64 bits the result is the closest exactly when the upper candidate does not overflow |
| `ByteStreams.WriteKeepsSettledIff` | libsponge/byte_stream.cc:17-31 | after a write, eof still means ended and drained exactly if eof was not reached or nothing was accepted |
| `ByteStreams.PopKeepsSettled` | libsponge/byte_stream.cc:45-57 | popping keeps eof equivalent to ended and drained |
| `ByteStreams.WriteAccepts` | libsponge/byte_stream.cc:17-31 | a write adds the longest prefix there is room for to the end of the buffer and touches nothing else |
| `ByteStreams.PeekThenPop` | libsponge/byte_stream.cc:34-67 | what is read and what is left are the buffer, and less than asked for is read only when nothing is left |
| `ByteStreams.ReadsAreHistory` | libsponge/byte_stream.cc:17-72 | over any run of writes, reads and ends, the bytes read in order are the bytes accepted in order |
| `ByteStreams.ByteStream.constructor` | libsponge/byte_stream.cc:15 | a new stream is empty, open and of the given capacity |
| `ByteStreams.ByteStream.RemainingCapacity` | libsponge/byte_stream.cc:86 | the free room is capacity less the bytes accepted and not yet read |
| `ByteStreams.ByteStream.Append` | libsponge/byte_stream.cc:17-31 | the longest fitting prefix is accepted and its length returned |
| `ByteStreams.ByteStream.PeekOutput` | libsponge/byte_stream.cc:34-42 | the next bytes of the history, at most len |
| `ByteStreams.ByteStream.PopOutput` | libsponge/byte_stream.cc:45-57 | the read position moves by at most len and eof is set again |
| `ByteStreams.ByteStream.Read` | libsponge/byte_stream.cc:62-67 | returns what it removes |
| `ByteStreams.ByteStream.EndWriting` | libsponge/byte_stream.cc:69-72 | input is ended and eof says whether all is read |
| `Reassembly.StoreInWindow` | libsponge/stream_reassembler.cc:50-70 | storing from an index within the window adds exactly the bytes clipped to what is unassembled and fits |
| `Reassembly.StoreIsClippedIff` | libsponge/stream_reassembler.cc:50-70 | bytes and count stored are the clipped ones exactly when the data is empty or starts within the window |
| `Reassembly.StoredIsUnsigned` | libsponge/stream_reassembler.cc:52-54 | the count of storable bytes is the 64-bit unsigned difference cut to the size, in the window and beyond |
| `Reassembly.LimitIsCapacity` | libsponge/stream_reassembler.cc:50-54 | the window ends a capacity beyond the bytes read |
| `Reassembly.ContiguousMeaning` | libsponge/stream_reassembler.cc:76-86 | the run taken out is the longest held run from the first unassembled index |
| `Reassembly.PushOnRing` | libsponge/stream_reassembler.cc:30-42 | any push, even out of the window, keeps held indices within one lap and never shortens the output |
| `Reassembly.AssembleAligned` | libsponge/stream_reassembler.cc:72-94 | the whole run fits the output, so bytes written stay equal to the first unassembled index |
| `Reassembly.PushAligned` | libsponge/stream_reassembler.cc:30-42 | an in-window push appends exactly the longest run of old and clipped new bytes |
| `Reassembly.PushFaithful` | libsponge/stream_reassembler.cc:30-94 | an in-window push of a piece of S keeps the output a prefix of S and covers exactly the old indices and the clipped range |
| `Reassembly.ReadFaithful` | libsponge/stream_reassembler.cc:50-54 | reading keeps that and only moves the window on |
| `Reassembly.DeterminedByIndices` | libsponge/stream_reassembler.cc:50-94 | two reassemblers that cover the same indices of S are equal in output, position and contents |
| `ReassemblyRuns.RunAssemblesCovered` | libsponge/stream_reassembler.cc:30-94 | after any in-window run of pushes and reads the output is S up to the first uncovered index, the rest covered is held below bytes read plus capacity |
| `ReassemblyRuns.PushesCover` | libsponge/stream_reassembler.cc:50-70 | without reads an index is covered exactly when some push, clipped to the capacity, contains it |
| `ReassemblyRuns.PushesSeeEnd` | libsponge/stream_reassembler.cc:31-33 | the end has been seen exactly when some end push fitted whole |
| `ReassemblyRuns.OrderIndependence` | libsponge/stream_reassembler.cc:30-94 | two runs of the same pushes in any order and number give the same output, position, contents and end flag |
| `ReassemblyRuns.EndRightIff` | libsponge/stream_reassembler.cc:30-42 | a push leaves "ended exactly when the end was seen and all of S is assembled" true exactly when it is not an empty end ahead of a hole with nothing held |
| `ReassemblyRuns.EndGoesWrong` | libsponge/stream_reassembler.cc:30-42 | after any empty end ahead of a hole, one more push of bytes of S makes it false |
| `ReassemblyRuns.EndExactIff` | libsponge/stream_reassembler.cc:30-42 | a push keeps the invariant that makes it stay true exactly when it is not an empty end ahead of a hole |
| `ReassemblyRuns.RunEndExact` | libsponge/stream_reassembler.cc:30-42 | over runs without such a push, input is ended exactly when the end was seen and all of S is assembled |
| `ReassemblyRuns.EmptyEndEndsEarly` | libsponge/stream_reassembler.cc:31-41 | an empty end push ahead of the first unassembled index ends an otherwise empty reassembler with bytes missing |
| `ReassemblyRuns.OutOfWindowCorrupts` | libsponge/stream_reassembler.cc:53-66 | a byte pushed whole laps beyond the window is output as the next byte of the stream |
| `StreamReassemblers.SlotIsRemainder` | libsponge/stream_reassembler.cc:61 | stepping round the ring reaches the slot that the remainder names |
| `StreamReassemblers.FillSlot` | libsponge/stream_reassembler.cc:60-67 | writing a slot changes the map of held bytes at exactly that slot's index; occupied means already held |
| `StreamReassemblers.EmptySlot` | libsponge/stream_reassembler.cc:78-82 | clearing a held index's slot removes exactly that index |
| `StreamReassemblers.AdvanceRing` | libsponge/stream_reassembler.cc:92-93 | moving separator and first index together by a taken count keeps slots and indices in step |
| `StreamReassemblers.StreamReassembler.constructor` | libsponge/stream_reassembler.cc:17-25 | starts empty, every slot free |
| `StreamReassemblers.StreamReassembler.PushSubstring` | libsponge/stream_reassembler.cc:30-42 | the array form does what the map form does for every push, and the byte count is the map's size |
| `StreamReassemblers.StreamReassembler.StoreData` | libsponge/stream_reassembler.cc:50-70 | the loop over slots stores what the map form stores and returns its count |
| `StreamReassemblers.StreamReassembler.WriteToOutput` | libsponge/stream_reassembler.cc:72-94 | the loop moves the longest held run to the output and advances the ring past it |
| `SenderInvariants.NewSenderInv` | libsponge/tcp_sender.cc:20-29 | a new sender meets the invariant: chained queue, accounted numbers, faithful emissions |
| `SenderInvariants.FillWindowInv` | libsponge/tcp_sender.cc:33-97 | filling keeps the invariant whatever the window, wrapped or not |
| `SenderInvariants.AckReceivedInv` | libsponge/tcp_sender.cc:101-152 | any ack and window keep the invariant and never move the acknowledged number back |
| `SenderInvariants.TickInv` | libsponge/tcp_sender.cc:155-176 | a tick keeps the invariant |
| `SenderInvariants.SendEmptyInv` | libsponge/tcp_sender.cc:180-186 | a bare segment keeps the invariant |
| `SenderInvariants.WriteInv` | libsponge/tcp_connection.cc:93-102 | accepting data before the end keeps it: emitted segments still carry the stream's bytes |
| `SenderInvariants.EndInputInv` | libsponge/tcp_connection.cc:135-142 | ending the input keeps it |
| `SenderInvariants.FrontUnwraps` | libsponge/tcp_sender.cc:124-136 | the oldest outstanding segment's 32-bit number unwraps to its true place |
| `SenderInvariants.InFlightIsTotal` | libsponge/tcp_sender.cc:33-152 | bytes in flight are the sum of the outstanding lengths |
| `SenderRuns.AckReceivedWindow` | libsponge/tcp_sender.cc:101-152 | an ack that does not move the edge of the window at the sender back keeps all but a FIN within the acknowledged number plus max(window, 1) |
| `SenderRuns.RightEdgeHolds` | libsponge/tcp_sender.cc:101-111 | so does every ack of something sent, late or new, whose own right edge does not go back |
| `SenderRuns.FillWindowWindow` | libsponge/tcp_sender.cc:33-97 | filling keeps that bound |
| `SenderRuns.FillOverrunsIff` | libsponge/tcp_sender.cc:33-97 | filling sends payload past the window exactly when the SYN is acknowledged, more is in flight than the window holds and bytes are waiting |
| `Overrun.RunOverruns` | libsponge/tcp_sender.cc:33-152 | a legal run of seven events, in which the peer pulls its window back, that does so |
| `SenderRuns.RunWindow` | libsponge/tcp_sender.cc:33-152 | over every run with such acks the bound holds |
| `SenderRuns.FillWindowTimer` | libsponge/tcp_sender.cc:33-97 | filling keeps the timer rules, starts a stopped timer only by sending and does not disturb a running one |
| `SenderRuns.AckReceivedTimer` | libsponge/tcp_sender.cc:101-152 | a new ack resets count, timeout and elapsed time, any other changes none; the timer runs exactly when something is outstanding |
| `SenderRuns.TickTimer` | libsponge/tcp_sender.cc:155-176 | the timeout stays the initial one times two to the number of retransmissions |
| `SenderRuns.ExpiryResends` | libsponge/tcp_sender.cc:155-176 | a tick resends exactly if the timer expires and the SYN was sent, and then the segment holding the oldest unacknowledged number; an expiry counts exactly if the window is open |
| `SenderRuns.TicksAdd` | libsponge/tcp_sender.cc:155-203 | two ticks are one of their sum, up to an expiry |
| `SenderRuns.RunInv` | libsponge/tcp_sender.cc:33-186 | every run keeps the invariant and the timer rules, and at k retransmissions initial * (2^k - 1) ms have passed since the count was zero |
| `SenderRuns.RetryLimitNeedsTime` | libsponge/tcp_sender.cc:155-176 | passing the retry limit takes at least 511 timeouts without a new ack |
| `SenderRuns.SummaryExact` | libsponge/tcp_helpers/tcp_state.cc:94-110 | the summary names exactly what happened to SYN and FIN, in every error-free reachable state |
| `TCPSenders.RetransmissionTimer.constructor` | libsponge/tcp_sender.cc:188-189 | a new timer already runs |
| `TCPSenders.RetransmissionTimer.Tick` | libsponge/tcp_sender.cc:191-203 | reports and resets an expiry, else counts the time |
| `TCPSenders.RetransmissionTimer.Start` | libsponge/tcp_sender.cc:204-208 | starting a running timer keeps its time |
| `TCPSenders.RetransmissionTimer.Stop` | libsponge/tcp_sender.cc:209-212 | stops and forgets the time |
| `TCPSenders.RetransmissionTimer.SetRtoInit` | libsponge/tcp_sender.cc:213 | back to the initial timeout |
| `TCPSenders.RetransmissionTimer.DoubleRto` | libsponge/tcp_sender.cc:214 | twice the timeout |
| `Filling.FillSends` | libsponge/tcp_sender.cc:33-97 | the SYN goes first and alone, nothing before it is acknowledged, then all data up to the edge of the window, and the FIN exactly when it fits below the edge or rides on the last piece without being its whole window |
| `Filling.AckSends` | libsponge/tcp_sender.cc:101-152 | a new ack moves number and window and sends what then fits; any other only has its window stored |
| `Filling.ZeroWindowProbed` | libsponge/tcp_sender.cc:34-36 | a closed window with nothing in flight is probed with one number if there is anything to send |
| `Filling.FillPastEdge` | libsponge/tcp_sender.cc:36-97 | when the window was pulled back below what is in flight a fill sends everything there is |
| `Filling.FillEmits` | libsponge/tcp_sender.cc:33-97 | what is new in the outstanding queue is new on the way out, in the same order |
| `Filling.FillsFull` | libsponge/tcp_sender.cc:74-93 | within the window all new segments but the last are full |
| `TCPSenders.TCPSender.constructor` | libsponge/tcp_sender.cc:20-29 | nothing sent, window one |
| `TCPSenders.TCPSender.Fill` | libsponge/tcp_sender.cc:33-97 | the method with its loop and early exits computes the recursive fill, and terminates |
| `TCPSenders.TCPSender.Acknowledge` | libsponge/tcp_sender.cc:101-152 | the method with its popping loop computes the recursive form |
| `TCPSenders.TCPSender.Advance` | libsponge/tcp_sender.cc:155-176 | resend, count, double and restart as the value form says |
| `TCPSenders.TCPSender.SendEmptySegment` | libsponge/tcp_sender.cc:180-186 | queues a bare segment at the next number, outstanding queue untouched |
| `TCPReceivers.TCPReceiver.constructor` | libsponge/tcp_receiver.hh:26-30 | no ISN yet, an empty reassembler |
| `TCPReceivers.TCPReceiver.Receive` | libsponge/tcp_receiver.cc:13-34 | SYN sets the ISN, later segments are pushed at their unwrapped place, the ISN's own place is refused |
| `TCPReceivers.TCPReceiver.CurrentAckno` | libsponge/tcp_receiver.cc:36-48 | the wrapped number after all assembled bytes and, once ended, the FIN |
| `TCPReceivers.TCPReceiver.CurrentWindow` | libsponge/tcp_receiver.cc:50 | the free room of the output stream |
| `Receiving.SynOpens` | libsponge/tcp_receiver.cc:20-22 | the first SYN fixes the numbering, and data and FIN that come with it count at once |
| `Receiving.IgnoredBeforeSyn` | libsponge/tcp_receiver.cc:20-33 | nothing else changes the receiver before it |
| `Receiving.OffersWhatFits` | libsponge/tcp_receiver.cc:50 | the window offered ends where the reassembler's does, a capacity beyond what was read |
| `Transfer.AckUnwraps` | libsponge/tcp_sender.cc:101-111 | every ack in the channel unwraps at the sender to the number it was made from, and its edge does not go back |
| `Transfer.FillSafe` | libsponge/tcp_sender.cc:33-97 | handing over a filled window keeps the system invariant: new segments start within the receiver's window |
| `Transfer.OldAckSafe` | libsponge/tcp_sender.cc:101-111 | an ack that brings nothing new keeps the system invariant |
| `Transfer.NewAckSafe` | libsponge/tcp_sender.cc:101-152 | so does a new ack, through dropping, filling and restarting the timer |
| `TransferSafety.Lands` | libsponge/tcp_receiver.cc:13-34 | a segment within half the sequence space is pushed at its true place |
| `TransferSafety.DeliverSafe` | libsponge/tcp_receiver.cc:13-34 | any segment still in the network, new, old or repeated, keeps the system invariant |
| `TransferSafety.NextSafe` | libsponge/tcp_sender.cc:33-186 | every step of the transition system keeps its invariant |
| `TransferSafety.EndToEndPrefix` | libsponge/tcp_sender.cc:33-176 | in every run the receiver's output is a prefix of the bytes written at the sender |
| `TransferSafety.FinAckedMeansDelivered` | libsponge/tcp_receiver.cc:36-48 | when everything including the FIN is acknowledged the receiver has all bytes and has ended |
| `TransferSafety.DeliveredGetsAcked` | libsponge/tcp_receiver.cc:36-48 | and in every run the receiver's present ack moves the sender past the SYN, every assembled byte and the FIN once ended, so with all delivered nothing stays in flight |
| `TransferSafety.DeliverEndIff` | libsponge/stream_reassembler.cc:30-42 | any delivery leaves an ended receiver with every byte written exactly when it is not an empty FIN ahead of a hole to a receiver that holds nothing |
| `TransferSafety.DeliverEndOkIff` | libsponge/stream_reassembler.cc:30-42 | a delivery keeps the invariant behind that exactly when it is not an empty FIN ahead of a hole |
| `TransferSafety.EndMeansComplete` | libsponge/stream_reassembler.cc:30-42 | in runs without such a delivery an ended receiver has every byte written |
| `EarlyEnd.EndsEarly` | libsponge/stream_reassembler.cc:31-41 | a run of eleven steps in which an overtaking FIN ends the stream empty and the sender drops the lost byte |
| `LateAck.CutShort` | libsponge/stream_reassembler.cc:72-94 | a full reassembler that holds a byte beyond its limit loses it when the byte before it comes, and counts it as assembled |
| `LateAck.BreaksPrefix` | libsponge/tcp_sender.cc:101-111 | a run with two acks out of order after which the receiver's bytes are no prefix of those written |
| `AnyAcks.PassesIff` | libsponge/tcp_sender.cc:101-111 | for an ack in reach that the receiver once sent, the sender's test holds exactly when its number and right edge lie between those the sender keeps and those the receiver offers now |
| `AnyAcks.InOrderPasses` | libsponge/tcp_sender.cc:101-111 | the next ack of a channel that does not reorder is in reach and passes the test |
| `AnyAcks.WithinOfferIff` | libsponge/tcp_sender.cc:101-152 | after an ack the sender's window ends within the receiver's offer exactly if the ack is not older than the last or its window, counted from the last number, still fits |
| `AnyAcks.AnyOrderPrefix` | libsponge/tcp_sender.cc:101-152 | in every run with acks lost, repeated and reordered, taken when they pass the test, the receiver's bytes are a prefix of those written |
| `AnyAcks.AnyOrderDelivered` | libsponge/tcp_sender.cc:101-152 | and once the sender's FIN is acknowledged all of them are there and the stream has ended |
| `TwoWay.BothPrefixes` | libsponge/tcp_connection.cc:23-204 | in every run of two connections each has assembled a prefix of what was written to the other, and all of it, ended, once the other's FIN is acknowledged |
| `ConnectionRuns.FlushSound` | libsponge/tcp_connection.cc:164-185 | flushing empties the sender's queue, keeps the connection invariant, sends no RST and notes a FIN only if one was sent |
| `ConnectionRuns.ReceivedSound` | libsponge/tcp_connection.cc:23-89 | a received segment keeps the connection invariant; if it closes the connection, that is clean or by RST |
| `ConnectionRuns.TickSound` | libsponge/tcp_connection.cc:105-133 | so does a tick; it fails the streams and sends an RST exactly when every retransmission is used, the window is not zero and the timer expires |
| `ConnectionRuns.FinAckedRightIff` | libsponge/tcp_connection.cc:55-71 | with the final number in the ack field, the FIN is noted as acknowledged, rightly exactly if the ACK flag is set |
| `FlaglessAck.UncleanShutdown` | libsponge/tcp_connection.cc:55-71 | after any legal run that awaits the ack of its FIN without lingering, such a segment closes the connection with no RST and the FIN unacknowledged |
| `FlaglessAck.PassiveClose` | libsponge/tcp_connection.cc:23-142 | a passive close of three events is such a run |
| `ConnectionRuns.WriteSound` | libsponge/tcp_connection.cc:93-102 | writing keeps the invariant and neither closes nor resets |
| `ConnectionRuns.EndSound` | libsponge/tcp_connection.cc:135-142 | ending the stream keeps the invariant and neither closes nor resets |
| `ConnectionRuns.ConnectSound` | libsponge/tcp_connection.cc:144-149 | opening keeps the invariant and neither closes nor resets |
| `ConnectionRuns.RstSound` | libsponge/tcp_connection.cc:187-204 | a reset keeps the invariant, fails both streams, ends the connection and puts out one empty RST segment at the next number |
| `ConnectionRuns.InactiveReceives` | libsponge/tcp_connection.cc:27-38 | an inactive connection wakes exactly for a SYN, which its receiver takes, and sends nothing |
| `ConnectionRuns.RunIsOk` | libsponge/tcp_connection.cc:23-204 | every run keeps all of this, and the streams have failed exactly when an RST was sent or received |
| `ConnectionRuns.CleanShutdown` | libsponge/tcp_connection.cc:105-133 | inactive without RST means inbound ended, FIN sent, all acknowledged, and ten timeouts of quiet if lingering; the summary is CLOSED exactly then |
| `ConnectionRuns.ResetIff` | libsponge/tcp_connection.cc:105-113 | after every run an active connection has used at most eight retransmissions, and the next tick leaves an RST out exactly if one was or this tick is one expiry too many |
| `ConnectionRuns.RetryResetNeedsTime` | libsponge/tcp_connection.cc:105-113 | a retry-limit reset needs 511 timeouts without a new ack |
| `ConnectionRuns.ListenerGivesUp` | libsponge/tcp_connection.cc:105-113 | a connection that never sent or received anything resets after nine doubling waits |
| `Answering.Answers` | libsponge/tcp_connection.cc:49-88 | a segment brings out the sender's news and then one bare segment at the next number exactly if it is a keep-alive, or takes sequence space and there is no news; all carry the present ack and window |
| `Answering.DataIsAnswered` | libsponge/tcp_connection.cc:76-79 | so whatever takes sequence space is answered, with an ack of all that was assembled once the peer's SYN is in |
| `Answering.AcksAreNotAnswered` | libsponge/tcp_connection.cc:76-85 | and a bare segment at the acknowledged number brings out nothing but news |
| `Promptness.AppPrompt` | libsponge/tcp_connection.cc:93-149 | opening, writing and ending send at once whatever then fits |
| `Promptness.RunPrompt` | libsponge/tcp_connection.cc:23-204 | in every run the queue is handed over at each step, all that was put out but an RST carries its own bytes, and with the peer's SYN in nothing that fits the window is held back |
| `Promptness.RunSpeaks` | libsponge/tcp_connection.cc:164-185 | after every run all the next event puts out but an RST has the receiver's ack number, ACK flag and window as they then are |
| `Closing.RunExact` | libsponge/tcp_connection.cc:61-74 | in every run the flags say exactly whether the FIN was sent and acknowledged, and lingering is dropped exactly when the peer ended first |
| `Closing.TickClosesIff` | libsponge/tcp_connection.cc:105-133 | the next tick closes exactly on one expiry too many, or with inbound ended, FIN acknowledged and the peer first or ten timeouts of quiet |
| `Closing.SegmentClosesIff` | libsponge/tcp_connection.cc:40-70 | the next segment closes exactly if it is an RST, or leaves our FIN acknowledged after the peer ended first |
| `TCPConnections.TCPConnection.constructor` | libsponge/tcp_connection.hh:12-45 | active, lingering, nothing sent |
| `TCPConnections.TCPConnection.Receive` | libsponge/tcp_connection.cc:23-89 | the method does what the value form says in every branch |
| `TCPConnections.TCPConnection.Write` | libsponge/tcp_connection.cc:93-102 | writes, fills, flushes and returns the bytes accepted |
| `TCPConnections.TCPConnection.Advance` | libsponge/tcp_connection.cc:105-133 | time passes, then reset, conclude or flush |
| `TCPConnections.TCPConnection.EndInput` | libsponge/tcp_connection.cc:135-142 | ends, fills, flushes |
| `TCPConnections.TCPConnection.Open` | libsponge/tcp_connection.cc:144-149 | activates, fills, flushes |
| `TCPConnections.TCPConnection.Flush` | libsponge/tcp_connection.cc:164-185 | the loop moves the whole queue in order, each segment stamped with ack number and window |
| `TCPConnections.TCPConnection.Reset` | libsponge/tcp_connection.cc:187-204 | both streams fail, the queue is dropped and one RST segment goes out |
| `ArpRuns.SubmitConsistent` | libsponge/network_interface.cc:32-73 | submitting keeps the request timers exactly the awaited hops and apart from the cache |
| `ArpRuns.ReceiveConsistent` | libsponge/network_interface.cc:76-146 | so does any frame |
| `ArpRuns.LearnConserves` | libsponge/network_interface.cc:99-119 | learning moves queued datagrams to frames, losing, repeating and reordering none for any hop |
| `ArpRuns.SubmitSpaced` | libsponge/network_interface.cc:49-72 | a request goes out only if 5000 ms passed since the last one for that address, on any path |
| `ArpRuns.PassSpaced` | libsponge/network_interface.cc:149-167 | expiry of a mapping never allows an early request |
| `ArpRuns.AfterInv` | libsponge/network_interface.cc:32-167 | every event keeps consistency, conservation, spacing and freshness |
| `ArpRuns.EveryRun` | libsponge/network_interface.cc:32-167 | over every run: timers match the queue; per hop the frames then the queue are the submissions in order; requests 5000 ms apart; an address is cached exactly while its latest lesson is under 30000 ms old; each frame uses the latest mapping learned |
| `ArpRuns.SubmitIff` | libsponge/network_interface.cc:32-73 | after every run a datagram is framed at once exactly if its hop was learned within 30000 ms; else it waits, and a request goes out exactly if none did within 5000 ms |
| `ArpRuns.TicksAdd` | libsponge/network_interface.cc:149-167 | two ticks are one of their sum |
| `ArpExchange.Ignores` | libsponge/network_interface.cc:79-83 | a frame for another address changes nothing and passes nothing up, and one without a readable message teaches nothing |
| `ArpExchange.ReplyIff` | libsponge/network_interface.cc:121-140 | one ARP frame goes out exactly when our address is asked for, last and to the one who asked, and says where we are |
| `ArpExchange.Taught` | libsponge/network_interface.cc:99-119 | any readable message makes the sender's address known and sends there all that waited, in order |
| `ArpExchange.Exchange` | libsponge/network_interface.cc:49-140 | a request makes the asked interface send one ARP frame back and learn the asker; that frame, whenever it comes, teaches the asker and sends all that waits |
| `NetworkInterfaces.FlushNext` | libsponge/network_interface.cc:110-119 | one step of erasing from the list while walking it sends or keeps the next entry and skips none |
| `NetworkInterfaces.NetworkInterface.constructor` | libsponge/network_interface.cc:23-27 | nothing cached, timed, queued or sent |
| `NetworkInterfaces.NetworkInterface.Send` | libsponge/network_interface.cc:32-73 | frames at once, or queues and asks if a request is due |
| `NetworkInterfaces.NetworkInterface.ReceiveFrame` | libsponge/network_interface.cc:76-146 | parses and passes IPv4 up, learns from any ARP message, flushes the hop's queue, replies to requests for this address |
| `NetworkInterfaces.NetworkInterface.FlushQueue` | libsponge/network_interface.cc:110-119 | the erasing loop sends exactly the hop's datagrams in order and keeps the others in order |
| `NetworkInterfaces.NetworkInterface.Advance` | libsponge/network_interface.cc:149-167 | ages mappings and timers, dropping mappings of 30000 ms |
| `Routing.MaskMatchIsPrefix` | libsponge/router.cc:56-63 | equality under the shifted mask is equality of the leading bits, for lengths 0 to 32 |
| `Routing.InsertPlace` | libsponge/router.cc:25-40 | the place the loop finds is the sorted place after equal lengths |
| `Routing.TableSorted` | libsponge/router.cc:25-40 | after any routes added the table is sorted by length and a permutation of them |
| `Routing.LongestPrefixMatch` | libsponge/router.cc:43-79 | the first match in the table is the longest matching route, the earliest added on ties, and there is none exactly if none matches |
| `Routing.DroppedIff` | libsponge/router.cc:43-79 | a datagram is dropped exactly if its TTL is at most one or no route matches |
| `Routing.RouteFromPort` | libsponge/router.cc:81-90 | routing empties every queue and hands each interface exactly its datagrams, once, in order, with TTL one less |
| `Routers.AsyncNetworkInterface.ReceiveFrame` | libsponge/router.hh:22-47 | datagrams passed up are queued for routing |
| `Routers.Router.AddInterface` | libsponge/router.hh:66-69 | appends and returns the index |
| `Routers.Router.AddRoute` | libsponge/router.cc:25-40 | the table after insertion in place is the sorted table of all routes added |
| `Routers.Router.Lookup` | libsponge/router.cc:56-76 | the loop returns the first match |
| `Routers.Router.RouteOneDatagram` | libsponge/router.cc:43-79 | one datagram goes to the chosen interface's next hop, or nowhere |
| `Routers.Router.RouteAll` | libsponge/router.cc:81-90 | the nested loops route every queue of every interface |
| `Parsing.DecodeEncode` | libsponge/util/parser.cc:26-60 | an integer that fits comes back from its big-endian bytes |
| `Parsing.EncodeDecode` | libsponge/util/parser.cc:26-60 | any bytes are the encoding of the integer they decode to |
| `Parsing.ReadWritten` | libsponge/util/parser.cc:26-60 | reading returns what was written in front and leaves the rest |
| `Parsing.SkipTwice` | libsponge/util/parser.cc:20-51 | consecutive reads succeed exactly when one read of both sizes would, and an error stays |
| `Parsing.NetParser.CheckSize` | libsponge/util/parser.cc:20-24 | sets the error exactly when too few bytes are left |
| `Parsing.NetParser.ParseInt` | libsponge/util/parser.cc:26-43 | the loop decodes the next bytes and consumes them; after an error it gives zero and consumes nothing |
| `Parsing.NetParser.RemovePrefix` | libsponge/util/parser.cc:45-51 | consumes, or records the error |
| `Parsing.UnparseInt` | libsponge/util/parser.cc:53-60 | the loop appends the big-endian bytes |
| `Checksums.FoldMeaning` | libsponge/util/util.cc:100-108 | folding leaves 16 bits, keeps the value modulo 65535 and reaches zero only from zero |
| `Checksums.VerifiesIff` | libsponge/util/util.cc:100-108 | a sum verifies exactly when it is a positive multiple of 65535 |
| `Checksums.NeverWraps` | libsponge/util/util.cc:100-108 | adding its own checksum to a 32-bit sum never wraps |
| `Checksums.OwnChecksumVerifies` | libsponge/util/util.cc:100-108 | a 32-bit sum always verifies together with its own checksum |
| `Checksums.WordSumConcat` | libsponge/util/util.cc:89-98 | the sum of pieces is the sum of the whole, with parity carried over |
| `Checksums.SumFits` | libsponge/util/util.cc:89-98 | for up to 65535 bytes after any pseudo-header sum the unreduced sum is below 2^32 |
| `Checksums.InsertedVerifies` | libsponge/util/util.cc:89-108 | a checksum computed over a blank field and put there verifies, for any data and any initial sum |
| `Checksums.FieldVerifiesIff` | libsponge/util/util.cc:89-108 | without overflow a field value verifies exactly when it is the complement of the rest modulo 65535 |
| `Checksums.InternetChecksum.Add` | libsponge/util/util.cc:89-98 | the loop adds the word sum modulo 2^32, without reduction for up to 65535 bytes after a pseudo-header sum, and keeps the parity for any split of the data |
| `Checksums.InternetChecksum.Value` | libsponge/util/util.cc:100-108 | the folding loop gives the complement of the folded sum |
| `IPv4.LayoutAround` | libsponge/tcp_helpers/ipv4_header.cc:78-110 | the checksum field is at offset ten and nothing else depends on it |
| `IPv4.ReadFieldsBack` | libsponge/tcp_helpers/ipv4_header.cc:31-48 | every field comes back from the wire, as far as its bits reach |
| `IPv4.ParseLeaves` | libsponge/tcp_helpers/ipv4_header.cc:23-75 | what the header parser consumes, and that it accepts exactly sound fields with a zero checksum |
| `IPv4.DatagramAcceptedIff` | libsponge/tcp_helpers/ipv4_datagram.cc:11-21 | which buffers are accepted as datagrams: sound fields, or a payload length that happens to match |
| `IPv4.ShortDatagram` | libsponge/tcp_helpers/ipv4_datagram.cc:11-21 | a buffer shorter than a header keeps the old header and is judged by it |
| `IPv4.HeaderChecksumVerifies` | libsponge/tcp_helpers/ipv4_datagram.cc:28-35 | the inserted header checksum verifies to zero |
| `IPv4.HeaderChecksumIff` | libsponge/tcp_helpers/ipv4_header.cc:68-72 | a header verifies exactly with the checksum computed for it, or the other of the two zeros |
| `IPv4.BadChecksumAccepted` | libsponge/tcp_helpers/ipv4_datagram.cc:11-21 | any datagram with any other checksum is refused by the header parser and accepted as a datagram |
| `IPv4.HeaderRoundTrip` | libsponge/tcp_helpers/ipv4_header.cc:23-110 | parsing a serialized header gives no error, every field and the payload left over |
| `IPv4.DatagramRoundTripIff` | libsponge/tcp_helpers/ipv4_datagram.cc:11-41 | a datagram comes back with fields, payload and fresh checksum exactly when its fields fit and its length covers the header or there are no options |
| `WireFormat.PseudoIsSum` | libsponge/tcp_helpers/ipv4_header.cc:112-131 | the sum computed from the fields is that of the words of the pseudo-header: both addresses, zero, protocol, length |
| `WireFormat.PseudoCovers` | libsponge/tcp_helpers/ipv4_header.cc:112-131 | so a checksum started from it is the checksum over pseudo-header and data |
| `WireFormat.IpLayout` | libsponge/tcp_helpers/ipv4_header.cc:78-110 | every field of a header that fits is at its offset in section 3.1 of RFC 791 |
| `WireFormat.IpReadsAt` | libsponge/tcp_helpers/ipv4_header.cc:31-47 | whatever the bytes, each field is read from there |
| `IPv4.ParseHeader` | libsponge/tcp_helpers/ipv4_header.cc:23-75 | the method over the reader gives result, fields and rest of the value form |
| `IPv4.SerializeHeader` | libsponge/tcp_helpers/ipv4_header.cc:78-110 | appending field by field gives the layout |
| `IPv4.ReadDatagram` | libsponge/tcp_helpers/ipv4_datagram.cc:11-21 | parses as the value form, the header's verdict dropped |
| `IPv4.WriteDatagram` | libsponge/tcp_helpers/ipv4_datagram.cc:23-41 | serializes twice, the second time with the checksum of the first |
| `TcpWire.FlagsBack` | libsponge/tcp_helpers/tcp_header.cc:24-30 | the six flags come back from their byte |
| `WireFormat.TcpLayout` | libsponge/tcp_helpers/tcp_header.cc:51-78 | every field and flag of a header that fits is at its place in section 3.1 of RFC 793 |
| `WireFormat.TcpReadsAt` | libsponge/tcp_helpers/tcp_header.cc:18-34 | whatever the bytes, each field and flag is read from there |
| `TcpWire.ReadFieldsBack` | libsponge/tcp_helpers/tcp_header.cc:17-78 | every field comes back from the wire, as far as its bits reach |
| `TcpWire.SegmentAcceptedIff` | libsponge/tcp_helpers/tcp_segment.cc:12-23 | which buffers are accepted as segments and with what payload |
| `TcpWire.ShortOffsetAccepted` | libsponge/tcp_helpers/tcp_segment.cc:12-23 | any header with a data offset under five and a verifying checksum is refused by the header parser and accepted as a segment |
| `TcpWire.SegmentChecksumVerifies` | libsponge/tcp_helpers/tcp_segment.cc:30-45 | the inserted checksum verifies to zero for every segment and every sum from the layer below |
| `TcpWire.SegmentSumFits` | libsponge/tcp_helpers/tcp_segment.cc:30-45 | summing any segment an IPv4 datagram can hold, pseudo-header included, does not overflow 32 bits |
| `TcpWire.SegmentRoundTripIff` | libsponge/tcp_helpers/tcp_segment.cc:12-45 | a segment comes back with fields, payload and fresh checksum exactly when its data offset fits four bits |
| `TcpWire.ParseHeader` | libsponge/tcp_helpers/tcp_header.cc:17-48 | the method over the reader gives result, fields and rest of the value form |
| `TcpWire.SerializeHeader` | libsponge/tcp_helpers/tcp_header.cc:51-78 | appending field by field gives the layout |
| `TcpWire.ReadSegment` | libsponge/tcp_helpers/tcp_segment.cc:12-23 | checksum first, then the header, its verdict dropped |
| `TcpWire.WriteSegment` | libsponge/tcp_helpers/tcp_segment.cc:30-45 | the checksum summed over header and payload separately is that of the whole |
| `TcpOverIp.UnwrapMeaning` | libsponge/tcp_helpers/tcp_over_ip.cc:26-71 | a datagram delivers exactly a valid segment the adapter takes, after which the adapter holds its ends; otherwise nothing changes |
| `TcpOverIp.WrapSerializableIff` | libsponge/tcp_helpers/tcp_over_ip.cc:75-90 | a wrapped segment can be serialized exactly when it is at most 65535 bytes |
| `TcpOverIp.DeliveredIff` | libsponge/tcp_helpers/tcp_over_ip.cc:26-90 | wrapped, put on the wire, read back and unwrapped, a segment arrives whole exactly when the peer's adapter takes that connection |
| `TcpOverIp.OnePeer` | libsponge/tcp_helpers/tcp_over_ip.cc:26-71 | over any run of datagrams all segments delivered belong to one connection |
| `TcpOverIp.TCPOverIPv4Adapter.WrapTcpInIp` | libsponge/tcp_helpers/tcp_over_ip.cc:75-90 | sets ports, addresses and length and serializes with the pseudo-header sum |
| `TcpOverIp.TCPOverIPv4Adapter.UnwrapTcpInIp` | libsponge/tcp_helpers/tcp_over_ip.cc:26-71 | the chain of checks does what the value form says |
| `WireFormat.WrappedBytes` | libsponge/tcp_helpers/tcp_over_ip.cc:75-90 | the bytes of a wrapped segment: addresses, protocol and length in the IPv4 header, ports, fields and payload behind it, and both checksums verify, the TCP one over the pseudo-header |
| `WireFormat.SegmentOnWire` | libsponge/tcp_helpers/tcp_over_ip.cc:75-90 | numbers, flags, window and bytes of every segment of a connection are in their places |
| `WireFormat.CarriedIff` | libsponge/tcp_helpers/tcp_over_ip.cc:38-47 | a datagram carries a segment exactly if it is TCP, the checksum over pseudo-header and payload verifies and the header fits |
| `Crossing.Crosses` | libsponge/tcp_helpers/tcp_over_ip.cc:26-90 | a segment of at most 1000 bytes that the peer's adapter takes comes out of the wire with all that a connection sees of it |
| `Crossing.EmittedCrosses` | libsponge/tcp_connection.cc:164-185 | so does every segment a sender ever queues, stamped with any receiver's ack number and window |
| `Hops.FrameCrosses` | libsponge/network_interface.cc:76-94 | a datagram framed for an interface is passed up by it from the bytes of the frame, with a fresh header checksum |
| `Hops.Arrives` | libsponge/router.cc:43-79 | where the routes lead to the host over some routers, a datagram forwarded by each one's table, port and next hop arrives exactly when its TTL exceeds their number, and then with only TTL and header checksum changed |
| `Hops.Led` | libsponge/router.cc:43-79 | a datagram that arrives was led from router to router by their routes |
| `Hops.SegmentTravels` | libsponge/tcp_helpers/tcp_over_ip.cc:26-90 | a segment put out by one connection reaches the other unchanged wherever the routes lead over fewer than 128 routers |

## Left out

- Liveness: that data arrives eventually under fair loss. The results are safety, bounds and termination.
- 64-bit overflow of byte counts, sequence numbers, times and the doubled timeout.
- StreamReassemblers.StreamReassembler.StoreData: the wrapped byte count is modelled, but not that a slot number overflows when an index beyond the window comes within a capacity of 2^64.
- Routers.Router.Lookup: route lengths above 32 are excluded, since the source shifts by a negative count there; so are routes to interfaces that do not exist, where the source throws.
- IPv4.SerializeHeader, TcpWire.SerializeHeader: a wrong version or a header too short is a precondition here and an exception in the source.
- The destructor of a connection, and what an inactive connection does with later segments beyond one step.
- Ethernet frame and ARP message codecs: fixed layouts over the same integer codec. A frame whose payload does not parse as ARP is an `Incoming` without a message.
- Sockets, the event loop, file descriptors, tun devices, threads and the applications.
- Buffer sharing and reference counts: a buffer is a sequence of bytes.
- The names of the official TCP states other than CLOSED, and all printing.
