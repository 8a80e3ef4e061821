# A verified model of the Nextendo NEX server core

The repository is a game server for Nintendo's NEX protocol: RMC requests travel in PRUDP-Lite packets, a
matchmaking store puts players into gatherings, and a few services (tournaments, leaderboards, station URLs)
hang off it. This project models that core in Dafny and proves what it keeps over all inputs and all runs.

Transport

- `Bytes`, `Stream`: little-endian words and the read/write streams with their sticky error.
- `Rmc`, `PrudpLite`, `Fragments`: message, packet and fragment codecs. `WireLayout`: which bytes hold what.
- `Endpoint`, `Transport`: a connection as a value, and its runs.
- `Delivery`, `SaidOrder`: what a receiver makes of a sender's bytes over any run, and in which order.
- `Acknowledgements`: what packets are answered with, and that acknowledgements settle what they answer.
- `Connections`, `RetransmitPool`: the mutable connection, and its pool of unacknowledged packets over histories.

Matchmaking

- `Dedup`, `DedupSafety`, `DedupHistory`, `DedupTable`: the idempotency layer as a step system over all
  interleavings of callers, and its table as heap objects.
- `Session`, `SessionCodec`: the session structures on the wire.
- `MatchStore`, `MatchInvariants`, `MatchRuns`: the store as functions, one per mutex section, and what every
  run keeps. `Matchmaking`: the same store as gathering objects updated in place, proved against those functions.
- `MatchLaws`, `SeatHolds`: what the operations mean in terms of members, session fields and reservation times, and
  how long a seat is held over runs.
- `ExactlyOnce`: deduplicator, create handler and store composed.

Services

- `Tournament`, `TournamentStore`, `TournamentLayout`: stamping opaque payloads, the store of stamped tournaments,
  and which payloads it takes.
- `Leaderboard`: boards built up by score submissions and the page shown.
- `StationUrl`, `Stations`, `NatBridge`: station URLs, the NAT bridge and ReplaceURL.

Where the code works on mutable objects, so does the model: classes with frames, loops with invariants, each
method proved against a function on values, and the promises proved about those functions.

Inputs of the model: clock readings, random keys, marks and codes, the iteration order of Go maps, the NAT report
of each player, the outcome of a CONNECT's signature and ticket, what handlers send, the UDP port observed for an
address, whether an address is private, the calendar date of an instant. SHA-256 in the deduplication key is taken
to be injective: the key carries the body itself.

Where code and comments differ the model follows the code. What the code does not keep unconditionally is shown by
an input, beside the condition under which it does:

- The comment on auto-matchmaking's last branch says that capacity may change between selection and reservation;
  `MatchRuns.FallbackNeverTaken` shows that it cannot.
- The leaderboard answer picks its category twice, and boards may grow in between; `Leaderboard.LabelExact` says
  when the two picks are bound to agree.
- A join is answered with success even when the reservation ran out before the commit; `MatchRuns.JoinSeatsExactly`
  says exactly when the caller is then a member.
- A lookup against a table full of unexpired entries leaves no entry (`ExactlyOnce.OverflowExactly`), and then
  identical requests can each create a gathering (`ExactlyOnce.CreatedTwice`).
- Fragments of messages sent at the same time mix (`Delivery.MixedFragments`), and a receiver does not recognise a
  retransmission (`Delivery.SentAgain`). Payloads arrive whole exactly as long as every step is fair
  (`Delivery.Fair`, `Delivery.ToldExactly`): no message of one fragment is given and no goroutine takes a turn while
  another payload is half sent, no message exceeds 256 fragments, no goroutine is cut off by closing, and nothing is
  sent again. They arrive in the order given exactly as long as none overtakes another (`SaidOrder.OrderExactly`).
- A packet acknowledged before it is recorded for retransmission stays pending (`RetransmitPool.RecordedLate`);
  `RetransmitPool.PendingUntilAcked` says exactly when.
- A connection opened again while it is open stays on the endpoint's list after it is closed
  (`Transport.ListedAfterClose`); `Transport.ListedExactly` says exactly when, and under how many ids.
- The comment on the NAT bridge says that a host without a private address keeps its stations; one that is not marked
  public passes for the local station (`NatBridge.BridgedWithoutPrivate`). `NatBridge.BridgeExactly` says when the
  LAN address given out is private.
- Naming the last 32-bit attribute index never returns and keeps the store (`MatchInvariants.GrowthEndsExactly`,
  `MatchRuns.StallReached`); runs of the store are runs of operations that end.

## Model

| member | source | states |
|---|---|---|
| Stream.WordListBack | nextendo-nex/stream.go:85-93 | a list of words written out and read back is the same list, and the reader is left exactly behind it |
| Stream.PidBack | nextendo-nex/stream.go:47-53 | a player id that fits the width the settings choose reads back to itself |
| Stream.StringBack | nextendo-nex/stream.go:57-63 | a string within the 16-bit length reads back without its terminator |
| Stream.StringBackExactly | nextendo-nex/stream.go:57-63 | a string reads back if and only if its length and terminator fit 16 bits |
| Stream.BufferBack | nextendo-nex/stream.go:66 | a length-prefixed buffer reads back to itself and leaves the rest unread |
| Stream.StreamOut.WordList | nextendo-nex/stream.go:85-93 | the writing loop appends exactly the bytes of the list |
| Stream.StreamIn.Read | nextendo-nex/stream.go:138-148 | a read takes its bytes or sets the error flag, which stays set |
| Stream.StreamIn.String | nextendo-nex/stream.go:200-213 | the string reader, error and terminator cases included, against the value-level reader |
| Stream.StreamIn.WordList | nextendo-nex/stream.go:238-251 | the list-reading loop, with its refusal of counts beyond the remaining bytes |
| Stream.StreamIn.PidList | nextendo-nex/stream.go:238-251 | the same loop over player ids |
| Rmc.RoundTripExactly | nextendo-nex/rmc.go:49-119 | encode then parse gives the message back if and only if it is not under the escape protocol id, fits its length prefix, a success keeps its method number clear of the response bit and an error carries the error bit |
| Rmc.PayloadBack | nextendo-nex/rmc.go:49-119 | what any message outside the escape id is received as, field by field |
| Rmc.EscapeMisread | nextendo-nex/rmc.go:49-119 | a message under protocol 0x7F is never read back as itself |
| Rmc.EncodeMessage | nextendo-nex/rmc.go:49-84 | the stream-driven encoder produces exactly the specified bytes |
| Rmc.ParseMessage | nextendo-nex/rmc.go:87-119 | the stream-driven parser computes the specified result, size mismatch and truncation included |
| WireLayout.MessageLayout | nextendo-nex/rmc.go:49-84 | the encoding of any message, byte by byte: length, protocol id in its narrow or wide form with the request flag, and each field at its offset |
| PrudpLite.FirstStable | nextendo-nex/prudp_lite.go:115-152 | once a first packet or an error is decided, later bytes cannot change it |
| PrudpLite.ChunkIndependent | nextendo-nex/prudp_lite.go:115-152 | decoding a, then the remainder followed by b, gives the packets and remainder of a followed by b |
| PrudpLite.DecodeEncoded | nextendo-nex/prudp_lite.go:77-182 | encodings of normal packets followed by an incomplete one decode to exactly those packets and that tail |
| PrudpLite.PacketRoundTripExactly | nextendo-nex/prudp_lite.go:77-182 | a packet decodes to itself if and only if it is normal: nibble-sized ports and types, options that belong to its type, lengths within their fields |
| PrudpLite.OversizeMisread | nextendo-nex/prudp_lite.go:77-110 | options or payload beyond their length fields shift the packet boundary |
| WireLayout.PacketLayout | nextendo-nex/prudp_lite.go:77-110 | the encoding of a normal packet, byte by byte: the twelve header bytes, the options its type and acknowledgement flag call for, the payload |
| PrudpLite.EncodePacket | nextendo-nex/prudp_lite.go:77-90 | the encoder appends header, options and payload as specified |
| PrudpLite.EncodeOptions | nextendo-nex/prudp_lite.go:92-110 | the option list of each packet type, in order |
| PrudpLite.DecodeLiteOptions | nextendo-nex/prudp_lite.go:154-182 | the option loop fills the packet or fails on a truncated option |
| PrudpLite.DecodePackets | nextendo-nex/prudp_lite.go:115-152 | the decoding loop returns all complete packets and the unread tail, or the error |
| Fragments.SplitAbsorbed | nextendo-nex/endpoint.go:616-663 | whatever was buffered before, absorbing the fragments of a send delivers one payload and empties the buffer |
| Fragments.Reassembled | nextendo-nex/endpoint.go:616-663 | fragmenting and reassembling keeps the first 256 fragments' worth of the payload and nothing else |
| Fragments.FragmentBoundExact | nextendo-nex/endpoint.go:616-663 | the payload arrives whole if and only if it is at most 256 times the fragment size |
| Transport.SoundStep | nextendo-nex/endpoint.go:355-737 | whatever a connection does, everything it sends can be decoded, and every packet it keeps for retransmission is a fragment with bytes in it or the last of a payload |
| Transport.ListedExactly | nextendo-nex/endpoint.go:101-117 | over any run the endpoint lists a closed connection under as many ids as it was opened while already open, so it is off the list if and only if that never happened |
| Transport.ListedAfterClose | nextendo-nex/endpoint.go:421-454 | any client accepted twice before its socket is closed stays listed |
| Delivery.EndToEnd | nextendo-nex/endpoint.go:616-663 | over any run of fair steps of a sender, acknowledgements, pings, handshakes, handler answers and turns of any number of sending goroutines in between, its bytes, cut in any chunks and fed to any receiver, are delivered as exactly the payloads whose sending has ended, whole and in that order; these and the goroutines' payloads are the messages given, each as often as it was given |
| Delivery.ToldStep | nextendo-nex/endpoint.go:592-737 | of all steps of a connection exactly the fair ones keep the wire telling what was said: a short message is given while no payload is half sent, a long one fits 256 fragments, a goroutine takes its turn on an open connection while no other payload is half sent, a handler's messages are given likewise, and nothing is sent again |
| Delivery.ToldExactly | nextendo-nex/endpoint.go:592-737 | over any run the wire tells throughout what was said if and only if every step is fair |
| Delivery.SayAllTold | nextendo-nex/endpoint.go:572-600 | the messages a handler sends keep the wire true if and only if each of them may be given, and nothing they do mends a wire that is not |
| Delivery.ResendTold | nextendo-nex/endpoint.go:714-737 | no packet sent again keeps the wire true: it is one payload too many, or one too long |
| Delivery.TurnsSplit | nextendo-nex/endpoint.go:616-663 | a lone goroutine run to its end puts exactly the split of its payload on the wire |
| Delivery.LoneMessage | nextendo-nex/endpoint.go:616-663 | a message sent alone arrives as its first 256 fragments' worth, and whole if and only if it is no longer |
| Delivery.LoneFragments | nextendo-nex/endpoint.go:616-663 | the fragments of a message sent alone, one by one: each but the last as long as the settings say, 1300 bytes where they say nothing, numbered from 1 on; the last has what is left, under id 0 |
| SaidOrder.OrderStep | nextendo-nex/endpoint.go:592-663 | of the fair steps exactly the orderly ones keep payloads in the order given: a short message is given while no goroutine holds one, and no payload ends before a different one given earlier |
| SaidOrder.OrderExactly | nextendo-nex/endpoint.go:592-663 | over any fair run the order is kept throughout if and only if every step is orderly |
| SaidOrder.EndToEndInOrder | nextendo-nex/endpoint.go:592-663 | over any fair and orderly run a receiver is delivered the encodings of the messages given, in that order, all but those still with a goroutine, and with none left they parse back to exactly these messages |
| Transport.ControlStep | nextendo-nex/endpoint.go:355-460 | whatever a control packet is answered with, it adds no fragment, and what is sent can be decoded |
| Delivery.MixedFragments | nextendo-nex/endpoint.go:636-661 | an unfair step: a message of one fragment sent while a longer one is half sent arrives glued behind the beginning of that one |
| Delivery.SentAgain | nextendo-nex/endpoint.go:714-737 | an unfair step: a receiver absorbs a retransmitted fragment again; a message of one fragment is delivered twice |
| Transport.AllHeard | nextendo-nex/prudp_lite.go:115-182 | every decoded packet has its fields within the ranges the answers to it need |
| Endpoint.FragmentsOnly | nextendo-nex/endpoint.go:530-561 | whatever else is on the wire, a receiver reassembles exactly the fragments on it, in order |
| Endpoint.FeedAnyChunks | nextendo-nex/endpoint.go:340-353 | feeding bytes in any chunks equals decoding them at once and handling the packets in order |
| Acknowledgements.AcknowledgedExactly | nextendo-nex/endpoint.go:530-570 | a DATA, PING or DISCONNECT packet that is no acknowledgement is answered, before anything else is sent and if and only if it asks for it, with an acknowledgement of its kind under its packet and fragment id, sent to the learnt ports; besides that only fragments are sent |
| Acknowledgements.DispatchedExactly | nextendo-nex/endpoint.go:551-588 | a complete payload that parses to a request is answered by what the handler of its protocol or the fallback sends, or by a not-implemented error where there is neither; any other payload by nothing |
| Acknowledgements.BrokenDropped | nextendo-nex/endpoint.go:340-353 | bytes that are no packet drop all that was read with them: packets before them are not handled, nothing is left in the buffer |
| Acknowledgements.AckUnanswered | nextendo-nex/endpoint.go:355-391 | acknowledgements are not answered |
| Acknowledgements.SynAnswered | nextendo-nex/endpoint.go:393-419 | a SYN is answered to where it came from, with the signature drawn, the smaller minor version and exactly the function bits both sides have |
| Acknowledgements.ConnectAnsweredExactly | nextendo-nex/endpoint.go:421-454 | a CONNECT is answered if and only if it is accepted; the ids it brings are taken over, those it does not bring kept |
| Acknowledgements.DisconnectCloses | nextendo-nex/endpoint.go:373-383 | a DISCONNECT that is no acknowledgement closes the connection, no other packet does, and only an accepted CONNECT opens a closed one again |
| Acknowledgements.FragmentSent | nextendo-nex/endpoint.go:667-693 | a fragment goes out reliable and to be acknowledged, to the learnt ports, under the next packet id, and is kept under it; ids wrap at 65536 |
| Acknowledgements.FirstPacket | nextendo-nex/endpoint.go:325-336 | a new connection's first packet is reliable, goes out under id 1 and is kept under it; before any SYN its ports are 0 |
| Acknowledgements.AlwaysNumbered | nextendo-nex/endpoint.go:667-693 | over any run every packet kept for retransmission is a fragment under its own id that asks to be acknowledged |
| Acknowledgements.TickCopies | nextendo-nex/endpoint.go:714-731 | a tick of an open connection copies every pending packet once, on a closed one it ends the goroutine |
| Acknowledgements.AckSettles | nextendo-nex/endpoint.go:551-556 | an acknowledgement takes its id and every smaller one out of the pool and does nothing else |
| Acknowledgements.MultiAckSettles | nextendo-nex/endpoint.go:530-550 | an aggregate acknowledgement takes every id up to its base and each id it lists out of the pool and does nothing else |
| Acknowledgements.AckComesBack | nextendo-nex/endpoint.go:530-561 | the frame of a pending packet, fed to any receiver, is answered first with a frame that, fed to the sender, takes that packet and those with smaller ids out of its pool and does nothing else |
| Acknowledgements.AllComesBack | nextendo-nex/endpoint.go:530-561 | all a receiver sends in answer, cut in any chunks and fed back, leaves the packet out of the sender's pool unless the sender is moved to say more |
| Connections.Connection.Feed | nextendo-nex/endpoint.go:340-353 | appends to the receive buffer, handles every complete packet, answers of handlers included, keeps the tail, drops all on an error |
| Connections.Connection.HandlePacket | nextendo-nex/endpoint.go:355-391 | each packet type, handshake and custom ones included, has its specified effect |
| Connections.Connection.ProcessSyn | nextendo-nex/endpoint.go:393-419 | ports, signature and capabilities are learnt and acknowledged |
| Connections.Connection.ProcessConnect | nextendo-nex/endpoint.go:421-454 | an accepted CONNECT names the client, is acknowledged, opens the connection, lists it under a new id and starts a retransmission goroutine; any other is ignored |
| Connections.Connection.ProcessData | nextendo-nex/endpoint.go:530-561 | acknowledgements reach the pool, fragments the reassembly buffer, complete payloads the dispatcher |
| Connections.Connection.ReadExtra | nextendo-nex/endpoint.go:536-541 | the loop over a MULTI-ACK payload reads exactly the ids it still holds |
| Connections.Connection.DispatchRmc | nextendo-nex/endpoint.go:572-588 | a request goes to the handler of its protocol, whose messages are sent in order, or is refused; everything else is dropped |
| Connections.Connection.SendData | nextendo-nex/endpoint.go:616-635 | a payload of one fragment is sent at once, a longer one given to a goroutine |
| Connections.Connection.TakeTurn | nextendo-nex/endpoint.go:636-661 | one turn of that goroutine: stop on a closed connection, else send the next fragment, with the wrapping 8-bit fragment id ending the send |
| Connections.Connection.SendOneFragment | nextendo-nex/endpoint.go:667-693 | takes the next id, sends the encoded packet and keeps it under that id |
| Connections.Connection.SendRmc | nextendo-nex/endpoint.go:592-594 | a message is sent as the payload it encodes to |
| Connections.Connection.SendAck | nextendo-nex/endpoint.go:739-749 | the acknowledgement packet for a received packet |
| Connections.Connection.AckPackets | nextendo-nex/endpoint.go:697-708 | removes from the pool exactly the packets an acknowledgement covers |
| Connections.Connection.CopyPending | nextendo-nex/endpoint.go:727-730 | the loop over the pool copies every pending frame once, in some order |
| Connections.Connection.Retransmit | nextendo-nex/endpoint.go:714-731 | one tick ends the goroutine on a closed connection, else copies the frames pending at that moment |
| Connections.Connection.ResendOne | nextendo-nex/endpoint.go:732-736 | one copied frame is sent again, whatever has been acknowledged since it was copied |
| Connections.Connection.Close | nextendo-nex/endpoint.go:751-763 | closing marks the connection closed and takes its latest id off the list, once |
| Connections.Connection.SendAlone | nextendo-nex/endpoint.go:616-663 | a message sent while no goroutine is at work, its own running to its end, goes out as exactly its split, and a receiver between payloads is given all of it if and only if it is no longer than 256 fragments |
| Connections.Connection.Carries | nextendo-nex/endpoint.go:616-663 | at any time after fair steps only, the bytes this connection has sent deliver to any receiver exactly the payloads whose sending has ended |
| RetransmitPool.PoolExact | nextendo-nex/endpoint.go:667-708 | over any interleaving of sends and acknowledgements an id is pending if and only if it was recorded and no later acknowledgement covers it |
| RetransmitPool.NoPacketLost | nextendo-nex/endpoint.go:667-708 | within 65536 sends every packet not acknowledged after it was recorded is in the pool under its own id, and nothing else is |
| RetransmitPool.PendingUntilAcked | nextendo-nex/endpoint.go:686-708 | within 65536 sends a packet is pending exactly until it is acknowledged, if and only if its acknowledgements do not all fall between the taking of its id and its recording |
| RetransmitPool.RecordedLate | nextendo-nex/endpoint.go:686-692 | the shortest history in which they do: the packet is recorded after its acknowledgement and stays pending |
| RetransmitPool.RunHistory | nextendo-nex/endpoint.go:340-737 | the pool of a connection after any run of it is the pool of such a history |
| RetransmitPool.IdsUsedOnce | nextendo-nex/endpoint.go:667-693 | within 65536 sends each id handed out is taken or recorded exactly once, and no other at all |
| RetransmitPool.IdReuse | nextendo-nex/endpoint.go:667-693 | two sends share an id if and only if they are a multiple of 65536 apart |
| RetransmitPool.ExtraIdsExact | nextendo-nex/endpoint.go:530-550 | the ids read from a possibly truncated MULTI-ACK payload: as many as announced or as many as fit, each at its place |
| RetransmitPool.SendIsAllocateRecord | nextendo-nex/endpoint.go:667-693 | sending a fragment is one allocation and one recording of the pool system |
| RetransmitPool.AckIsAcknowledge | nextendo-nex/endpoint.go:530-550 | handling an acknowledgement packet is one acknowledgement of the pool system |
| DedupHistory.NoSecondExecution | server/rmc_dedup.go:54-132 | in the history of any interleaving, full table and stale clock readings included, no handler for a key starts before an earlier response under it expired, nor while an earlier recorded execution is open |
| DedupHistory.LiveBlocks | server/rmc_dedup.go:69-104 | in any reachable state no step starts a handler for a key whose entry is in flight or unexpired |
| DedupHistory.BoundedMemo | server/rmc_dedup.go:84-104 | the table never outgrows its bound, and a call that did not run the handler ended with the answer of another call under the same key that did |
| DedupHistory.AlwaysTraced | server/rmc_dedup.go:54-132 | over any run the calls are the arrivals in their order, and the outcome of a call's handler is exactly what a return step of that call gave |
| DedupHistory.AnswersReturned | server/rmc_dedup.go:54-132 | in terms of the steps alone: a call that is over ended with what its own handler returned or, if that never returned, with an answer the handler of another call under the same key returned; calls that found the table full included |
| DedupHistory.KeptForTtl | server/rmc_dedup.go:69-124 | in terms of steps and clock alone: within the time to live of the step by which a call stored its answer, no lookup under its key starts a handler |
| DedupHistory.WaiterReleased | server/rmc_dedup.go:77-124 | a waiter can proceed, or the executor it waits for is still under way and, whatever its handler does, its return and deferred section leave the waiter free to proceed |
| DedupHistory.WaitBound | server/rmc_dedup.go:69-104 | a call waits at most once per other call on its key |
| DedupHistory.Reachable | server/rmc_dedup.go:54-132 | every reachable state satisfies the ownership and the log invariant |
| DedupSafety.AlwaysStillCurrent | server/rmc_dedup.go:107-124 | the guard of the deferred section always holds: nobody but its executor removes or replaces an in-flight entry |
| DedupSafety.OwnedStep | server/rmc_dedup.go:54-132 | every step keeps the ownership invariant |
| DedupSafety.LookupTable | server/rmc_dedup.go:69-104 | a lookup drops only entries expired at its clock reading and keeps all others as they are |
| DedupSafety.LookupVerdict | server/rmc_dedup.go:69-104 | a lookup runs the handler only when its key has no entry live at its clock reading; otherwise it waits for or copies that entry |
| DedupSafety.ConfigExactly | server/rmc_dedup.go:41-52 | settings at or below zero give 20 seconds and 4096 entries |
| DedupSafety.SweepsExactly | server/rmc_dedup.go:69-76 | every 256th lookup, and any on a full table, drops exactly the entries of other keys that have run out; every other lookup leaves them alone |
| DedupTable.Clone | server/rmc_dedup.go:161-168 | a copied response has a body of its own |
| DedupTable.Deduplicator.PruneLocked | server/rmc_dedup.go:126-132 | the pruning loop removes exactly the expired entries |
| DedupTable.Deduplicator.Enter | server/rmc_dedup.go:69-104 | the first critical section on the heap computes the specified lookup; a cached reply is handed out in new storage |
| DedupTable.Deduplicator.Finish | server/rmc_dedup.go:107-124 | the deferred critical section computes the specified settlement; what is cached is stored in new storage |
| ExactlyOnce.ExactlyOnce | server/rmc_dedup.go:54-124 | any number of identical create requests, the first finding room or an expired entry and none after expiry: at most one runs the handler, all that finish get the same answer, and together they advance the id counter by one if the body parses and not at all otherwise |
| ExactlyOnce.PhaseStep | nextendo-nex/matchmaking_handlers.go:627-653 | every step of deduplicator, handler and store keeps the phase of a key: idle, executing once, or answered |
| ExactlyOnce.OverflowExactly | server/rmc_dedup.go:69-104 | a lookup leaves its call unrecorded if and only if the key has no entry and the table is full of entries not expired at its reading |
| ExactlyOnce.FullTableRepeats | server/rmc_dedup.go:92-104 | exactly then the call runs the handler and leaves the table as it was; otherwise the key has an entry afterwards |
| ExactlyOnce.CreatedTwice | server/rmc_dedup.go:92-104 | for every create request that parses and every table size there is a run, with the table filled by other requests, in which two identical requests make two gatherings |
| ExactlyOnce.NextMoves | nextendo-nex/matchmaking_handlers.go:410-421 | every store operation hands out one gathering id or none |
| Session.SessionBack | nextendo-nex/matchmaking.go:112-161 | a session within the length limits decodes to itself for any order in which its parameter map was written, consuming exactly its bytes; bytes added inside a framed level change nothing |
| Session.AutoMatchmakeBack | nextendo-nex/matchmaking.go:163-171 | the session of an AutoMatchmakeParam is read back with everything behind it left unread |
| Session.AutoMatchmakeFailsExactly | nextendo-nex/matchmaking.go:163-171 | with framed structures, reading the parameter fails if and only if the outer frame is incomplete |
| Session.VariantBack | nextendo-nex/types.go:264-300 | every tagged value within the string limit reads back to itself |
| Session.ParamsBack | nextendo-nex/stream.go:95-101 | a parameter map reads back to itself from any order of its pairs |
| Session.GatheringBack | nextendo-nex/matchmaking.go:23-50 | the base structure reads back, with extra bytes behind its fields left over |
| Session.FrameBack | nextendo-nex/types.go:31-60 | a framed structure level reads back to its body and leaves what follows |
| WireLayout.GatheringLayout | nextendo-nex/matchmaking.go:23-50 | the bytes of the base structure are its ten fields in the order of the wire, each starting where those before it end |
| WireLayout.SessionLayout | nextendo-nex/matchmaking.go:112-161 | the bytes of the session level are its fields in the order of the wire, the parameters between option and start time |
| SessionCodec.LoadVariant | nextendo-nex/types.go:283-300 | the variant reader against its value-level form |
| SessionCodec.LoadParams | nextendo-nex/stream.go:254-268 | the map-reading loop, duplicate keys and impossible counts included |
| SessionCodec.LoadGathering | nextendo-nex/matchmaking.go:23-50 | the field-by-field reader of the base structure |
| SessionCodec.LoadSession | nextendo-nex/matchmaking.go:112-161 | the session reader over both framed and unframed structures |
| SessionCodec.LoadAutoMatchmake | nextendo-nex/matchmaking.go:163-171 | the parameter reader used by the create and auto-match handlers |
| SessionCodec.SaveParams | nextendo-nex/stream.go:95-101 | the map-writing loop emits every pair once, in some order |
| SessionCodec.SaveGathering | nextendo-nex/matchmaking.go:23-50 | the writer of the base structure |
| SessionCodec.SaveSession | nextendo-nex/matchmaking.go:112-161 | the session writer produces the bytes of some listing of the parameters |
| MatchInvariants.FallbackUnreachable | nextendo-nex/matchmaking_handlers.go:575-609 | from a well-formed store a selected gathering always accepts the reservation: the u16 test is exact and a second expiry only frees seats, whatever the clock does |
| MatchRuns.FallbackNeverTaken | nextendo-nex/matchmaking_handlers.go:575-609 | after any run of operations the capacity-changed branch of auto-matchmaking is not taken |
| MatchRuns.AlwaysOk | nextendo-nex/matchmaking_reservations.go:44-91 | in every reachable state each gathering has members, each once, none of them holding a reservation, its member count is exact, its capacity positive, and its key is its session id |
| MatchRuns.StepOk | nextendo-nex/matchmaking_handlers.go:410-421 | every one of the fifteen operations keeps that, and raises no occupancy above both its old value and the capacity |
| MatchRuns.NeverOverbooked | nextendo-nex/matchmaking_reservations.go:57-91 | over any run, members plus reservations stay within every maximum throughout if and only if no session-part update sets a maximum below the occupancy it finds |
| MatchRuns.CappedStep | nextendo-nex/matchmaking_reservations.go:57-91 | of all operations exactly those updates take a store out of its capacities |
| MatchRuns.PartOverbooksExactly | nextendo-nex/matchmaking_acnh.go:297-332 | a session-part update overbooks a gathering if and only if it sets a maximum below its occupancy |
| MatchRuns.OverfullNeverGrows | nextendo-nex/matchmaking_reservations.go:57-91 | however a run continues after a lowering, occupancy never passes both what it was and the capacity |
| MatchRuns.IdsAlwaysBelowNext | nextendo-nex/matchmaking_handlers.go:410-421 | before the id counter wraps, every live id is below it, so no creation replaces a live gathering |
| MatchInvariants.GrowthEndsExactly | nextendo-nex/matchmaking_handlers.go:1099-1102 | the growth of an attribute list ends if and only if the index is not the last 32-bit one |
| MatchRuns.StallReached | nextendo-nex/matchmaking_handlers.go:1092-1105 | one operation after start-up the host of a gathering can name that index, and the loop has no end |
| MatchRuns.AlwaysMutual | nextendo-nex/matchmaking_handlers.go:496-549 | with fixed NAT classes and members entering only by auto-matchmaking, every gathering stays pairwise NAT-compatible over any run |
| MatchRuns.IncompatibleExactly | nextendo-nex/matchmaking_handlers.go:512-523 | the pairs kept apart are exactly strict with strict and strict with moderate |
| MatchRuns.CompatibleSymmetric | nextendo-nex/matchmaking_handlers.go:512-523 | NAT compatibility does not depend on the order of the pair |
| MatchRuns.JoinSeatsExactly | nextendo-nex/matchmaking_handlers.go:655-702 | a join that is not refused leaves the caller a member if and only if it was one or the commit came before the reservation ran out; nobody else's membership changes |
| MatchInvariants.MigrateFacts | nextendo-nex/matchmaking_handlers.go:1119-1154 | migration permutes the members and puts the first candidate who is one in front |
| MatchInvariants.FirstMemberExact | nextendo-nex/matchmaking_handlers.go:1129-1145 | the candidate chosen is the first listed who is a member |
| MatchInvariants.SeatFacts | nextendo-nex/matchmaking_reservations.go:57-91 | taking a seat keeps the gathering well-formed and its occupancy within bounds, and adds nobody but the caller, at the end |
| MatchInvariants.SelectFacts | nextendo-nex/matchmaking_handlers.go:575-591 | selection only drops expired reservations, and what it selects has room and members the caller can reach |
| MatchInvariants.SelectFirst | nextendo-nex/matchmaking_handlers.go:575-591 | the gathering selected is the first in the iteration order that is open, unlocked, of the requested mode, has room and is reachable; none is selected only if none is |
| MatchLaws.ReserveExactly | nextendo-nex/matchmaking_reservations.go:57-76 | a seat is had by members, by holders of an unexpired reservation, and by a stranger if and only if members and unexpired reservations leave one; a request clears exactly the reservations that have run out |
| MatchLaws.CommitExactly | nextendo-nex/matchmaking_reservations.go:78-91 | a commit uses the reservation up and makes the player a member exactly when it was none and is in time |
| MatchLaws.SeatExactly | nextendo-nex/matchmaking_reservations.go:57-91 | reservation and commit together, with everyone else's unexpired reservation standing |
| MatchLaws.CompatibleMeet | nextendo-nex/matchmaking_handlers.go:496-523 | two players are kept apart exactly when one reports an endpoint-dependent mapping and the other that or an endpoint-dependent filter |
| MatchLaws.AutoExactly | nextendo-nex/matchmaking_handlers.go:551-616 | in terms of session fields: an auto-match opens a gathering under the next id exactly when the caller is to be alone or no gathering has the game mode asked for, is open, has no password, a seat left by members and unexpired reservations, and nobody the caller may not meet; otherwise it enters the first such; nothing else changes but that reservations run out are dropped |
| MatchLaws.EntersOnlyEnterable | nextendo-nex/matchmaking_handlers.go:575-591 | a caller found in a gathering that was there without it asked for its mode, found it open, without password and with a seat, and may meet everyone in it |
| MatchLaws.CreatedExactly | nextendo-nex/matchmaking_handlers.go:375-421 | a new gathering field by field: what the server sets and what it keeps of the request |
| MatchLaws.DisconnectExactly | nextendo-nex/matchmaking_handlers.go:1179-1212 | a disconnect removes exactly the gatherings the player owned as a member or was alone in; every other loses the player and its reservation and nothing else |
| MatchLaws.DisconnectCodes | nextendo-nex/matchmaking_handlers.go:1179-1212 | a disconnect drops exactly the codes of the gatherings it removes |
| MatchLaws.CodesExactly | nextendo-nex/matchmaking_acnh.go:297-332 | a code written by a partial update of a known gathering, or assigned, leads there; every other code leads where it did |
| MatchLaws.CodesKept | nextendo-nex/matchmaking_handlers.go:410-421 | no other operation but a disconnect changes where codes lead |
| MatchLaws.EndExactly | nextendo-nex/matchmaking_handlers.go:1214-1227 | ending a participation removes exactly a gathering left without members; nobody else leaves |
| MatchLaws.UnregisterExactly | nextendo-nex/matchmaking_handlers.go:952-974 | exactly the owner's request removes a gathering, and nothing else |
| MatchLaws.PartExactly | nextendo-nex/matchmaking_acnh.go:304-331 | which fields a partial update writes, by flag or value, and that it touches neither members nor reservations |
| MatchLaws.AttributeExactly | nextendo-nex/matchmaking_handlers.go:1099-1104 | setting an attribute writes that one, fills missing ones before it with zeros and leaves the others, for lists of fewer than 2^32 attributes |
| MatchLaws.HostWrites | nextendo-nex/matchmaking_handlers.go:1053-1111 | attributes and buffer are written for the first member and for nobody else |
| MatchLaws.TtlExactly | nextendo-nex/matchmaking_reservations.go:13-20 | seats are held for the time set, 8 seconds where that is at or below zero |
| SeatHolds.Granted | nextendo-nex/matchmaking_reservations.go:24-76 | over the store: a seat is granted if and only if one is held or left, and is then held for the time to live |
| SeatHolds.HoldStep | nextendo-nex/matchmaking_reservations.go:44-91 | before its time, a reservation survives exactly the operations other than the player's own joining, cancelling, leaving or disconnecting and those that remove or replace the gathering |
| SeatHolds.HeldExactly | nextendo-nex/matchmaking_reservations.go:44-91 | however a run continues while the clock is short of its time, a reservation stands throughout if and only if no such operation happens |
| SeatHolds.StrangerRefused | nextendo-nex/matchmaking_reservations.go:57-76 | while members and held seats fill the maximum, a stranger is refused |
| Matchmaking.ContainsPid | nextendo-nex/matchmaking_handlers.go:1247-1254 | the membership loop |
| Matchmaking.RemovePid | nextendo-nex/matchmaking_handlers.go:1256-1264 | the filtering loop keeps everyone else in order |
| Matchmaking.ReachesAll | nextendo-nex/matchmaking_handlers.go:539-549 | the loop over the members decides whether the caller is compatible with all of them |
| Matchmaking.FinalizeCreated | nextendo-nex/matchmaking_handlers.go:375-407 | every server-owned field of a new session, with the attribute list filled up to six |
| Matchmaking.LiveGathering.ExpireReservations | nextendo-nex/matchmaking_reservations.go:44-50 | the deletion loop keeps exactly the reservations that have not run out |
| Matchmaking.LiveGathering.OccupiedSeats | nextendo-nex/matchmaking_reservations.go:52-55 | expires and counts |
| Matchmaking.LiveGathering.ReserveJoin | nextendo-nex/matchmaking_reservations.go:57-76 | the reservation of one seat, in place |
| Matchmaking.LiveGathering.CommitReservedJoin | nextendo-nex/matchmaking_reservations.go:78-91 | the commit of a reservation, in place |
| Matchmaking.LiveGathering.MigrateTo | nextendo-nex/matchmaking_handlers.go:1129-1145 | the nested search loops and the swap |
| Matchmaking.LiveGathering.ApplyPart | nextendo-nex/matchmaking_acnh.go:304-331 | which fields a partial update writes |
| Matchmaking.LiveGathering.SetAttribute | nextendo-nex/matchmaking_handlers.go:1099-1104 | grows the attribute list by the source's 32-bit length test and writes one place; stated for the indices for which that ends |
| Matchmaking.Matchmaking.SetJoinReservationTtl | nextendo-nex/matchmaking_reservations.go:13-20 | sets the reservation time, the default for values at or below zero |
| Matchmaking.Matchmaking.ReserveJoin | nextendo-nex/matchmaking_reservations.go:24-32 | reserves in a known gathering for a non-zero player, telling whether a seat was had; no other gathering changes |
| Matchmaking.Matchmaking.CancelJoinReservation | nextendo-nex/matchmaking_reservations.go:36-42 | drops the reservation only |
| Matchmaking.Matchmaking.CreateSession | nextendo-nex/matchmaking_handlers.go:637-644 | the mutex section of a create request: the new session and its one member |
| Matchmaking.Matchmaking.Kept | nextendo-nex/matchmaking_handlers.go:150-156 | at any time the objects satisfy what every run keeps: well-formed gatherings, capacities, ids below the counter, NAT compatibility |
| Matchmaking.Matchmaking.CreateGathering | nextendo-nex/matchmaking_handlers.go:410-421 | a new object under the next id, aliasing no other |
| Matchmaking.Matchmaking.SelectGathering | nextendo-nex/matchmaking_handlers.go:575-591 | the candidate loop, in any iteration order, computes the specified selection |
| Matchmaking.Matchmaking.AutoMatchmake | nextendo-nex/matchmaking_handlers.go:551-616 | the whole mutex section of auto-matchmaking against its specification; the answer is the caller's gathering as stored, and the capacity-changed branch was not taken |
| Matchmaking.Matchmaking.JoinSession | nextendo-nex/matchmaking_handlers.go:655-702 | the whole mutex section of a join: unknown, full or joined exactly when specified, with the announced member count |
| Matchmaking.Matchmaking.Unregister | nextendo-nex/matchmaking_handlers.go:952-974 | only the owner removes a gathering |
| Matchmaking.Matchmaking.EndParticipation | nextendo-nex/matchmaking_handlers.go:1214-1227 | leaving, and removal of an emptied gathering |
| Matchmaking.Matchmaking.RemovePlayer | nextendo-nex/matchmaking_handlers.go:1179-1212 | the loop over all gatherings: everyone else keeps their place, gatherings left empty or without their owner go, with their codes |
| Matchmaking.Matchmaking.MigrateOwnership | nextendo-nex/matchmaking_handlers.go:1119-1154 | migration of one gathering |
| Matchmaking.Matchmaking.ApplySessionPart | nextendo-nex/matchmaking_acnh.go:297-332 | partial update with the code index; tells whether the gathering is known |
| Matchmaking.Matchmaking.SetParticipation | nextendo-nex/matchmaking_handlers.go:982-1004 | opens or closes a known gathering |
| Matchmaking.Matchmaking.UpdateApplicationBuffer | nextendo-nex/matchmaking_handlers.go:1053-1085 | stored for the first member only, refused or unknown otherwise |
| Matchmaking.Matchmaking.ModifyCurrentGameAttribute | nextendo-nex/matchmaking_handlers.go:1092-1111 | written by the first member only; tells exactly when the growth does not end, the store then staying held |
| Matchmaking.Matchmaking.AssignCode | nextendo-nex/matchmaking_handlers.go:1230-1245 | the code index and the gathering's own code |
| Tournament.Stamping | nextendo-nex/tournament.go:247-271 | stamping a payload whose walk ends behind the terminator at an empty code keeps the place of the code, writes id, mark and code and preserves every other byte |
| Tournament.CodeReadsBack | nextendo-nex/tournament.go:220-233 | the stamped payload carries the code it was stamped with and no other |
| Tournament.ScannedNeverMatches | nextendo-nex/tournament.go:195-202 | a payload whose code was found by the fallback scan carries no code after stamping |
| Tournament.CodeOffset | nextendo-nex/tournament.go:159-206 | the property walk and the fallback scan return the specified offset |
| Tournament.ValidCode | nextendo-nex/tournament.go:208-218 | twelve digits, nothing else |
| TournamentStore.AcceptedExactly | nextendo-nex/tournament.go:275-304 | a payload is accepted if and only if it is stampable, within 4096 bytes, there is room and the next id is not zero |
| TournamentLayout.BuiltLocated | nextendo-nex/tournament.go:159-206 | for any header, even name, list of known properties, terminator and rest, the code field is found right behind the terminator |
| TournamentLayout.LocatedBuilt | nextendo-nex/tournament.go:159-206 | a code field behind a terminator is found in no other payload |
| TournamentLayout.StoredExactly | nextendo-nex/tournament.go:275-304 | what is stored on acceptance: the owner registered, the payload under the new id and mark, nothing else changed; ids start at 1000 |
| TournamentLayout.JoinExactly | nextendo-nex/tournament.go:331-348 | a registration succeeds exactly for a stored tournament and adds the player once |
| TournamentLayout.UnknownScanned | nextendo-nex/tournament.go:195-202 | at a property of unknown kind, behind any known ones, the code field is the first empty code from there on, or nowhere |
| TournamentLayout.BuiltAccepted | nextendo-nex/tournament.go:275-304 | a payload so built is accepted if and only if its code field is empty, it is within 4096 bytes, the store has room and the next id is not zero |
| TournamentLayout.AcceptedBuilt | nextendo-nex/tournament.go:275-304 | exactly the payloads of this layout with an empty code field are accepted, within those limits and under a code of twelve digits |
| TournamentStore.AlwaysOk | nextendo-nex/tournament.go:275-349 | over any run every stored tournament is valid under its own id, its registrations are distinct with the owner first, and there are at most 2000 |
| TournamentStore.OwnedUntilDeleted | nextendo-nex/tournament.go:422-433 | however a run continues before the id counter wraps, without a deletion by its owner a tournament is there, unchanged but for new registrations |
| TournamentStore.KeptOrDeleted | nextendo-nex/tournament.go:422-433 | one operation removes a tournament if and only if it is its owner's deletion |
| TournamentStore.IdsAlwaysBelow | nextendo-nex/tournament.go:275-304 | in every run from an empty store, until the counter wraps, every id is below it, so no creation replaces a stored tournament |
| TournamentStore.Tournaments.CreateTournament | nextendo-nex/tournament.go:275-304 | creation on the store object, the id taken before validation |
| TournamentStore.Tournaments.JoinTournament | nextendo-nex/tournament.go:331-348 | registration, once per player |
| TournamentStore.Tournaments.DeleteTournament | nextendo-nex/tournament.go:422-433 | deletion by the owner only |
| TournamentStore.Tournaments.All | nextendo-nex/tournament.go:317-328 | the validity filter drops nothing: every stored tournament is listed once |
| Leaderboard.BoardHistory | nextendo-nex/ranking_board.go:94-119 | after any history a player is on a board exactly when a submission of theirs names it, with the best score, the time it was first reached and the latest profile |
| Leaderboard.ScoreRead | nextendo-nex/ranking_board.go:71-92 | a body put together as the console does says its tournament, category, score and profile, or nothing if it names no tournament |
| Leaderboard.ReadScore | nextendo-nex/ranking_board.go:71-92 | no other body says anything |
| Leaderboard.TopOfSorted | nextendo-nex/ranking_board.go:123-143 | the first min(n, 100) of any ordering of the rows is the top of the board: whoever is left out comes before nobody listed |
| Leaderboard.OrderedExactly | nextendo-nex/ranking_board.go:133-138 | the order shown is by falling score, and by time where scores are equal |
| Leaderboard.BoardTable.RecordScore | nextendo-nex/ranking_board.go:94-119 | one submission on the board object; malformed ones change nothing |
| Leaderboard.BoardTable.BoardFor | nextendo-nex/ranking_board.go:123-143 | the board shown: each player once, ordered by score then time, cut at 100, every row summing up the history |
| Leaderboard.SortRows | nextendo-nex/ranking_board.go:132-137 | an ordering of exactly the given rows |
| Leaderboard.WriteBoard | nextendo-nex/ranking_board.go:146-203 | the writing loop produces the specified page |
| Leaderboard.BoardLayout | nextendo-nex/ranking_board.go:146-203 | a page of k rows is 41 + 164 k bytes, row i lying at its place with rank i + 1 |
| Leaderboard.FixedExactly | nextendo-nex/ranking_board.go:184-190 | a profile of another length is cut or filled with zeros to 132 bytes |
| Leaderboard.PageFrame | nextendo-nex/ranking_board.go:146-203 | what stands around the rows: one page of version 0 with its length, category and count in front; the count again, a 4 and sixteen zeros behind |
| Leaderboard.NothingToPick | nextendo-nex/ranking_board.go:219-253 | a tournament without boards shows category 0 |
| Leaderboard.RowBack | nextendo-nex/ranking_board.go:173-188 | a row reads back to its rank, player, score, date and profile |
| Leaderboard.LabelExact | nextendo-nex/ranking_board.go:219-253 | a page of rows read from boards grown since its category was picked: the label, picked from boards grown further, is bound to be that category if and only if the tournament has no other by then |
| Leaderboard.LabelOverHistory | nextendo-nex/ranking_board.go:219-253 | the same over histories: submissions up to the first pick, up to the reading of the rows, and up to the label |
| Leaderboard.LabelSlips | nextendo-nex/ranking_board.go:219-253 | one category at the choice of the rows does not suffice: a submission in another one in between lets the label show that |
| StationUrl.RoundTripExactly | nextendo-nex/types.go:136-217 | parsing the printed form gives the URL back if and only if its scheme has no separator and is not empty (unless there are no parameters), keys have no '=' or ';' and values no ';' |
| StationUrl.EditsKeepWf | nextendo-nex/types.go:159-195 | setting and removing keep the key order a duplicate-free listing of the parameters and touch no other parameter |
| StationUrl.ParseWf | nextendo-nex/types.go:136-156 | whatever is parsed has a duplicate-free key order listing its parameters |
| StationUrl.ParsedClean | nextendo-nex/types.go:136-156 | no parsed URL carries a delimiter where printing would put one |
| Stations.AtoiItoa | nextendo-nex/types.go:170-176 | integer parameters read back and contain no delimiter |
| Stations.ParseUrl | nextendo-nex/types.go:136-156 | the field loop against the value-level parser |
| Stations.StationURL.SetParam | nextendo-nex/types.go:159-167 | first-seen key order is kept |
| Stations.StationURL.RemoveParam | nextendo-nex/types.go:184-195 | the parameter goes from the map and from the key order |
| Stations.StationURL.Copy | nextendo-nex/types.go:198-204 | a copy is a new object with the same contents |
| Stations.StationURL.Text | nextendo-nex/types.go:207-217 | the printing loop |
| NatBridge.LocalExactly | nextendo-nex/secureconnection.go:191-222 | the local station is the first with a private address, without one the first whose type lacks the public flag, without that the first |
| NatBridge.BridgeExactly | nextendo-nex/natbridge.go:156-237 | the bridge runs if and only if the local and the public candidate have different addresses, with an observed port and a connection id, and otherwise hands over the stations as they are; the LAN address given out is private if and only if the host reported a private address at all |
| NatBridge.BridgedWithoutPrivate | nextendo-nex/natbridge.go:153-168 | a host with two public addresses and no private one is bridged, against the comment: the station not marked public passes for the local one |
| NatBridge.LanOnTheWire | nextendo-nex/natbridge.go:198-206 | read off the wire, the LAN candidate is the host's local station with the observed port, without type and Pa |
| NatBridge.PublicOnTheWire | nextendo-nex/natbridge.go:208-222 | read off the wire, the public candidate has the observed port, type 11 and the requested Pa, all else as the host reported it |
| NatBridge.BridgeOnTheWire | nextendo-nex/natbridge.go:156-237 | for stations that came off the wire with a scheme, what a joiner reads of both candidates of a bridged host |
| NatBridge.BridgeReadsBackExactly | nextendo-nex/natbridge.go:156-237 | for stations that came off the wire, both candidates of a bridged host read back as sent if and only if both stations have a scheme |
| NatBridge.BridgeStations | nextendo-nex/natbridge.go:156-237 | the bridge on URL objects: the candidates are new objects and the host's URLs keep their contents |
| NatBridge.SelectStations | nextendo-nex/secureconnection.go:198-224 | the selection loops find the first private and the first public station, with both fallbacks for the local one |
| NatBridge.PidKept | nextendo-nex/secureconnection.go:160-170 | the player id of a replaced station is kept as the signed number of the same 64 bits and reads back so |
| NatBridge.DedupeExact | nextendo-nex/secureconnection.go:160-193 | one station per address, in the order in which addresses were first seen, each the last one given |
| NatBridge.NewStationWins | nextendo-nex/secureconnection.go:160-193 | the new station is the one kept for its address |
| NatBridge.ReplaceUrl | nextendo-nex/secureconnection.go:160-193 | the map-and-order loops rebuild exactly that list from the URL objects |

## Left out

- Connections.Connection.ProcessConnect: the signature check and the login behind it are one input, which yields the client's ids and the response; the session key and the callback for new connections are not modelled, and of the endpoint's table only how many ids the connection has in it.
- Connections.Connection.SendOneFragment: sending a packet and recording it are one step here; the gap between the two is modelled in `RetransmitPool`.
- Connections.Connection.ResendOne: the copies of several retransmission goroutines are in one pool, from which any may be sent next.
- Connections.Connection.Close: the callback for closed connections is not modelled.
- Connections.Connection.DispatchRmc: what a handler sends on its own connection is an input; what it sends on other connections is a push there.
- Connections.Connection.TakeTurn: the pause between two turns is not modelled, nor the retransmission's interval.
- DedupTable.Deduplicator.Enter: entries are values inside a map rather than shared entry objects; the ready channel is an entry's membership in a set of closed entries of the step system.
- Matchmaking.Matchmaking.AutoMatchmake: parsing, the notifications pushed afterwards and the log line are not modelled; the parse is modelled in `ExactlyOnce` and `SessionCodec`.
- Matchmaking.Matchmaking.JoinSession: reading the gathering id from the request and the notifications are not modelled.
- Matchmaking.Matchmaking.AssignCode: the pseudo-random code is an input.
- ExactlyOnce.ExactlyOnce: a create handler is taken to return the answer it computed; the friend-session callback it may invoke is not modelled.
- TournamentStore.Tournaments.CreateTournament: entries are values inside the map, so sharing of an entry between the store and a reader is not captured; the creation time is dropped.
- Leaderboard.SortRows: the library sort is replaced by an insertion sort; only its being some ordering of the rows is used.
- Leaderboard.BoardTable.BoardFor: rows are values inside the map, so a later profile change does not show in a board handed out before.
- Stations.ParseUrl: finding the separator and splitting at delimiters are library calls in the source and functions here.
- Stations.AtoiItoa: strings are sequences of characters rather than UTF-8 bytes; all delimiters and digits are ASCII.
- Cryptography: Kerberos tickets, RC4, HMAC and packet signatures.
- Login, account gates, tokens, and the recall of a player by address.
- Listeners, TLS, the PROXY protocol, timers and the connection reaper.
- Dashboards, logging, environment configuration.
- Saving to and loading from files: rankings, boards, tournaments, the NAT observation file.
- The request framing of the tournament and leaderboard handlers, and the summary list served by Ranking.
- Read-only lookups (find by id, by list, by participant, browse, playing session) and acknowledgement-only handlers: they would only add easy members.
- The notification events themselves, friend notification data, unique ids and the utility protocol.
- Register (0x0B/0x1) and the polling that waits for a host's ReplaceURL before answering GetSessionURLs.
