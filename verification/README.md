# go-tunnel: a verified model of its stateful core

go-tunnel is a QUIC tunnel library. This Dafny project models the parts of it
that keep state, do arithmetic or speak a byte format, and proves what they
guarantee over every input, every run or every interleaving.

| file | models |
|---|---|
| `Prelude.dfy`, `Bytes.dfy`, `Decimal.dfy`, `Sums.dfy`, `Doubling.dfy`, `Ledgers.dfy` | options and int64 arithmetic; byte strings and big-endian fields; decimal printing and parsing; sums over threads; capped doubling; who holds which pooled item |
| `TextCodec.dfy`, `BinaryCodec.dfy` | the multiplexer's two frame formats, encoders that fill recycled buffers, decoders |
| `Mux.dfy`, `MuxAccounting.dfy` | forwarders, the shared connection and the peer's connection manager as one protocol; the connection counter under every interleaving |
| `SessionHeader.dfy`, `ControlMessages.dfy` | the data-stream header with its two parsers and the legacy format; the control messages |
| `Registry.dfy` | tunnel registry, domain index and port allocator under concurrent registration and close |
| `Breaker.dfy`, `BreakerOps.dfy`, `HalfOpenRace.dfy`, `Limiter.dfy`, `RateLimiter.dfy`, `ConnMgr.dfy` | circuit breaker, runs of its operations in any order, its half-open admissions under concurrency, compare-and-swap limiters and composite acquisition, token bucket, semaphore-guarded connection manager |
| `ConnPool.dfy` | the idle-connection pool with in-place compaction |
| `Replay.dfy`, `Delays.dfy`, `Reconnect.dfy`, `Backpressure.dfy` | the replay window against the full history; retry delays; retry and reconnect loops; adaptive backpressure |

Code that runs in goroutines is a transition system whose steps are the single
`sync.Map`, atomic, channel and critical-section operations; invariants hold at
every point of every interleaving. Sequential objects are classes whose methods
are proved against specification functions, and the lemmas about whole runs are
about those functions. Time, dial outcomes, random draws, read chunking and the
runtime's choice of a pooled buffer are parameters.

## What the proofs found

Several properties one would expect hold only under a condition. Each is stated
as an exact equivalence, or with a concrete counterexample beside it.

- A binary frame larger than 65536 bytes can be corrupt or crash the encoder: `Encode` compares with the capacity of the recycled buffer but writes through a slice cut to the pool size. A frame is right for every previous content if and only if it fits the slice length (`BinaryCodec.FillCorrectIff`). Encoding, releasing and encoding again shows it on the encoder itself: the second frame ends in the first one's bytes (`BinaryCodec.EncodeReleaseEncode`, `BinaryCodec.SeventyThousandBytes`).
- A text frame reads back if and only if its identifier has no colon; one with a colon can make the peer's decoder panic on a negative length, and does so exactly when its second segment is a negative number and a further colon or a payload follows (`TextCodec.TextRoundTrip`, `TextCodec.FramePanicsIff`).
- The forwarder loses the bytes that a read returns together with an error (`Mux.StreamIsEverythingIff`).
- The streaming header parser does not read the HTTP/2 stream id, so those four bytes stay in front of the payload (`SessionHeader.StreamRoundTripIff`); a legacy frame whose length is 256..1535 is taken for a current one (`SessionHeader.LegacyIff`).
- The domain index agrees with the tunnel map exactly when the registered tunnels are those whose own index store is the latest index operation on their domain (`Registry.IndexAgreesIff`). Two races break that: a close that overtakes a registration leaves its domain behind until that domain is registered and closed again (`Registry.EarlyCloseLeavesDomain`), and a domain registered again before its previous holder has left the index loses its new entry to the old holder's delete (`Registry.LateDeleteHidesSuccessor`).
- The client's parsers trust the lengths in a message. One that arrived in part makes them panic, or read stale bytes behind it when the buffer is large enough; a register ack of more than 1024 bytes that fills the client's one read always makes it panic (`ControlMessages.TruncatedAck`, `ControlMessages.TruncatedNewConn`, `ControlMessages.LongAckPanics`).
- Under the default configuration a breaker that has opened can never close again by executing calls: it needs three successes and admits two calls (`Breaker.RecoveryIff`, `Breaker.DefaultNeverRecovers`).
- Under concurrency a half-open episode admits every goroutine that had read the open state, uncounted, so any number of calls can get into one episode (`HalfOpenRace.EpisodeCount`, `HalfOpenRace.AnyNumberAdmitted`).
- A retry delay can become negative exactly when the multiplied delay or its sum with the jitter leaves int64 (`Delays.DelayBoundedIff`).
- The token bucket is in truth a fixed-window counter: every refill is worth the whole bucket, so tokens never accumulate within an interval (`RateLimiter.BucketIsWindow`).
- A memory allocation whose sum overflows an int64 is accepted with a negative counter; the limit holds throughout a run exactly when no operation that does not fit gets its swap through (`Limiter.OverflowIff`, `Limiter.LimitHoldsIff`).
- The connection pool's books stay right exactly when what is put back is lent out; a second return spoils them, and so does another pool's connection, or a foreign one given to a shut pool (`ConnPool.ConnPool.Put`).
- The token count leaves 0..rate exactly when adding a refill to it overflows an int64; a product of intervals and rate that itself wraps does not take it out of range, and the grant bounds hold either way (`RateLimiter.TokensInRangeIff`, `RateLimiter.TotalBound`).
- A paused flow's yield time becomes negative exactly when twice the minimum or twice the maximum is not an int64 (`Backpressure.NegativeYieldIff`).
- The replay window looks at expiry only on acceptance, so a pair is rejected however late it returns if nothing was accepted in between (`Replay.WindowAgreesWithPairs`, `Replay.RejectedHoweverLate`). Its comment promises only recent requests; the model follows the code.

## Model

| member | source | states |
|---|---|---|
| Decimal.WriteInt | forward/mux.go:350-370 | the digit loop and in-place reversal leave exactly the decimal digits of the number in the buffer and touch nothing else; a negative number writes nothing |
| Decimal.AtoiDigits | forward/mux.go:527-530 | parsing inverts printing for every number an int64 holds |
| Decimal.AtoiSigned | forward/mux.go:527-530 | digits behind a plus, a minus or no sign parse to their value if it is an int64 and are an error otherwise |
| Decimal.AtoiRejects | forward/mux.go:527-530 | text with any other character, or without digits, is an error |
| Decimal.DigitAt | forward/mux.go:350-370 | the i-th character written is the ASCII digit of its power of ten |
| Decimal.TenDigits | forward/mux.go:379 | the ten digits of the size estimate suffice exactly below 10^10 |
| Decimal.FormatInjective | quic/quic.go:2433 | distinct timestamps, signs included, print differently |
| Decimal.AtoiFormat | quic/quic.go:2433 | parsing inverts the format on every int64 |
| Bytes.BigEndian | forward/mux.go:199-208 | lengths and numbers go most significant byte first, when written and when read |
| TextCodec.TextRoundTrip | forward/mux.go:489-544 | for every type with an encoder, every payload and delimiter: decoding the frame returns type, id and payload if and only if the id has no colon |
| TextCodec.JoinSplit | forward/mux.go:539-541 | splitting at colons and joining again is the identity, so addresses survive |
| TextCodec.FrameLayout | forward/mux.go:373-472 | TYPE, colon, id and, as the type requires, colon, decimal length, colon, payload or colon, address, ended by the delimiter |
| TextCodec.NamesInAscii | forward/mux.go:420-472 | the six type names, letter by letter |
| TextCodec.TypeOfIff | forward/mux.go:503-520 | exactly these names are recognised |
| TextCodec.DelimiterOptional | forward/mux.go:490-493 | a frame is read the same with and without its delimiter |
| TextCodec.DecodeRejects | forward/mux.go:496-520 | a frame without a colon, or with an unknown type, is an error |
| TextCodec.DecodeCuts | forward/mux.go:525-536 | a longer payload is cut to the announced length, a shorter one taken as it is, and a length that is no int64 is an error |
| TextCodec.DecodeBare | forward/mux.go:489-544 | TYPE:ID is a message without payload |
| TextCodec.DecodeShort | forward/mux.go:489-544 | so is TYPE:ID:LENGTH |
| TextCodec.DecodeIgnores | forward/mux.go:489-544 | CLOSE and HANDSHAKE ignore what follows the id |
| TextCodec.DecodePanicsIff | forward/mux.go:489-535 | on any bytes: the decoder panics if and only if there are four parts, the type carries a length and the third part is a negative number |
| TextCodec.FramePanicsIff | forward/mux.go:373-535 | what a sender can check: a frame makes the peer panic if and only if its type carries a length, the second colon-separated segment of its id is a negative number, and the id has a further colon or the payload is not empty |
| TextCodec.ColonIdPanics | forward/mux.go:526-535 | an instance: DATA with id "x:-5" and payload "abc" |
| TextCodec.EncodeMessage | forward/mux.go:373-417 | whatever the recycled buffer held, the result is the frame of the grammar; it panics exactly when the frame outgrows the buffer, never for payloads under 10^10 bytes |
| TextCodec.EncodeShort | forward/mux.go:425-472 | CLOSE and NEWCONN frames are exact if they fit the pooled buffer, which is never grown, and panic otherwise |
| BinaryCodec.DecodeIff | forward/mux.go:220-255 | the decoder returns a packet if and only if the input begins with that packet's frame |
| BinaryCodec.BinaryRoundTrip | forward/mux.go:162-255 | decoding a frame followed by anything returns the packet |
| BinaryCodec.PrefixFree | forward/mux.go:162-216 | two frames followed by anything are equal byte strings only if packets and remainders are equal |
| BinaryCodec.PacketOnTheWire | forward/mux.go:196-213 | a frame byte by byte |
| BinaryCodec.FillCorrectIff | forward/mux.go:183-215 | a frame is right for every stale content of the array if and only if it fits the slice length, not just the capacity |
| BinaryCodec.FillBuffer | forward/mux.go:196-215 | the writes produce the frame up to the slice length and stale bytes after it, or crash in the header |
| BinaryCodec.BinaryProtocol.Encode | forward/mux.go:162-216 | pooled and lent arrays stay disjoint and no outstanding frame changes; the new frame is exact if it fits 65536 bytes or goes into a new array, and otherwise what filling the recycled array gives, crash included |
| BinaryCodec.BinaryProtocol.Release | forward/mux.go:258-262 | the buffer goes to the pool, an empty slice is ignored; pooled and lent stay apart and every other frame intact if and only if the buffer was not pooled already |
| BinaryCodec.BinaryProtocol.Get | internal/pool/pool.go:37-39 | the pooled buffer the runtime picks, or a new one, of at least the pool size and no longer pooled or lent |
| BinaryCodec.BinaryProtocol.Put | internal/pool/pool.go:42-50 | a large enough buffer is kept, a smaller one replaced; the pool stays sound if and only if what goes in was neither pooled nor lent |
| BinaryCodec.EncodeReleaseEncode | forward/mux.go:162-262 | for all packets with frames over 65536 bytes, the second no longer than the first: encoding one, releasing it and encoding the other gives the other's first 65536 bytes followed by the first one's, or a crash exactly when the header does not fit |
| BinaryCodec.RecycledRightIff | forward/mux.go:183-215 | such a frame is right if and only if the two agree beyond 65536 bytes |
| BinaryCodec.SeventyThousandBytes | forward/mux.go:183-215 | an instance with two payloads of 70000 bytes: the second frame is wrong |
| Mux.FrameRoundTrip | forward/mux.go:489-544 | with either codec every message a forwarder sends is read back by the peer |
| Mux.TypeBytes | forward/mux.go:53-66 | the type byte of each binary frame |
| Mux.StreamIsEverythingIff | forward/mux.go:591-606 | the framed stream is a prefix of what was read, and all of it if and only if the final error came without data |
| Mux.EndsAtEofIff | forward/mux.go:591-606 | a CLOSE frame is due if and only if the first turn that stops the forwarder is an end of file |
| Mux.ForwardMux | forward/mux.go:574-624 | for every chunking, yield and cancellation: one DATA frame per nonempty read, in order, and one CLOSE frame exactly at end of file |
| Mux.IncomingDelivers | forward/mux.go:873-905 | what a peer's frame does on arrival: data is appended to the connection it names, a close freezes what that has received, and nothing else changes |
| Mux.IncomingKeepsRemoved | forward/mux.go:873-905 | on arbitrary bytes: no frame opens a connection or changes one that was removed, and a paused manager drops every frame |
| Mux.InvStep | forward/mux.go:574-905 | every write, delivery, registration and removal keeps: each connection has received exactly the chunks of its own handled frames |
| Mux.MuxFaithful | forward/mux.go:574-905 | at every point of every interleaving each connection holds a prefix of its own stream and nothing else, and the whole stream once its CLOSE was handled |
| Mux.NothingAfterRemoval | forward/mux.go:848-905 | after removal nothing more is delivered, for the rest of the run |
| Mux.RegisterAndRemove | forward/mux.go:828-861 | a registered connection starts with nothing received, and a removed one is out with what it had |
| Mux.NothingAfterRemove | forward/mux.go:856-861 | from its removal on a connection never receives anything more |
| Mux.OpenUntilClosed | forward/mux.go:828-905 | a registered connection that nobody removes stays open until its CLOSE frame is handled |
| Mux.QuiescentMeansDelivered | forward/mux.go:574-905 | when all frames of a finished stream are sent and handled, a connection that was registered and not removed by its owner has received the whole stream and been closed by its CLOSE frame |
| Mux.StreamDelivered | forward/mux.go:574-905 | for every plan and every stream of it that ends there is a run that delivers all of it and closes the connection |
| MuxAccounting.CounterInvariant | forward/mux.go:828-861 | at every point of every interleaving: counter = map size - stored but not counted + deleted but not counted down + overwritten entries |
| MuxAccounting.QuiescentCountIff | forward/mux.go:828-861 | whenever no call is between its map operation and its counting, connections open or not: the counter is the map size if and only if no Store overwrote another |
| MuxAccounting.CountedDownOnce | forward/mux.go:848-892 | a connection stored once is counted down at most once, and at such a point exactly once if and only if it is gone from the map |
| MuxAccounting.OpenAndSettled | forward/mux.go:828-853 | such points with an open connection exist: one just added, its forwarder running |
| MuxAccounting.RemoveRemoves | forward/mux.go:856-861 | once a removal is past its map operation the connection is out of the map, unless it was stored again |
| MuxAccounting.NeverStuck | forward/mux.go:828-861 | a call that has not ended can always take its one next step, which brings it nearer its end |
| SessionHeader.Encode | quic/quic.go:156-203 | decoding the buffer followed by anything gives protocol, target, flags and connection id as they were, the address type filled in if it was not set, the stream id exactly for protocol 4 with flag 0x04, and the exact length, for all fields that fit |
| SessionHeader.HeaderOnTheWire | quic/quic.go:156-203 | a header with and one without a stream id, byte by byte |
| SessionHeader.DecodeIff | quic/quic.go:226-274 | the decoder returns a header and a length if and only if the input begins with that header's wire form of that length |
| SessionHeader.HeaderRoundTripIff | quic/quic.go:156-274 | decoding an encoded header followed by anything recovers it and its exact length if and only if both fields fit 65535 bytes |
| SessionHeader.ByteStream.ReadFull | quic/stream_handler.go:178-181 | however the stream is chunked: the next n bytes and exactly the rest, or an error |
| SessionHeader.ParseSessionHeader | quic/stream_handler.go:175-255 | the step-by-step parser reads, for every chunking, what the parsing function says and leaves exactly the remainder |
| SessionHeader.ParsersAgree | quic/quic.go:226-274 | on every input of the current format both parsers accept and reject together and return the same fields, up to the stream id only one of them reads |
| SessionHeader.StreamRoundTripIff | quic/quic.go:3254-3325 | for protocols 1..5 the streaming parser recovers the header and leaves exactly the payload if and only if no stream id follows |
| SessionHeader.LegacyIff | quic/stream_handler.go:236-252 | a legacy frame parses exactly if and only if its length's high byte is not a protocol number |
| SessionHeader.LegacyParsesIff | quic/stream_handler.go:236-252 | an input whose first byte is not 1..5 is read as a complete legacy frame followed by the rest, and as nothing else |
| ControlMessages.BuildRegister | quic/quic.go:3915-3950 | the message written at a moving offset is the register format |
| ControlMessages.ParseRegisterIff | quic/quic.go:3844-3911 | on arbitrary bytes: accepted if and only if the input begins with a well-formed register message, whose fields re-encode to that prefix |
| ControlMessages.RegisterRoundTripIff | quic/quic.go:3844-3950 | a register message reads back if and only if every field fits 65535 bytes and the protocol is 1..5 |
| ControlMessages.RegisterOnTheWire | quic/quic.go:3915-3950 | a register message byte by byte |
| ControlMessages.BuildRestore | quic/quic.go:2907-2918 | the appended message is the session-restore format |
| ControlMessages.ParseRestoreIff | quic/quic.go:1136-1173 | accepted if and only if the input begins with a well-formed restore message, whose fields it returns |
| ControlMessages.RestoreRoundTripIff | quic/quic.go:1136-1173 | a restore message reads back if and only if both fields fit 65535 bytes |
| ControlMessages.RestoreOnTheWire | quic/quic.go:2907-2918 | a restore message byte by byte |
| ControlMessages.BuildAck | quic/quic.go:3953-3982 | the message is the register-ack format |
| ControlMessages.AckOnTheWire | quic/quic.go:3953-3982 | an ack byte by byte |
| ControlMessages.AckCarriesPort | quic/quic.go:3953-3982 | the port stands behind the public URL as a 16-bit number |
| ControlMessages.AckRoundTripIff | quic/quic.go:2956-2984 | an ack of which any part arrived reads back if and only if its fields fit 65535 bytes, its last length prefix has arrived and the error text stands in the buffer, as it does if all has arrived |
| ControlMessages.ParseAckIff | quic/quic.go:2956-2984 | on any bytes: the client reads an ack if and only if one stands in the buffer and its last length prefix lies within what was received |
| ControlMessages.TruncatedAck | quic/quic.go:2956-2984 | the exact outcome for an ack that arrived in part: panic, or its fields with the missing end of the error taken from behind the message |
| ControlMessages.LongAckPanics | quic/quic.go:2937-2984 | every ack longer than the 1024 bytes of the one read, when it fills them, makes the client panic |
| ControlMessages.BuildNewConn | quic/quic.go:3985-4005 | the message is the new-connection format |
| ControlMessages.NewConnOnTheWire | quic/quic.go:3985-4005 | a new-connection message byte by byte |
| ControlMessages.NewConnRoundTripIff | quic/quic.go:3139-3150 | a new-connection message of which any part arrived reads back if and only if its fields fit 65535 bytes, its last length prefix has arrived and the address stands in the buffer |
| ControlMessages.ParseNewConnIff | quic/quic.go:3139-3150 | on any bytes: read if and only if such a message stands in the buffer and its last length prefix lies within what was received |
| ControlMessages.TruncatedNewConn | quic/quic.go:3139-3150 | the exact outcome for a message that arrived in part: panic, or an address whose end comes from behind the message |
| Registry.LowestFreeIsLeast | quic/quic.go:3784-3790 | the port found is free, in range and the least such, and none is found only if all are used |
| Registry.PortManager.Allocate | quic/quic.go:3780-3791 | the scan returns and marks exactly that port |
| Registry.PortManager.Release | quic/quic.go:3794-3798 | exactly that port is free again |
| Registry.InvStep | quic/tunnel_registry.go:40-124 | every atomic step of every registration and close, whatever domains are used, keeps the lives of tunnels, the counter and port ownership consistent |
| Registry.RegistryInvariant | quic/tunnel_registry.go:40-124 | that consistency holds after every interleaving |
| Registry.DomainsInvariant | quic/tunnel_registry.go:40-124 | as long as a domain is registered again only after its previous holder has left the index, the index entry of each domain's latest holder follows its own store and delete |
| Registry.IndexIsLastStore | quic/tunnel_registry.go:40-124 | after every run the index holds for each domain the tunnel whose store was the latest index operation on it |
| Registry.IndexAgreesIff | quic/tunnel_registry.go:40-124 | at every point of every run, however domains are reused and closes race: index and map agree if and only if the registered tunnels with a domain are exactly those whose own index store is the latest index operation on their domain |
| Registry.PortsDistinct | quic/tunnel_registry.go:40-124 | in every interleaving registered tunnels have distinct ports, all in range and marked used |
| Registry.RegisteredAsAsked | quic/quic.go:980-1003 | in every run a tunnel in the map has the domain it was registered with, a port of the range if it needs one and none otherwise |
| Registry.AllocationDecides | quic/quic.go:3780-3791 | a registration gets the least free port, is refused if and only if it needs one and all are used, and gets none if it needs none |
| Registry.RegisteredStays | quic/tunnel_registry.go:40-58 | with no call in flight, a tunnel that was registered and that nobody closed is in the map unless it was refused a port |
| Registry.CloseRemoves | quic/tunnel_registry.go:61-124 | with no call in flight, a tunnel that was in the map when its close was called is out of it |
| Registry.NeverStuck | quic/tunnel_registry.go:40-124 | a call that has not ended can always take its next step |
| Registry.StepAdvances | quic/tunnel_registry.go:40-124 | each step brings its call nearer its end and leaves the others where they are |
| Registry.ReleasedOnce | quic/tunnel_registry.go:111-118 | a port about to be released is still used and belongs to no other thread or tunnel, however many closes run |
| Registry.QuiescentCounts | quic/tunnel_registry.go:40-124 | with no call in flight the count is the number of tunnels and every used port belongs to one |
| Registry.QuiescentIndexIff | quic/tunnel_registry.go:40-124 | with no call in flight, over every run: that equivalence, and over runs that reuse a domain only after its holder has left the index the simpler one, no index delete ran before its index store |
| Registry.LateClosesKeepIndex | quic/tunnel_registry.go:161-202 | if moreover every close takes its tunnel after the registration returned, index and map agree at quiescence |
| Registry.EarlyCloseLeavesDomain | quic/tunnel_registry.go:40-80 | a concrete interleaving after which no tunnel exists but its domain is still indexed |
| Registry.LateDeleteHidesSuccessor | quic/tunnel_registry.go:40-80 | a concrete interleaving in which a domain is registered again before the old index delete, and ends registered but not indexed |
| Breaker.Normalized | internal/circuit/circuit.go:98-117 | every configuration becomes usable and a usable one is unchanged |
| Breaker.CircuitBreaker.Allow | internal/circuit/circuit.go:126-158 | state and verdict follow the specification of admission |
| Breaker.CircuitBreaker.RecordSuccess | internal/circuit/circuit.go:178-196 | new state as specified, counters reset on a transition |
| Breaker.CircuitBreaker.RecordFailure | internal/circuit/circuit.go:199-224 | new state as specified, the failure stamped |
| Breaker.CircuitBreaker.Execute | internal/circuit/circuit.go:161-175 | admission, then the outcome recorded, only if admitted |
| Breaker.CircuitBreaker.Reset | internal/circuit/circuit.go:265-270 | closed, with counters cleared if it was not closed before: a breaker that is already closed keeps its failure count, since the transition returns early |
| Breaker.History | internal/circuit/circuit.go:126-244 | over every sequential run the counters are determined by the outcomes since the present state was entered |
| Breaker.OpensAtThreshold | internal/circuit/circuit.go:199-213 | the failure counter is the current streak of failures and the breaker opens exactly at the threshold-th |
| Breaker.OpenRejectsIff | internal/circuit/circuit.go:133-146 | an open breaker rejects a call if and only if the timeout since the last recorded failure of the history has not passed |
| Breaker.EpisodeBound | internal/circuit/circuit.go:148-153 | one half-open episode of a sequential run has had at most MaxRequests + 1 calls, all successes, and admits a further one, which may end it, if and only if it has had at most MaxRequests |
| Breaker.RunTripped | internal/circuit/circuit.go:126-244 | every run that leaves the breaker open or half-open ends in one of the states the recovery theorem is about |
| Breaker.RecoveryIff | internal/circuit/circuit.go:148-196 | from any moment on, a tripped breaker can be closed by some run of calls on a clock going forward from there if and only if SuccessThreshold <= MaxRequests + 1 |
| Breaker.StuckForEver | internal/circuit/circuit.go:148-153 | once the half-open quota is used up every later call of every run is rejected |
| Breaker.ExhaustedEpisode | internal/circuit/circuit.go:148-196 | after MaxRequests + 1 admitted successes that did not close it, every later Execute is rejected for ever |
| Breaker.DefaultNeverRecovers | internal/circuit/circuit.go:98-117 | with the default configuration no run closes a tripped breaker |
| BreakerOps.EveryRunCounts | internal/circuit/circuit.go:126-244 | in every run of Allow, RecordSuccess, RecordFailure and Reset in any order the counters and the failure stamp are what counting the operations since the last change says |
| BreakerOps.NextByCounting | internal/circuit/circuit.go:126-224 | so are the next status and the answer of Allow |
| BreakerOps.EveryRunKeepsEdges | internal/circuit/circuit.go:126-270 | outside Reset the status changes only along the four edges; a success recorded while open changes nothing, a failure recorded while open only restarts the timeout, resetting a closed breaker changes nothing |
| BreakerOps.ExecuteIsOps | internal/circuit/circuit.go:161-175 | Execute is asking and, if admitted, recording the outcome |
| Breaker.EdgesOnly | internal/circuit/circuit.go:126-244 | in every interleaving a change not made by Reset or ForceOpen is one of the four edges |
| Breaker.ChangeGoesThrough | internal/circuit/circuit.go:133-244 | each of the four changes does go through when the mutex is free |
| HalfOpenRace.EpisodeCount | internal/circuit/circuit.go:133-154 | in every interleaving one episode admits exactly the goroutines that read the open state plus those the request counter has room for, before and after the transition clears it |
| HalfOpenRace.SequentialBound | internal/circuit/circuit.go:133-154 | with one reader of the open state and no addition before the clearing that is at most MaxRequests + 1 |
| HalfOpenRace.AnyNumberAdmitted | internal/circuit/circuit.go:133-146 | for every n some interleaving admits n calls into one episode, whatever MaxRequests is |
| HalfOpenRace.CounterAdmitsMax | internal/circuit/circuit.go:148-153 | behind any number of those the counter admits the first MaxRequests and rejects the rest |
| Limiter.LimitHolds | internal/limiter/limiter.go:33-56 | for slots always, and for memory with sizes that are not negative and cannot overflow: at every point of every interleaving 0 <= current <= max and current = acquired - effectively released |
| Limiter.LimitHoldsIff | internal/limiter/limiter.go:226-251 | for operations of any int64 sizes in every interleaving of the load/compare-and-swap loops: the counter stays in 0..max if and only if no operation that does not fit succeeds, and then equals acquired - effectively released |
| Limiter.LoadDecides | internal/limiter/limiter.go:33-56 | in every run: an acquire is refused if and only if it finds the limit reached, an allocation if and only if the wrapped sum exceeds it, a release ends without a swap if and only if nothing is held |
| Limiter.SwapDecides | internal/limiter/limiter.go:33-56 | in every run: a swap on a changed value starts over; otherwise an acquire adds one, a release takes one away, sizes are added and taken away |
| Limiter.OperationAlone | internal/limiter/limiter.go:33-56 | from any state each operation run on its own comes to that outcome |
| Limiter.SlotsGivenBack | internal/limiter/limiter.go:33-56 | when each release follows its own successful acquire, at every point the counter is successful acquires - ended releases, and zero once all is given back |
| Limiter.OverflowIff | internal/limiter/limiter.go:226-237 | an allocation keeps the counter in range if and only if the sum is an int64 |
| Limiter.CompositeLimiter.Acquire | internal/limiter/limiter.go:287-301 | success raises each count by its number of occurrences; it fails exactly when some limiter lacks room for all of them, and then every count is unchanged |
| Limiter.CompositeLimiter.Release | internal/limiter/limiter.go:304-308 | every count drops by its number of occurrences, which undoes one successful Acquire |
| RateLimiter.TokenBucket.AllowN | internal/limiter/limiter.go:98-126 | bucket and verdict follow the specification for every clock, forwards or backwards, with truncating division and int64 wrap-around |
| RateLimiter.TotalBound | internal/limiter/limiter.go:81-126 | over every run the total granted by time T is at most rate * (1 + floor(T / interval)) |
| RateLimiter.WindowBound | internal/limiter/limiter.go:98-126 | within any window of length T at most rate * (2 + floor(T / interval)) is granted |
| RateLimiter.TokensInRangeIff | internal/limiter/limiter.go:98-126 | the tokens stay in 0..rate throughout a run if and only if no addition of a refill to them overflows |
| RateLimiter.BucketIsWindow | internal/limiter/limiter.go:81-126 | while the run's tokens fit an int64 the bucket refines an independent fixed-window counter: tokens = what the current window has left, and a window begins once an interval has passed since the last |
| RateLimiter.GrantedIff | internal/limiter/limiter.go:98-126 | after every run a request is granted if and only if the window it falls into has that much left |
| RateLimiter.NoRefill | internal/limiter/limiter.go:104-117 | less than an interval after the last refill, or on a clock that moved back, nothing is refilled |
| RateLimiter.NegativeRequest | internal/limiter/limiter.go:119-125 | a negative request is granted when there are tokens and adds that many |
| Prelude.TruncDivMeans | internal/limiter/limiter.go:107 | division truncates: the remainder is smaller than the divisor and has the dividend's sign |
| Prelude.WrapRange | internal/limiter/limiter.go:107-109 | wrap-around gives the int64 that differs by a multiple of 2^64 |
| ConnMgr.InvStep | internal/connmgr/connmgr.go:139-185 | every step keeps permits, counters and map equal to what the connections' phases contribute |
| ConnMgr.ActiveWithinLimit | internal/connmgr/connmgr.go:139-185 | in every interleaving, with any number of Close callers, 0 <= active <= permits held <= limit |
| ConnMgr.ReleaseNeverBlocks | internal/connmgr/connmgr.go:182-184 | the receive that ends a Release always finds a permit |
| ConnMgr.RefusedOnlyWhenFull | internal/connmgr/connmgr.go:147-155 | a connection is refused if and only if exactly `limit` others hold permits at that moment |
| ConnMgr.QuiescentAgree | internal/connmgr/connmgr.go:329-336 | with nothing in flight active count, permits and map agree, and accepted = stored + gone |
| ConnMgr.AcceptAlone | internal/connmgr/connmgr.go:139-170 | with a permit left a new connection takes one, is counted as active and accepted, and stored |
| ConnMgr.CloseAlone | internal/connmgr/connmgr.go:329-336 | closing it undoes all of that but the number accepted |
| ConnMgr.ClosedGoes | internal/connmgr/connmgr.go:173-185 | in every run, from its first Close on a connection only leaves, and with nothing in flight it is gone |
| ConnMgr.DownIff | internal/connmgr/connmgr.go:140-145 | a connection is turned away if and only if the manager was shut down before |
| ConnMgr.NeverStuck | internal/connmgr/connmgr.go:139-185 | a connection in the middle of Accept or Close can always take its next step |
| ConnPool.ConnPool.Get | internal/pool/connpool.go:103-137 | the ledger after popping and closing expired connections; a pooled connection, never one beyond the maximum age, or a new one, or the error, with the statistics |
| Ledgers.LastLiveMeans | internal/pool/connpool.go:110-126 | the position Get stops at holds an unexpired connection and everything returned later has expired; -1 only if all have |
| Ledgers.PoppedToLastLive | internal/pool/connpool.go:110-126 | what Get picks is the most recently returned unexpired connection, and exactly those returned after it are closed |
| ConnPool.PoppedByAge | internal/pool/connpool.go:110-126 | in terms of ages: Get stops at the last connection returned that is not older than the maximum age, and closes exactly those returned later, all of which are older |
| Ledgers.ReturnThenLend | internal/pool/connpool.go:103-169 | getting what was just put back undoes the put |
| ConnPool.ConnPool.Put | internal/pool/connpool.go:140-169 | for nil, foreign, own and other pools' connections: back at the end of the list while there is room and the pool is open, otherwise closed; the pool's invariant survives if and only if an own one was lent out, a foreign one came to an open pool, or nothing came |
| ConnPool.ConnPool.CloseConn | internal/pool/connpool.go:285-299 | closing a pooled connection returns it to an open pool, which keeps the invariant if and only if it was lent; on a shut pool it closes once, which the statistics miss |
| ConnPool.ConnPool.Close | internal/pool/connpool.go:172-188 | exactly the idle connections are closed; a second call does nothing |
| ConnPool.ConnPool.Prune | internal/pool/connpool.go:255-282 | the aliased list is compacted in place to the order-preserving filter of the unexpired ones; exactly the others are closed, and counted |
| ConnPool.ConnPool.Conservation | internal/pool/connpool.go:103-188 | created = idle + lent + closed at all times; idle connections are distinct, open, not lent and at most MaxIdle |
| Ledgers.LiveMeans | internal/pool/connpool.go:267-278 | filtering keeps exactly the unexpired connections and dooms exactly the expired ones |
| Ledgers.LiveInOrder | internal/pool/connpool.go:267-278 | what is kept stays in order |
| ConnPool.PrunedByAge | internal/pool/connpool.go:255-282 | in terms of ages: Prune keeps exactly the connections that are not too old and closes exactly the others |
| Replay.AntiReplay.Check | quic/quic.go:2429-2448 | lookup, pruning loop and insertion amount to one step on the cache |
| Replay.CacheAgreesWithHistory | quic/quic.go:2429-2448 | at every point of every run the pruned cache holds exactly the acceptances with no acceptance more than ttl after them |
| Replay.RejectedIff | quic/quic.go:2434-2436 | a key is rejected if and only if an earlier acceptance of it is still remembered |
| Replay.AcceptancesApart | quic/quic.go:2429-2448 | two acceptances of the same key are more than ttl apart |
| Replay.KeyInjective | quic/quic.go:2433 | distinct (client, timestamp) pairs never share a key, whatever bytes the client name has |
| Replay.KeyLayout | quic/quic.go:2433 | the key is the client name, a colon and the timestamp in decimal |
| Replay.WindowAgreesWithPairs | quic/quic.go:2429-2448 | the same in terms of pairs: a rejected pair was itself accepted earlier, and acceptances of one pair are more than ttl apart |
| Replay.RejectedHoweverLate | quic/quic.go:2434-2436 | in every run: with nothing accepted in between, a key is rejected at any later time |
| Delays.Normalized | internal/retry/retry.go:94-118 | valid settings are kept, each other one is replaced by its default or bound, and the result is always sane |
| Delays.DelayBounded | internal/retry/retry.go:179-203 | while nothing overflows, a computed delay is within the jitter fraction of the capped product and in 0..MaxDelay*(1+Jitter) |
| Delays.DelayBoundedIff | internal/retry/retry.go:179-203 | a delay computed from a given one is within those bounds for every draw and every outcome of an overflowing conversion if and only if the product is below 2^63 and its capped value has room for the largest jitter |
| Delays.DelayIs | internal/retry/retry.go:179-203 | the exact value: the product rounded down and capped, less or plus the drawn share of it rounded down |
| Delays.EveryDelayBounded | internal/retry/retry.go:160-168 | under a configuration in which nothing can overflow every delay of every run after the first lies in 0..MaxDelay*(1+Jitter) |
| Delays.ManagerSafeIff | quic/conn_manager.go:76-87 | the connection manager's settings are such a configuration if and only if twice its reconnect interval is an int64 |
| Delays.DelayClosedForm | internal/retry/retry.go:179-203 | without jitter, with multiplier two and no overflow the k-th delay is min(initial*2^k, max) |
| Reconnect.Do | internal/retry/retry.go:129-177 | for any limit, none included, and any cancellation: result, dials and looks at the context as specified, and the exact sequence of delays |
| Reconnect.TriesMeans | internal/retry/retry.go:129-177 | stops at the first success or fatal error, after exactly MaxAttempts dials, or if and only if it looks at a cancelled context; every retryable failure begins a wait, the last included |
| Reconnect.ConnectionManager.RunConnectLoop | quic/conn_manager.go:243-326 | for any limit and any cancellation: outcome, rounds and dials are those of the loop's specification, and the connected flag stays set exactly if it was cancelled while connected |
| Reconnect.ReconnectBound | quic/conn_manager.go:243-326 | when every dial fails: gives up unless cancelled first, after exactly M+1 rounds, with exactly M(M+1) dials without cached 0-RTT state, and never more than 2M(M+1) even if cancelled |
| Reconnect.FailureRun | quic/conn_manager.go:243-326 | the exact number of dials, M per round and M more per round with cached state, and how late a cancellation can still prevent giving up |
| Reconnect.RoundEnds | quic/conn_manager.go:262-292 | a round succeeds if and only if its last dial connects, and no other dial of it does |
| Reconnect.RoundsAreConnections | quic/conn_manager.go:243-326 | in every run the successful rounds are as many as the dials that connect, and a loop cancelled while connected connected with its last dial |
| Reconnect.CanceledIff | quic/conn_manager.go:253-326 | the loop ends as cancelled if and only if it has looked at a cancelled context |
| Reconnect.GivesUpAtFirstStreak | quic/conn_manager.go:293-304 | in every run, however it is cancelled: at most M rounds in a row have failed before any round, the loop gives up if and only if it ends with M+1 failures in a row, and without a limit it never does |
| Backpressure.AdaptiveController.CheckAndYield | internal/backpressure/backpressure.go:185-204 | new state as specified, and the time slept |
| Backpressure.AdaptiveController.UpdateLevel | internal/backpressure/backpressure.go:207-219 | new state as specified; high is looked at before low |
| Backpressure.PausedIff | internal/backpressure/backpressure.go:168-238 | over every run: paused if and only if some operation paused the flow and none resumed it since |
| Backpressure.LatestLevelDecides | internal/backpressure/backpressure.go:207-219 | under level updates alone: paused if and only if the latest level outside (low, high) was at or above high |
| Backpressure.MarksInForce | internal/backpressure/backpressure.go:207-227 | the watermarks in force are those set last and the level the one reported last |
| Backpressure.YieldFollowsChain | internal/backpressure/backpressure.go:173-204 | a flow that is not paused has its yield at the minimum; a paused one has doubled it once per yield of this pause |
| Backpressure.ClosedFormIff | internal/backpressure/backpressure.go:191-197 | the k-th yield time is min(yieldMin*2^(k-1), yieldMax) for all k if and only if yieldMin <= yieldMax and twice yieldMax is an int64 |
| Backpressure.NegativeYieldIff | internal/backpressure/backpressure.go:191-197 | some yield time is negative if and only if twice yieldMin or twice yieldMax is not an int64 |
| Backpressure.KthYieldSleeps | internal/backpressure/backpressure.go:185-204 | in every run each yield sleeps that closed form of its position within its pause |
| Backpressure.StatisticsAddUp | internal/backpressure/backpressure.go:199-203 | over every run totalPause is the sum of all sleeps and pauseCount their number |

## Left out

- QUIC, TLS, TCP, UDP, datagrams, splice and socket options: calls into code without visible semantics; a connection is a byte sequence with arbitrary chunking.
- Health, metrics, certificates, configuration files, presets, logging and the command line: they would only add easy members.
- The bidirectional and HTTP multiplexing forwarders, the plain backpressure controller and its pairs: weaker copies of what is modelled.
- The server's own tunnel close, idle-stream cleanup and data-stream header reader, and the client's local forwarding: they count without load-and-delete or read another format, so the invariants here are not theirs.
- End-to-end claims over the control stream, which mixes two unframed formats.
- Registry.InvStep: statistics handlers, closing of a tunnel's external connections, and the timeout sweep, which only calls the close that is modelled; identifiers and domains are numbers because they are only compared, identifiers are fresh and port ranges positive.
- Mux.MuxFaithful: writes of whole frames succeed, local connections accept every write, a connection is registered before its first frame is handled, and the manager is not paused, since nothing in the code pauses its controller.
- BinaryCodec.BinaryProtocol.Get: the runtime's pool is a bag of arrays from which any or none may come back.
- SessionHeader.Encode: address detection is a parameter with a result in 1..3.
- Breaker.EdgesOnly: counters and clock are abstracted to arbitrary decisions, and the mutex is released with the status store; how long ForceOpen blocks is not modelled.
- HalfOpenRace.EpisodeCount: one episode, as long as no recorded outcome ends it and the open timeout has passed for all its callers.
- Limiter.CompositeLimiter.Acquire: run without other users, over connection and goroutine limiters; a composite inside a composite is not modelled.
- Limiter.LimitHolds: leaves oversized and negative memory sizes to LimitHoldsIff, which covers them.
- RateLimiter.TotalBound: positive intervals, nonnegative rates and requests, and a clock that does not run backwards; an interval of zero panics and is not modelled, nor is a difference of clock readings beyond int64.
- ConnMgr.ActiveWithinLimit: connections are released through their wrappers; a direct second Release is not modelled.
- ConnPool.ConnPool.Get: one clock reading per call, and the outcome of the factory is a parameter, so a connection that the factory finishes after its caller gave up is not modelled.
- ConnPool.ConnPool.CloseConn: ForceClose is not modelled.
- Delays.DelayBounded: products are exact reals, so the rounding of 64-bit floats is not modelled; jitter is an arbitrary fraction and sign.
- Reconnect.Do: cancellation is observed at the looks the loop takes at its context, not inside a dial.
- Reconnect.ConnectionManager.RunConnectLoop: a connected loop that is not cancelled gets a reconnection request sooner or later.
- Backpressure.StatisticsAddUp: the two statistics counters are unbounded integers.
- ControlMessages.ParseRestoreIff: the parsing only, not the replay check and tunnel lookup that follow.
