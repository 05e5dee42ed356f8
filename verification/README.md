# NexDesk: a verified model of its protocols and wire formats

NexDesk is a remote-desktop system: a Go backend (account, rendezvous and relay
services), a Rust core (transport, sessions, media plumbing) and a C++ codec wrapper.
This project models the parts of it whose guarantees span whole runs or cross several
functions, and proves those guarantees for every input, every run and every
interleaving.

`dafny verify dfyconfig.toml` checks everything; the project uses no library.

| file | models |
|---|---|
| `RelayService.dfy` | `Service.Stream` as a transition system: lock sections, one-slot channel, cancel race, pipe loops, metrics |
| `RelayPairing.dfy`, `RelayTheorems.dfy`, `RelayBytes.dfy` | the inductive invariant, and what it gives: channels, waiters, pairings, forwarding, counters |
| `RelayAdmission.dfy` | who is let in and how handlers return, from the steps of the run; what the environment is free to do |
| `RelayHandlers.dfy` | the same lock sections over a mutable map, and `pipeOneDirection` as a loop over mutable streams |
| `RelayLeaving.dfy` | when a waiter that was taken can still leave by the context branch of its select |
| `RelayProgress.dfy` | two clients that connect, say hello and wait for one, on a relay that serves any other streams too: termination and absence of deadlock |
| `Reassembly.dfy`, `ReassemblyRuns.dfy`, `ReassemblyDelivery.dfy` | `FrameReassembler`: one accept; panics and order over whole runs; delivery of one frame among any others |
| `Jitter.dfy`, `Replay.dfy` | `JitterBuffer` and `ReplayGuard`, each a class, a step function and run theorems |
| `Base64Url.dfy`, `Text.dfy`, `SessionToken.dfy`, `PendingLogin.dfy` | the two signed token formats, down to letters and digits |
| `BigEndian.dfy`, `Framing.dfy`, `InputEvents.dfy` | length-prefixed framing over a fragmented stream, and the input event codec |
| `ClientSession.dfy` | session state machine, retry delays, heartbeat loop and the reconnect loop of the client |
| `Registry.dfy`, `Rendezvous.dfy`, `RpcAnswers.dfy` | the tables, the RPCs over them with one SQL statement per step, and every answer told from the run |
| `GrantedSessions.dfy` | from the access list to the relay: streams paired under an issued token belong to a session that was granted |
| `I420.dfy` | the packing loops of the decoder and the strided copies of the encoder |

## Reading the model

Classes (`Service`, `FrameReassembler`, `JitterBuffer`, `ReplayGuard`, `ByteSource`,
`Backoff`, `Session`, `Store`) have the fields of the source's types. Each method is
proved equal to a function on the value of those fields, and the lemmas are about runs
of that function. A transition system's `Apply` gives one atomic step; its lemmas
quantify over all lists of enabled steps. History fields (`verified`, `locked`, `takes`,
`takenBy`, `left`, `sends`, `sent`, `received`, `written`, and the log of the rendezvous
service) record what happened and are never read by a step that models the code.

What is supplied from outside: the MAC is an arbitrary function from payloads to bytes;
the clock is a parameter; `Verify` of a relay token, failures of streams, contexts and
databases, and the interleaving are chosen freely; the hello message format is any codec
whose decoding undoes its encoding.

Where code and documentation part, or the code does less than a reader may expect:

- `Backoff::reset` is documented to be called after a successful connection
  (backoff.rs:34-35), but the client never calls it (client.rs:69-95). `SuccessDoesNotRestart`
  is a run on which the documented delay is not the one printed. `DelayAsDocumentedExactlyWhen`
  gives the exact condition for every run: the delay after attempt k is the documented one
  if and only if none of the last five attempts, the very first not counted, succeeded.
- After a failed attempt the session is still Handshaking, so the next `Connect` and
  `HandshakeStart` are refused, as after no other, and their errors discarded; it is in the
  right state whenever a line is printed all the same (`RunClient`).
- `accept` indexes every chunk number of a frame it believes complete (reassembly.rs:82-84).
  `DisagreeingTotalsPanic` is a two-chunk input on which that fails, `PanicsExactlyAt` the
  exact condition, and `AgreeingTotalsNeverPanic` the guarantee for a frame whose own chunks
  announce one total, whatever other frames do.
- A frame of one chunk is complete at once, but still evicts the oldest frame of a full
  buffer (`SingleChunkFrameEvicts`); "at most `max_frames_buffered` frames open" therefore
  counts the frame of the arriving chunk.
- A frame is delivered again if all its chunks come again after its delivery, and only
  then (`DeliveredOnce`).
- `write_frame` accepts lengths that `read_frame` refuses; `ReadsBackWithinLimit` says
  exactly which frames come back.
- The decoder promises a filled I420 buffer of width * height * 3 / 2 bytes (codec.h:59-66).
  The loops fill it exactly when both dimensions are even or both are 1 (`PackedFits`);
  otherwise a tail of the buffer is left unwritten.
- `next_seq` of the jitter buffer is incremented in 64 bits. The model wraps, as an
  optimised build does. Runs may push any number: `AscendsExactlyWhen`, `NothingLost` and
  `DroppedExactlyWhenStale` say that order and staleness hold exactly as long as the largest
  number has not been delivered, and `LargestNumberStartsOver` is a run on which it has.
- A relay waiter that was taken may still leave with its context, exactly when that
  context is done (`TakenWaiterLeavesExactlyWhen`; `MatchedWaiterWithContextDone` is such a
  run), so the progress theorem assumes that neither of its two peers cancels.

## Model

| member | source | states |
|---|---|---|
| RelayPairing.StepKeepsInv | backend/internal/relay/relay.go:59-142 | every step of any handler keeps the relay's invariant: pairings are mutual, each `matched` channel sees at most one send, each registered waiter is in its wait section, frames stay in order |
| RelayTheorems.MatchedNeverBlocks | backend/internal/relay/relay.go:85-108 | in every reachable state a `matched` channel has had at most one send, and a handler about to send on it, or to take the lock, can do so |
| RelayTheorems.EntriesAreWaiting | backend/internal/relay/relay.go:85-119 | every `waiting` entry is an unpaired handler still in its wait section, under the non-empty token it presented |
| RelayTheorems.PairedUnderOneToken | backend/internal/relay/relay.go:60-108 | paired streams are two different streams, each the other's only partner, with the same verified token and flushed headers; one registered and the other took it |
| RelayTheorems.UnverifiedNeverPairs | backend/internal/relay/relay.go:60-83 | a stream whose token is missing or refused, or whose headers fail, never registers, pairs, receives or is written to |
| RelayAdmission.ValidationDecides | backend/internal/relay/relay.go:60-83 | in every run, a handler whose examination had given outcomes returns InvalidArgument, Unauthenticated or Internal exactly when its first metadata value is missing or empty, else its token did not verify, else its headers were not flushed; only otherwise are the headers out, and only then can it have registered, taken an entry or be paired |
| RelayAdmission.AdmittedByValidation | backend/internal/relay/relay.go:60-108 | whoever registered, took an entry or is paired had, in the run, an examination of its own in which both verification and header flush succeeded |
| RelayAdmission.ReturnsAsItEnded | backend/internal/relay/relay.go:109-142 | over every run, a handler whose receive or send failed, or that left by its context, has returned just that status and stays returned |
| RelayAdmission.AnythingCanHappen | backend/internal/relay/relay.go:59-142 | in every reachable state any stream may arrive, send and be cancelled, any examination go either way, each ready branch of a select be taken, and receives and sends fail |
| RelayAdmission.HearsItsClient | backend/internal/relay/relay.go:60-64 | from its arrival on, a stream keeps its metadata, and has the frames its client sent, in order, and a done context exactly as the run says |
| RelayTheorems.LateCancelIsHarmless | backend/internal/relay/relay.go:109-118 | a canceller removes its own entry if it was not taken and nothing at all if it was; nobody else's entry moves |
| RelayLeaving.TakenWaiterLeavesExactlyWhen | backend/internal/relay/relay.go:106-119 | in every reachable state a waiter that was taken and is in its select, with or without the match in its channel, can leave by its context if and only if its context is done; it has then received nothing and the map is unchanged, while its partner goes on towards piping into the stream it left |
| RelayLeaving.MatchedWaiterWithContextDone | backend/internal/relay/relay.go:85-109 | a run of eight steps that brings a matched waiter there |
| RelayTheorems.MatchedWaiterWakes | backend/internal/relay/relay.go:90-108 | a waiter that was taken finds its partner in its channel unless the partner is still about to send |
| RelayTheorems.SendHasRoom | backend/internal/relay/relay.go:90-102 | the send on `peer.matched` always has room in the one-slot buffer |
| RelayTheorems.StepKeepsPartners | backend/internal/relay/relay.go:85-119 | no step undoes or replaces a pairing |
| RelayTheorems.RunKeepsPartners | backend/internal/relay/relay.go:85-119 | the same over whole runs |
| RelayTheorems.SoleWriter | backend/internal/relay/relay.go:122-142 | over a whole run at most one handler ever pipes into a stream, and it is not the stream's own |
| RelayTheorems.ForwardsInOrder | backend/internal/relay/relay.go:128-142 | what was written to the partner is a prefix of what was received, itself a prefix of what the client sent; one frame behind at most, none at the loop head |
| RelayTheorems.EveryStreamAccountedFor | backend/internal/relay/relay.go:85-119 | per token, streams past the lock are twice the pairings, plus waiters that removed themselves, plus the one registered |
| RelayTheorems.GaugeMatchesSessions | backend/internal/relay/relay.go:94-99 | the gauge is the number of second sides inside their pipe, and the counter the number that ever entered it |
| RelayBytes.CountedThenForwarded | backend/internal/relay/relay.go:128-142 | each handler counts what it forwards, is ahead by at most the one frame being sent or lost, and by none at its loop head |
| RelayBytes.CounterIsForwardedBytes | backend/internal/relay/relay.go:137 | the byte counter all handlers share equals the bytes written to all streams plus those one-frame differences, in every interleaving |
| RelayHandlers.Service.TakeOrRegister | backend/internal/relay/relay.go:85-104 | the first lock section on the mutable map: take and delete the entry under the token, or insert one; the step function of the transition system |
| RelayHandlers.Service.RemoveIfOwn | backend/internal/relay/relay.go:110-117 | the second lock section: delete only one's own entry |
| RelayHandlers.PipeOneDirection | backend/internal/relay/relay.go:128-142 | the loop writes exactly the first frames in order until a receive or a send fails, counts them and the one whose send failed, and reports end of stream as success |
| RelayProgress.TwoPeersMeet | core/nexdesk-core/src/rendezvous/relay.rs:87-150 | two clients with one valid token that neither cancel nor fail, on a relay that serves any number of streams of other tokens, which may pair, cancel and fail: under every schedule the two make at most 26 moves, and where only others can move each holds the other's device id |
| RelayProgress.PlayEnds | core/nexdesk-core/src/rendezvous/relay.rs:134-150 | along every schedule the invariant holds, and a measure drops with each move of the two and stays with every other |
| RelayProgress.UnfinishedCanMove | backend/internal/relay/relay.go:73-108 | in no reachable unfinished state are the two stuck, whatever the rest of the relay is doing: headers are flushed before pairing, sends come before receives |
| RelayProgress.OtherTakesNoMoveAway | backend/internal/relay/relay.go:85-119 | a move of the two that is possible stays possible through every step of any other stream |
| RelayProgress.ForeignLeaves | backend/internal/relay/relay.go:85-142 | the steps of a stream of another token, its lock sections and cancellation included, leave a stream of this token as it was |
| RelayProgress.IdleHandlersPiped | backend/internal/relay/relay.go:85-142 | two live handlers of one token that no other stream presents, with nothing left to do, have delivered all that either client sent |
| Reassembly.FrameReassembler.Open | core/nexdesk-core/src/protocol/reassembly.rs:51-65 | opens the chunk's frame, evicting the first of the order when full |
| Reassembly.FrameReassembler.Retain | core/nexdesk-core/src/protocol/reassembly.rs:79 | the order without the finished frame |
| Reassembly.FrameReassembler.Join | core/nexdesk-core/src/protocol/reassembly.rs:81-85 | the concatenation loop: the pieces in index order, or the index panic |
| Reassembly.FrameReassembler.Accept | core/nexdesk-core/src/protocol/reassembly.rs:43-86 | one accept, state and result, equals the step function the run theorems are about |
| Reassembly.RefusesExactly | core/nexdesk-core/src/protocol/reassembly.rs:44-49 | a chunk is refused exactly when its total is 0 or its index not below it, and then nothing changes |
| Reassembly.AcceptKeepsInv | core/nexdesk-core/src/protocol/reassembly.rs:43-86 | after every accept: at most `max_frames_buffered` held, `order` lists exactly the frames held, every held frame misses a chunk |
| Reassembly.OrderHasNoDuplicates | core/nexdesk-core/src/protocol/reassembly.rs:25-29 | `order` and `partial` have the same frames, each once |
| Reassembly.OpeningEvictsOldest | core/nexdesk-core/src/protocol/reassembly.rs:51-65 | opening evicts exactly the frame first in the order, and only when the buffer is full |
| Reassembly.CountIsExact | core/nexdesk-core/src/protocol/reassembly.rs:71 | cutting the count to 32 bits never changes the completeness test |
| Reassembly.AcceptEffect | core/nexdesk-core/src/protocol/reassembly.rs:43-86 | frame by frame: a chunk closes its frame exactly when the count is reached, and touches no other frame but the one it evicts |
| ReassemblyRuns.PanicsExactlyWhen | core/nexdesk-core/src/protocol/reassembly.rs:67-84 | indexing fails if and only if the count is reached while some recorded index is not below it |
| ReassemblyRuns.DisagreeingTotalsPanic | core/nexdesk-core/src/protocol/reassembly.rs:82-84 | two chunks of one frame announcing totals 2 and 6 make it fail |
| ReassemblyRuns.AgreeingTotalsNeverPanic | core/nexdesk-core/src/protocol/reassembly.rs:82-84 | no accept of a frame fails if the valid chunks of that frame announce one total, under any loss, repetition, order or eviction and any chunks of other frames |
| ReassemblyDelivery.EveryOutcomeExpected | core/nexdesk-core/src/protocol/reassembly.rs:43-86 | for a frame with one total that is never evicted, every accept of its chunks returns the pieces on hand, joined, exactly when that chunk completes them; other frames are unconstrained |
| ReassemblyDelivery.PanicsExactlyAt | core/nexdesk-core/src/protocol/reassembly.rs:67-84 | from the chunks alone, for a frame never evicted: an accept fails exactly when the distinct indices since it was opened come to the total its first chunk announced while one of them is not below it |
| ReassemblyDelivery.DeliveredOnce | core/nexdesk-core/src/protocol/reassembly.rs:43-86 | any order of a frame's chunks, repeated or not, between any valid or invalid chunks of other frames, yields its original payload on the chunk with which all have come and nothing before; it is yielded again if and only if all come again after that |
| ReassemblyDelivery.RoomNeverEvicts | core/nexdesk-core/src/protocol/reassembly.rs:51-56 | while the frames held and the arriving one fit the buffer, no frame is evicted |
| ReassemblyDelivery.FewOpenNeverEvict | core/nexdesk-core/src/protocol/reassembly.rs:51-79 | the same from the chunks alone: at most `max_frames_buffered` frames open at once |
| ReassemblyDelivery.FewOthersNeverEvict | core/nexdesk-core/src/protocol/reassembly.rs:51-56 | a frame after whose first chunk fewer than `max_frames_buffered` other frames come is never evicted, whatever those do |
| ReassemblyRuns.SingleChunkFrameEvicts | core/nexdesk-core/src/protocol/reassembly.rs:51-65 | in a full buffer even a frame complete at once evicts the oldest |
| ReassemblyRuns.HeldInOpeningOrder | core/nexdesk-core/src/protocol/reassembly.rs:51-79 | in every reachable state `order` is the order in which the held frames were opened |
| Replay.ReplayGuard.CheckAndRecord | core/nexdesk-core/src/crypto/replay.rs:32-59 | accepts exactly the nonces never accepted before and within the window of everything accepted; a rejection changes nothing |
| Replay.CheckRefinesHistory | core/nexdesk-core/src/crypto/replay.rs:32-59 | one check on the pruned set agrees with the check on the unbounded history, and the pruned set stays the history cut to the window |
| Replay.AcceptedIffFresh | core/nexdesk-core/src/crypto/replay.rs:32-59 | the same at every position of every run |
| Replay.NoReplay | core/nexdesk-core/src/crypto/replay.rs:30-59 | no nonce is accepted twice in any run |
| Replay.SeenFitsWindow | core/nexdesk-core/src/crypto/replay.rs:39-47 | `seen` is the accepted part of the window and never larger than it |
| Jitter.JitterBuffer.Push | core/nexdesk-core/src/protocol/jitter.rs:29-34 | drops numbers behind `next_seq`, else buffers with the latest data and arrival |
| Jitter.JitterBuffer.PopReady | core/nexdesk-core/src/protocol/jitter.rs:40-61 | one pop, state and result, equals the step function the run theorems are about |
| Jitter.JitterBuffer.First | core/nexdesk-core/src/protocol/jitter.rs:46-50 | the lowest-numbered frame buffered |
| Jitter.NothingLost | core/nexdesk-core/src/protocol/jitter.rs:29-61 | over every run all buffered numbers are ahead; delivered numbers strictly ascend below `next_seq` if and only if the largest number has not been delivered; up to then each delivery has the latest data for its number and every accepted number is delivered or buffered |
| Jitter.BufferIsOutstanding | core/nexdesk-core/src/protocol/jitter.rs:29-61 | over every run the whole state is what the pushes and deliveries say: the buffer is exactly what was accepted and not delivered since, each with data and instant of its last accepted push, whatever pops came between |
| Jitter.PlaysOutAsPushed | core/nexdesk-core/src/protocol/jitter.rs:36-61 | after every run, a pop delivers the lowest outstanding number exactly when it is next in sequence or `max_wait` has passed since its last accepted push; a pop that delivers nothing changes nothing |
| Jitter.AscendsExactlyWhen | core/nexdesk-core/src/protocol/jitter.rs:29-61 | over every run delivered numbers ascend if and only if none before the last is the largest number |
| Jitter.DroppedExactlyWhenStale | core/nexdesk-core/src/protocol/jitter.rs:27-34 | after every run: a push is dropped exactly when its number is not beyond every number delivered, for all numbers, if and only if the largest number has not been delivered |
| Jitter.PopsExactlyWhen | core/nexdesk-core/src/protocol/jitter.rs:36-61 | a pop delivers the lowest-numbered frame, exactly when it is next or has waited `max_wait` since last pushed |
| Jitter.PopsEarliest | core/nexdesk-core/src/protocol/jitter.rs:40-58 | such a pop moves past that frame and keeps everything buffered ahead |
| Jitter.DeliveryAdvances | core/nexdesk-core/src/protocol/jitter.rs:42-55 | a delivery moves `next_seq` past its number unless the number is the largest of 64 bits |
| Jitter.LargestNumberStartsOver | core/nexdesk-core/src/protocol/jitter.rs:42-55 | delivering the largest number lets number 0 be delivered after it |
| Jitter.DrainsInOrder | core/nexdesk-core/src/protocol/jitter.rs:40-61 | once all have waited, as many pops as frames return exactly those frames in ascending order, then nothing |
| Jitter.InOrderSorts | core/nexdesk-core/src/protocol/jitter.rs:12-16 | the order meant: all buffered frames, each once, numbers ascending |
| Jitter.ConsecutiveNeverWait | core/nexdesk-core/src/protocol/jitter.rs:40-44 | frames without a gap from `next_seq` on come out at once whatever the time |
| Jitter.AnyArrivalOrderPlaysOut | core/nexdesk-core/src/protocol/jitter.rs:29-61 | any arrival order, with repeats, of the n numbers from `next_seq` on plays out in order, none waiting, each with the data pushed last for it |
| Base64Url.RoundTrip | backend/internal/rendezvous/token.go:80-101 | decoding undoes encoding for every byte string |
| Base64Url.DecodesExactly | backend/internal/rendezvous/token.go:94-101 | the lenient decoder accepts exactly texts over the alphabet, line breaks aside, whose length is not 1 modulo 4 |
| Base64Url.EncodeStaysInAlphabet | backend/internal/rendezvous/token.go:80-86 | an encoding contains letters of the URL alphabet only, so never a separator |
| Base64Url.StandardVectors | backend/internal/rendezvous/token.go:82-83 | the encoding is that of RFC 4648, by the vectors of its section 10 |
| Base64Url.StripsLineBreaks | backend/internal/rendezvous/token.go:94-101 | exactly carriage returns and line feeds are skipped, anywhere in the text |
| Base64Url.EncodesWhatWasDecoded | backend/internal/rendezvous/token.go:94-101 | encoding what a text decoded to gives back its letters, line breaks dropped and spare low bits cleared |
| Text.SplitUndoesJoin | backend/internal/rendezvous/token.go:86-90 | splitting undoes joining when no field has the separator |
| Text.JoinUndoesSplit | backend/internal/rendezvous/token.go:90 | joining undoes splitting, and no field has the separator |
| Text.CutAtFirst | backend/internal/rendezvous/token.go:52 | cutting finds the first separator |
| Text.CutPieces | backend/internal/rendezvous/token.go:52-55 | cutting fails exactly without a separator, and its pieces make up the text |
| Text.ParseUndoesFormat | backend/internal/rendezvous/token.go:84-102 | parsing undoes formatting on all 64-bit integers |
| Text.ParsesExactly | backend/internal/rendezvous/token.go:102 | one optional sign and digits within 64 bits, and nothing else, are parsed, to their value |
| Text.PlacesCountTen | backend/internal/rendezvous/token.go:102 | that value: each place counts ten times the next |
| Text.FormatsShortest | backend/internal/rendezvous/token.go:84 | numbers are written with a minus sign if negative and no leading zero |
| SessionToken.PayloadRoundTrip | backend/internal/rendezvous/token.go:80-111 | for all ids, decoding a payload returns them and the expiry floored to its second |
| SessionToken.PayloadDetermines | backend/internal/rendezvous/token.go:80-87 | two payloads agree if and only if ids and expiry second agree |
| SessionToken.DecodesPayloadExactly | backend/internal/rendezvous/token.go:89-111 | a payload decodes to claims exactly when it is three fields: requester, target and expiry second, in this order |
| SessionToken.UnsealExactly | backend/internal/rendezvous/token.go:51-63 | a payload under a signature opens exactly when that is its MAC |
| SessionToken.SealOpens | backend/internal/rendezvous/token.go:43-63 | what one issuer sealed opens under another's key exactly when the MACs agree |
| SessionToken.AtSecondFloors | backend/internal/rendezvous/token.go:84-109 | the expiry survives the trip through Unix seconds as its floor, less than a second earlier |
| SessionToken.AtSecondWraps | backend/internal/rendezvous/token.go:102-109 | a parsed expiry beyond what `time.Time` counts from its own origin wraps to one long past |
| SessionToken.VerifiesUntilExpiry | backend/internal/rendezvous/token.go:43-72 | an issued token verifies to its ids at exactly the instants up to the floored expiry, and has expired after |
| SessionToken.LifetimeWithinSecondOfTtl | backend/internal/rendezvous/token.go:43-72 | its lifetime is more than ttl less a second and at most ttl |
| SessionToken.VerifiesExactly | backend/internal/rendezvous/token.go:51-72 | of all strings, exactly those verify to given claims that are a dot-free payload decoding to the claims, a dot, and a text decoding to the payload's MAC, up to the expiry |
| SessionToken.RefusesExactly | backend/internal/rendezvous/token.go:51-70 | which of the five refusals a text gets, exactly: no dot, undecodable signature, another signature, undecodable payload, past its expiry |
| SessionToken.SwappedPayloadNeedsCollision | backend/internal/rendezvous/token.go:51-72 | another payload under an issued signature is accepted exactly on a MAC collision, if it decodes and has not expired |
| PendingLogin.LoginVerifiesUntilExpiry | backend/internal/auth/pending_login.go:33-69 | an issued login token verifies to its user at exactly the instants up to the floored expiry |
| PendingLogin.VerifiesLoginExactly | backend/internal/auth/pending_login.go:40-69 | of all strings, exactly those verify to a given user that are a dot-free payload, a dot, and a text decoding to the payload's MAC, the payload having two fields that decode to the user and an expiry not passed |
| PendingLogin.ForeignLoginNeedsCollision | backend/internal/auth/pending_login.go:33-69 | a login token issued under any other key is accepted exactly on a MAC collision, up to its expiry |
| PendingLogin.RefusesLoginExactly | backend/internal/auth/pending_login.go:40-51 | which texts are refused for the missing dot, the undecodable signature or another signature |
| PendingLogin.LoginIsNoSession | backend/internal/auth/pending_login.go:33-69 | whatever the keys, even one shared, no login token is accepted as a session token |
| PendingLogin.SessionIsNoLogin | backend/internal/auth/pending_login.go:40-69 | nor a session token as a login token |
| BigEndian.FromUndoesTo | core/nexdesk-core/src/transport/framing.rs:19-35 | reading the four bytes of a number returns it |
| BigEndian.ToUndoesFrom | core/nexdesk-core/src/input/mod.rs:84-90 | writing what was read returns the four bytes |
| BigEndian.CastsKeepResidue | core/nexdesk-core/src/input/mod.rs:92-94 | the casts between signed and unsigned keep the number modulo 2^32 and undo each other |
| BigEndian.OrderedByFirstDifference | core/nexdesk-core/src/transport/framing.rs:19 | numbers compare as their bytes do from the front: most significant first |
| Framing.WriteFrame | core/nexdesk-core/src/transport/framing.rs:13-27 | writes prefix and payload, a proper prefix of them when the writer fails, and nothing for a length beyond 32 bits |
| Framing.ByteSource.ReadExact | core/nexdesk-core/src/transport/framing.rs:30-46 | whatever the fragmentation, the next n bytes, or the end |
| Framing.ByteSource.ReadFrame | core/nexdesk-core/src/transport/framing.rs:29-48 | result and bytes left depend only on the bytes remaining, not on fragmentation |
| Framing.ByteSource.ReadAll | core/nexdesk-core/src/transport/framing.rs:29-48 | the same for reading until the first error |
| Framing.ReadsBackWithinLimit | core/nexdesk-core/src/transport/framing.rs:11-37 | a written frame is read back if it is at most `MAX_FRAME_LEN` long, and refused otherwise |
| Framing.AllReadBack | core/nexdesk-core/src/transport/framing.rs:11-48 | any list of messages within the limit is read back exactly |
| Framing.ReadBackExactly | core/nexdesk-core/src/transport/framing.rs:11-48 | a list that was written is read back whole if and only if every message is within the limit |
| Framing.WriteAll | core/nexdesk-core/src/transport/framing.rs:13-27 | writing a list puts its frames on the wire one after the other |
| Framing.Transfer | core/nexdesk-core/src/transport/framing.rs:11-48 | end to end, under every fragmentation of what was written: the list received is the list sent if and only if every message is within the limit |
| Framing.TruncationYieldsPrefix | core/nexdesk-core/src/transport/framing.rs:29-48 | cut anywhere, the stream yields exactly the messages wholly before the cut, then an error |
| InputEvents.DecodesOwnEncoding | core/nexdesk-core/src/input/mod.rs:20-81 | decoding an encoding, whatever follows it, returns the event |
| InputEvents.AcceptsExactly | core/nexdesk-core/src/input/mod.rs:50-90 | exactly the tags 0 to 4 with enough bytes are accepted, and which error the others get |
| InputEvents.EncodesWhatWasRead | core/nexdesk-core/src/input/mod.rs:20-93 | encoding an accepted input returns the bytes consumed, the button-down byte made 0 or 1 |
| InputEvents.OnTheWire | core/nexdesk-core/src/input/mod.rs:20-48 | the bytes of one event of each kind, its fields and their bytes in order |
| ClientSession.Session.Handle | core/nexdesk-core/src/session/mod.rs:46-76 | a legal event moves the state, an illegal one is refused and changes nothing |
| ClientSession.LegalExactly | core/nexdesk-core/src/session/mod.rs:48-72 | event by event, from which states it is legal and where it leads |
| ClientSession.Backoff.NextDelay | core/nexdesk-core/src/transport/backoff.rs:24-32 | retry k waits min(max, base * 2^min(k, 20)), and the attempt counter saturates |
| ClientSession.SaturationIsHarmless | core/nexdesk-core/src/transport/backoff.rs:29 | saturating the product never shows below the cap |
| ClientSession.SaturatedAttempt | core/nexdesk-core/src/transport/backoff.rs:27-30 | saturating the attempt counter never shows in a delay |
| ClientSession.RetryDelaysGrow | core/nexdesk-core/src/transport/backoff.rs:24-32 | delays never shrink and never pass the cap |
| ClientSession.DelaysDouble | core/nexdesk-core/src/transport/backoff.rs:24-32 | the delays start at the base and double until the cap or the twentieth doubling |
| ClientSession.RunHandshakeAndHeartbeat | core/nexdesk-core/src/bin/common/mod.rs:64-105 | prints ESTABLISHED when established, one line per message received before the first event that ends the session, CLOSED when closed; the shutdown ended it exactly if no failed ping and no failed receive came before the first shutdown or the end; a failed hello leaves the session handshaking |
| ClientSession.ShutdownEndsExactlyWhen | core/nexdesk-core/src/bin/common/mod.rs:83-98 | a meeting is ended by the shutdown if and only if every failed ping or receive among its events comes after a shutdown |
| ClientSession.PrintsWhatItReceives | core/nexdesk-core/src/bin/common/mod.rs:91-95 | the lines in between are the messages received before the first event that ends the session, in order |
| ClientSession.StopsExactlyWhen | core/nexdesk-core/src/bin/client.rs:88-90 | the client stops after an attempt if and only if it was interrupted, or met and nothing failed before the shutdown |
| ClientSession.RunDirectSession | core/nexdesk-core/src/bin/client.rs:100-117 | from a fresh or a stale handshake alike, ends closed on success and handshaking on failure; `HandshakeStart` is legal exactly in the fresh case |
| ClientSession.RunClient | core/nexdesk-core/src/bin/client.rs:69-98 | for any pattern of failures and shutdowns: the lines printed; one loop head per attempt gone on after, and at each the session idle, handshaking or closed; an attempt's `Connect` and `HandshakeStart` are legal exactly unless the attempt before failed; established whenever ESTABLISHED is printed and closed whenever CLOSED is |
| ClientSession.RunAttempt | core/nexdesk-core/src/bin/client.rs:73-90 | one round of the loop: what it prints, the state it leaves, whether the client stops after it; its first two events are refused exactly in a stale handshake |
| ClientSession.PrintsRoundByRound | core/nexdesk-core/src/bin/client.rs:72-97 | the whole output, for any attempts: up to the first attempt the client stops after, each attempt's lines and the delay of its retry in turn, then that attempt's lines, then SHUTDOWN |
| ClientSession.EndsWithShutdown | core/nexdesk-core/src/bin/client.rs:97 | SHUTDOWN is printed last and once |
| ClientSession.SleepsEveryDelay | core/nexdesk-core/src/bin/client.rs:91-94 | the time slept is the sum of the retry delays, however many attempts succeeded |
| ClientSession.RetriesSleep | core/nexdesk-core/src/bin/client.rs:69-95 | k retries, k at least 5, sleep 6200 + 5000 (k - 5) ms |
| ClientSession.DelayAsDocumentedExactlyWhen | core/nexdesk-core/src/transport/backoff.rs:23-38 | in every run, the delay after attempt k is that of a count restarted by each success, as documented, if and only if none of the attempts from max(1, k - 4) to k succeeded |
| ClientSession.DocumentedDelays | core/nexdesk-core/src/transport/backoff.rs:23-38 | calling `reset` after every successful attempt gives exactly the delays the documented count says |
| ClientSession.RestartsOnlyAtFirst | core/nexdesk-core/src/bin/client.rs:69-95 | after a successful attempt the delay is the base delay if and only if that was the first attempt of all |
| ClientSession.SuccessDoesNotRestart | core/nexdesk-core/src/bin/client.rs:69-95 | a failed attempt, then a successful one: the delays are 200 and 400 ms |
| ClientSession.DelaysOfTranscript | core/nexdesk-core/src/bin/client.rs:88-94 | one delay is printed per attempt the client goes on after, the k-th being that of retry k whatever succeeded before |
| Registry.Store.UpsertDevice | backend/internal/registry/registry.go:33-54 | registers, or updates the key for the same owner; refuses another owner and changes nothing; no device changes hands |
| Registry.Store.AuthorizeDevice | backend/internal/registry/registry.go:85-98 | adds the pair, idempotently, and nothing else |
| Rendezvous.RunStatement | backend/internal/rendezvous/rendezvous.go:72-206 | a call run statement by statement on the store's tables does exactly the steps the interleaving theorems are about |
| Rendezvous.LookupPeer | backend/internal/rendezvous/rendezvous.go:115-141 | refuses an empty id, and finds exactly the registered devices, with their key and their presence |
| Rendezvous.StepKeepsInv | backend/internal/rendezvous/rendezvous.go:72-206 | every statement of every RPC, interleaved freely and failing before or after its effect, keeps what each call has checked and why each row and token exists |
| Rendezvous.OwnerNeverChanges | backend/internal/registry/registry.go:36-54 | once registered, a device has the same owner in every later state |
| Rendezvous.RegisteredByOwner | backend/internal/rendezvous/rendezvous.go:72-90 | every registration that took effect named a device and a key, and was its owner's |
| Rendezvous.GrantsComeFromOwners | backend/internal/rendezvous/rendezvous.go:143-162 | every access-list row (o, a) was inserted for the owner of o |
| Rendezvous.TokensAreAuthorized | backend/internal/rendezvous/rendezvous.go:164-192 | every session token (r, t) names both devices and went to the owner of r, after the owner of t authorized r |
| Rendezvous.TokenRepliesAreAuthorized | backend/internal/rendezvous/rendezvous.go:164-206 | a call that answers with a token answers its own request, and the authorization stands |
| Rendezvous.OwnerIsServed | backend/internal/rendezvous/rendezvous.go:72-206 | a call of the owner of the device it acts for, and for a session one under a standing grant, can always go on until it is answered, at most three of its own statements answer it, and it is accepted or given the token, whatever other calls do, unless the database fails |
| Rendezvous.OwnersCallIsDeserving | backend/internal/rendezvous/rendezvous.go:72-194 | every such call, of each of the four RPCs, can begin, and is from its admission on one that will be served |
| Rendezvous.GrantIsHonoured | backend/internal/rendezvous/rendezvous.go:164-206 | an owner's request under a standing authorization can always go on until it is answered, at most three of its own steps answer it, and the answer is the token, whatever other calls do, unless the database fails |
| RpcAnswers.AnswersExactly | backend/internal/rendezvous/rendezvous.go:72-206 | every answer in every run: Unauthenticated exactly without a caller, InvalidArgument exactly on a missing id or key, and otherwise exactly what the call's own statements found, one after the other, in the tables as they stood when each ran; Internal exactly if one failed |
| RpcAnswers.AcceptedForOwnersOnly | backend/internal/rendezvous/rendezvous.go:72-162 | over every run, an accepted call was authenticated and complete, its user owns the device it acted for, and the pair it authorized stands |
| RpcAnswers.WritesOnlyWhatItAsks | backend/internal/rendezvous/rendezvous.go:72-206 | one step writes a registration's own row, whole, exactly if it is not refused, an authorization's own pair, and nothing else |
| Rendezvous.KeyIsLatestRegistered | backend/internal/registry/registry.go:39-54 | the stored key is that of the last registration that took effect |
| GrantedSessions.PairedStreamsWereGranted | backend/internal/relay/relay.go:68-108 | in every run of relay and RPCs: streams paired under a token issued for a requester and a target were both verified to just these devices before it expired, and it had gone to the owner of the requester after the owner of the target authorized the requester |
| GrantedSessions.VerifiedByStep | backend/internal/relay/relay.go:68-71 | a stream past verification was verified by one step of its own handler, at that step's instant |
| GrantedSessions.TokenNamesOneSession | backend/internal/rendezvous/token.go:43-48 | one token is never issued for two different pairs of devices |
| I420.PackPlane | codec/src/decoder.cpp:103-115 | one packing loop writes the rows tightly from its pointer on and nothing else |
| I420.PackPlanes | codec/src/decoder.cpp:103-115 | the three loops write Y, U, V one behind the other and nothing behind them |
| I420.Pack | codec/src/decoder.cpp:94-122 | the buffer has the promised size, starts with the tight planes, and for even dimensions is exactly them |
| I420.PackedFits | codec/src/decoder.cpp:96-115 | the loops never leave the buffer, and fill it if and only if both dimensions are even or both are 1 |
| I420.SizeFits | codec/src/decoder.cpp:96 | the size computation does not overflow 64 bits |
| I420.TightPixel | codec/include/nexdesk/codec.h:59-66 | what tight means: pixel (row, col) is byte row * cols + col |
| I420.CopyRow | codec/src/encoder.cpp:76-91 | copying one row makes one more row agree with the source and leaves the padding |
| I420.FillPicture | codec/src/encoder.cpp:76-91 | after the two loops the picture shows the source's pixels and the padding is as before |
| I420.RepackSource | codec/src/decoder.cpp:94-115 | packing what the encoder's copy laid out returns the source's pixels, for any strides |

## Left out

- TLS, QUIC, TCP, gRPC and tonic internals, x264 and libavcodec, bcrypt, JWT and TOTP: library behaviour.
- Pairing across several relay instances: each instance has its own map, and only one is modelled.
- RelayProgress.TwoPeersMeet: a third stream that presents the two peers' own token is excluded, since it may take the place of one of them; the client's outbound buffer of 16 and the network between client and handler are one step, so a hello sent is at once in the handler's inbox; heartbeats after the hello are not part of the play.
- RelayBytes.CounterIsForwardedBytes: the source's counter is a floating-point number; the model's is exact, so sums beyond 2^53 bytes, where it rounds, are not covered.
- The race of a send against a peer whose handler has returned: a frame sent then may succeed or fail in the model, whatever gRPC does.
- SessionToken.VerifiesUntilExpiry: expiry instants outside the range Go's `time.Time` can hold as Unix seconds are excluded, and so is any strength of the MAC.
- Jitter.BufferIsOutstanding: `duration_since` of a later instant is taken as zero, and a build with overflow checks, which would panic after delivering sequence number 2^64 - 1, is not modelled.
- ReassemblyDelivery.DeliveredOnce: a frame that is evicted is not covered; its later chunks open it anew without the pieces that were dropped.
- Cancellation of a half-finished `recv` inside the client's select: reads are modelled as running to completion.
- ClientSession.RunClient: the attempts and the shutdown are an input of finite length, and what peers send is uninterpreted; `run_relay_session` and the host program are not modelled.
- Negative line sizes, which libavcodec allows for flipped pictures, and failure of `malloc`.
- I420.FillPicture: the source's planes and the picture's planes are separate arrays, as the callers pass them.
- The encoder's concatenation of NAL units: its correctness rests on a size contract of x264 that the repository does not state.
- Heartbeat's presence record and audit logging: neither reads nor changes the two tables. Writing the presence is a statement of the model that may fail; what it writes is not modelled, and `LookupPeer` takes the presence as given.
- GrantedSessions.PairedStreamsWereGranted: tokens that were not issued are not covered, since nothing is assumed of the MAC.
- Rows of the device table without an owner, which an upgraded database may hold.
- `refresh.go`: rotation selects without locking, so single use holds only per whole transaction.
- Migrations, rate limiting, backpressure, configuration, shutdown, keepalive and the credential store: small, and would add only easy members.
- HTTP handlers, metrics endpoints, the Electron application, the native addon, generated code, dashboards and build files.
