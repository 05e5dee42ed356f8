/**
 The relay of backend/internal/relay/relay.go as a transition system: every
 handler goroutine of `Service.Stream` runs concurrently with the others, and one
 atomic step is one lock section, one channel operation, one stream operation or
 one metrics update.  Clients and their contexts are the environment.
 */
module RelayService {
  import opened Prelude

  type Token = string
  type StreamId = nat
  type Frame = seq<Byte>

  datatype Status = Fine | InvalidArgument | Unauthenticated | Internal | ContextError | StreamError

  /** Where one round of `pipeOneDirection` is: before Recv, after it, after the byte counter. */
  datatype PipePc = AtRecv | AtCount(frame: Frame) | AtSend(frame: Frame)

  /** The program counter of one handler goroutine. */
  datatype Phase =
    | Arrived                         // metadata not yet examined
    | AtLock                          // headers flushed, about to take `mu`
    | AtSendMatched(peer: StreamId)   // took the peer's entry, about to send on `peer.matched`
    | AtMetrics(peer: StreamId)       // sent, about to count the pairing
    | InSelect                        // registered, waiting for a match or for its context
    | AtCancelLock                    // context branch chosen, about to take `mu`
    | Piping(dst: StreamId, pc: PipePc)
    | Returned(status: Status)

  /**
   One stream and its handler.  `matched` is the content of the waiter's one-slot
   channel.  `verified` to `sends` other than `headerSent` and `matched` only record
   history: whether `Verify` accepted the token, whether the handler went through the
   first lock section, whose entry it took, who took its entry, whether it removed its
   own entry, and how many sends its channel has seen.  `sent`, `received` and `written`
   record the frames its client sent, its handler received, and other handlers wrote to it.
   */
  datatype Stream = Stream(
    values: seq<Token>,
    phase: Phase,
    ctxDone: bool,
    verified: bool,
    headerSent: bool,
    matched: seq<StreamId>,
    locked: bool,
    takes: Option<StreamId>,
    takenBy: Option<StreamId>,
    left: bool,
    sends: nat,
    inbox: seq<Frame>,
    sent: seq<Frame>,
    received: seq<Frame>,
    written: seq<Frame>
  ) {
    /** The session token presented as metadata; empty when it is missing. */
    function Token(): Token {
      if |values| == 0 then "" else values[0]
    }
  }

  datatype Metrics = Metrics(pairings: int, active: int, bytes: int)

  datatype State = State(waiting: map<Token, StreamId>, streams: map<StreamId, Stream>, metrics: Metrics)

  const INIT := State(map[], map[], Metrics(0, 0, 0))

  function NewStream(values: seq<Token>): Stream {
    Stream(values, Arrived, false, false, false, [], false, None, None, false, 0, [], [], [], [])
  }

  datatype Action =
    | Arrive(h: StreamId, values: seq<Token>)                  // a client opens a stream
    | ClientSends(h: StreamId, frame: Frame)
    | ContextDone(h: StreamId)
    | Validate(h: StreamId, verified: bool, headerOk: bool)    // metadata, Verify, SendHeader
    | TakeLock(h: StreamId)
    | SendMatched(h: StreamId)
    | CountPairing(h: StreamId)
    | ReceiveMatch(h: StreamId)
    | ChooseDone(h: StreamId)
    | CancelLock(h: StreamId)
    | Recv(h: StreamId)
    | RecvFails(h: StreamId, eof: bool)
    | CountBytes(h: StreamId)
    | SendFrame(h: StreamId)
    | SendFails(h: StreamId)

  /** What the handler's own program counter, channel, inbox and context allow. */
  predicate Ready(x: Stream, a: Action) {
    match a
    case Arrive(_, _) => false
    case ClientSends(_, _) => true
    case ContextDone(_) => true
    case Validate(_, _, _) => x.phase.Arrived?
    case TakeLock(_) => x.phase.AtLock?
    case SendMatched(_) => x.phase.AtSendMatched?
    case CountPairing(_) => x.phase.AtMetrics?
    case ReceiveMatch(_) => x.phase.InSelect? && |x.matched| > 0
    case ChooseDone(_) => x.phase.InSelect? && x.ctxDone
    case CancelLock(_) => x.phase.AtCancelLock?
    case Recv(_) => x.phase.Piping? && x.phase.pc.AtRecv? && |x.inbox| > 0
    case RecvFails(_, _) => x.phase.Piping? && x.phase.pc.AtRecv?
    case CountBytes(_) => x.phase.Piping? && x.phase.pc.AtCount?
    case SendFrame(_) => x.phase.Piping? && x.phase.pc.AtSend?
    case SendFails(_) => x.phase.Piping? && x.phase.pc.AtSend?
  }

  /** The other stream an action touches: the channel or the stream sent to. */
  function Target(x: Stream, a: Action): Option<StreamId> {
    if a.SendMatched? && x.phase.AtSendMatched? then Some(x.phase.peer)
    else if a.SendFrame? && x.phase.Piping? then Some(x.phase.dst)
    else None
  }

  predicate EntryExists(s: State, token: Token) {
    token in s.waiting ==> s.waiting[token] in s.streams
  }

  /**
   When an action can happen.  A channel send waits for room in the one-slot buffer;
   an entry of `waiting` is a pointer to a waiter that exists.
   */
  predicate Enabled(s: State, a: Action) {
    if a.Arrive? then a.h !in s.streams
    else
      && a.h in s.streams && Ready(s.streams[a.h], a)
      && (a.TakeLock? ==> EntryExists(s, s.streams[a.h].Token()))
      && var target := Target(s.streams[a.h], a);
         target.Some? ==>
           target.value in s.streams && (a.SendMatched? ==> |s.streams[target.value].matched| < 1)
  }

  /** The outcome of examining metadata, verifying the token and flushing headers. */
  function Validated(x: Stream, verified: bool, headerOk: bool): Stream {
    if |x.values| == 0 || x.values[0] == "" then x.(phase := Returned(InvalidArgument))
    else if !verified then x.(phase := Returned(Unauthenticated))
    else if !headerOk then x.(phase := Returned(Internal), verified := true)
    else x.(phase := AtLock, verified := true, headerSent := true)
  }

  /** The first lock section: take the entry under the token, or register. */
  function LockSection(waiting: map<Token, StreamId>, token: Token, h: StreamId): map<Token, StreamId> {
    if token in waiting then waiting - {token} else waiting[token := h]
  }

  /** The second lock section: remove the entry only when it is still this handler's. */
  function CancelSection(waiting: map<Token, StreamId>, token: Token, h: StreamId): map<Token, StreamId> {
    if token in waiting && waiting[token] == h then waiting - {token} else waiting
  }

  /** A handler returns. */
  function Leave(x: Stream, status: Status): Stream { x.(phase := Returned(status)) }

  /** What an action outside the lock does to the handler's own stream. */
  function Local(x: Stream, a: Action): Stream
    requires Ready(x, a) && !a.TakeLock? && !a.CancelLock?
  {
    match a
    case ClientSends(_, frame) => x.(inbox := x.inbox + [frame], sent := x.sent + [frame])
    case ContextDone(_) => x.(ctxDone := true)
    case Validate(_, verified, headerOk) => Validated(x, verified, headerOk)
    case SendMatched(_) => x.(phase := AtMetrics(x.phase.peer))
    case CountPairing(_) => x.(phase := Piping(x.phase.peer, AtRecv))
    case ReceiveMatch(_) => x.(phase := Piping(x.matched[0], AtRecv), matched := x.matched[1..])
    case ChooseDone(_) => x.(phase := AtCancelLock)
    case Recv(_) =>
      x.(phase := Piping(x.phase.dst, AtCount(x.inbox[0])),
         inbox := x.inbox[1..], received := x.received + [x.inbox[0]])
    case RecvFails(_, eof) => Leave(x, if eof then Fine else StreamError)
    case CountBytes(_) => x.(phase := Piping(x.phase.dst, AtSend(x.phase.pc.frame)))
    case SendFrame(_) => x.(phase := Piping(x.phase.dst, AtRecv))
    case SendFails(_) => Leave(x, StreamError)
  }

  /** What a send by handler `h`, whose stream is `x`, does to the stream `y` it sends to. */
  function Delivered(y: Stream, h: StreamId, x: Stream, a: Action): Stream
    requires Ready(x, a) && (a.SendMatched? || a.SendFrame?)
  {
    if a.SendMatched? then y.(matched := y.matched + [h], sends := y.sends + 1)
    else y.(written := y.written + [x.phase.pc.frame])
  }

  /** The pairing counter, the gauge of second sides inside their pipe (a deferred decrement), and the byte counter. */
  function Measured(m: Metrics, x: Stream, a: Action): Metrics
    requires Ready(x, a)
  {
    if a.CountPairing? then m.(pairings := m.pairings + 1, active := m.active + 1)
    else if a.CountBytes? then m.(bytes := m.bytes + |x.phase.pc.frame|)
    else if (a.RecvFails? || a.SendFails?) && x.takes.Some? then m.(active := m.active - 1)
    else m
  }

  function Locked(s: State, h: StreamId): State
    requires h in s.streams && EntryExists(s, s.streams[h].Token())
  {
    var x := s.streams[h];
    var t := x.Token();
    if t in s.waiting then
      var p := s.waiting[t];
      var y := s.streams[p];
      s.(waiting := LockSection(s.waiting, t, h),
         streams := s.streams[p := y.(takenBy := Some(h))]
                             [h := x.(phase := AtSendMatched(p), locked := true, takes := Some(p))])
    else
      s.(waiting := LockSection(s.waiting, t, h),
         streams := s.streams[h := x.(phase := InSelect, locked := true)])
  }

  function Cancelled(s: State, h: StreamId): State
    requires h in s.streams
  {
    var x := s.streams[h];
    var t := x.Token();
    s.(waiting := CancelSection(s.waiting, t, h),
       streams := s.streams[h := Leave(x, ContextError).(left := t in s.waiting && s.waiting[t] == h)])
  }

  function Apply(s: State, a: Action): State
    requires Enabled(s, a)
  {
    if a.Arrive? then s.(streams := s.streams[a.h := NewStream(a.values)])
    else if a.TakeLock? then Locked(s, a.h)
    else if a.CancelLock? then Cancelled(s, a.h)
    else
      var x := s.streams[a.h];
      var target := Target(x, a);
      s.(streams := (if target.Some?
                     then s.streams[target.value := Delivered(s.streams[target.value], a.h, x, a)]
                     else s.streams)[a.h := Local(x, a)],
         metrics := Measured(s.metrics, x, a))
  }

  function ByteCount(frames: seq<Frame>): nat {
    if frames == [] then 0 else ByteCount(frames[..|frames| - 1]) + |frames[|frames| - 1]|
  }

  // ----- runs -----

  predicate IsRun(s: State, acts: seq<Action>)
    decreases |acts|
  {
    acts == [] || (Enabled(s, acts[0]) && IsRun(Apply(s, acts[0]), acts[1..]))
  }

  function After(s: State, acts: seq<Action>): State
    requires IsRun(s, acts)
    decreases |acts|
  {
    if acts == [] then s else After(Apply(s, acts[0]), acts[1..])
  }
}
