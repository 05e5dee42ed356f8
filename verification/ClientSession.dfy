/**
 The reconnecting client of core/nexdesk-core/src/bin/client.rs: the session state
 machine (session/mod.rs), the retry delays (transport/backoff.rs), the handshake and
 heartbeat loop (bin/common/mod.rs), and the loop in `main` that drives all three.
 Durations are nanoseconds.
 */
module ClientSession {
  import opened Prelude

  // ----- the session state machine -----

  datatype SessionState = Idle | Connecting | Handshaking | Established | Closing | Closed

  datatype SessionEvent = Connect | HandshakeStart | HandshakeComplete | Disconnect | CloseDone | Fail

  /** The legal transitions. */
  function Next(from: SessionState, event: SessionEvent): Option<SessionState> {
    match (from, event)
    case (Idle, Connect) => Some(Connecting)
    case (Connecting, HandshakeStart) => Some(Handshaking)
    case (Connecting, Fail) => Some(Closed)
    case (Handshaking, HandshakeComplete) => Some(Established)
    case (Handshaking, Fail) => Some(Closed)
    case (Established, Disconnect) => Some(Closing)
    case (Established, Fail) => Some(Closing)
    case (Closing, CloseDone) => Some(Closed)
    case (Closed, Connect) => Some(Connecting)
    case _ => None
  }

  /** The legal transitions, event by event: nothing else is legal, and each leads to one state. */
  lemma LegalExactly(from: SessionState, event: SessionEvent)
    ensures Next(from, event) ==
              match event
              case Connect => if from in {Idle, Closed} then Some(Connecting) else None
              case HandshakeStart => if from == Connecting then Some(Handshaking) else None
              case HandshakeComplete => if from == Handshaking then Some(Established) else None
              case Disconnect => if from == Established then Some(Closing) else None
              case CloseDone => if from == Closing then Some(Closed) else None
              case Fail =>
                if from in {Connecting, Handshaking} then Some(Closed)
                else if from == Established then Some(Closing) else None
  {}

  class Session {
    var state: SessionState

    constructor ()
      ensures state == Idle
    {
      state := Idle;
    }

    /** An illegal event is refused and leaves the state alone. */
    method Handle(event: SessionEvent) returns (r: Result<SessionState, (SessionState, SessionEvent)>)
      modifies this
      ensures match Next(old(state), event)
              case Some(next) => state == next && r == Ok(next)
              case None => state == old(state) && r == Err((old(state), event))
    {
      var next := Next(state, event);
      if next.None? {
        return Err((state, event));
      }
      state := next.value;
      return Ok(state);
    }
  }

  // ----- the retry delays -----

  const MILLISECOND: nat := 1_000_000

  /** The longest `Duration`: u64 seconds and all nanoseconds below one more. */
  const DURATION_MAX: nat := (TWO_64 - 1) * SECOND + SECOND - 1

  type Duration = d: int | 0 <= d <= DURATION_MAX

  function Pow2(e: nat): nat { if e == 0 then 1 else 2 * Pow2(e - 1) }

  lemma {:induction false} Pow2Mono(d: nat, e: nat)
    requires d <= e
    ensures 0 < Pow2(d) <= Pow2(e)
  {
    if d < e {
      Pow2Mono(d, e - 1);
    } else if e > 0 {
      Pow2Mono(d - 1, e - 1);
    }
  }

  /** `1u32.checked_shl(e).unwrap_or(u32::MAX)`. */
  function Multiplier(e: nat): nat { if e < 32 then Pow2(e) else TWO_32 - 1 }

  function SaturatingMul(base: Duration, m: nat): Duration {
    if base * m <= DURATION_MAX then base * m else DURATION_MAX
  }

  class Backoff {
    const base: Duration
    const max: Duration
    var attempt: U32

    constructor (base: Duration, max: Duration)
      ensures this.base == base && this.max == max && attempt == 0
    {
      this.base, this.max, attempt := base, max, 0;
    }

    method NextDelay() returns (delay: Duration)
      modifies this
      ensures delay == RetryDelay(base, max, old(attempt))
      ensures attempt == Min(old(attempt) + 1, TWO_32 - 1)
    {
      var exponent := Min(attempt, 20);
      var multiplier := Multiplier(exponent);
      delay := Min(SaturatingMul(base, multiplier), max);
      SaturationIsHarmless(base, max, multiplier);
      attempt := Min(attempt + 1, TWO_32 - 1);
    }

    method Reset()
      modifies this
      ensures attempt == 0
    {
      attempt := 0;
    }
  }

  /** The delay before retry `k`, counting from 0, with no saturation: doubled each time, at most 20 times, capped. */
  function RetryDelay(base: Duration, max: Duration, k: nat): Duration {
    var doubled: nat := base * Pow2(Min(k, 20));
    Min(doubled, max)
  }

  /** The delays double from the base until they meet the cap or have doubled twenty times, and then stay. */
  lemma DelaysDouble(base: Duration, max: Duration, k: nat)
    ensures RetryDelay(base, max, 0) == Min(base, max)
    ensures RetryDelay(base, max, k + 1)
            == if k < 20 then Min(2 * RetryDelay(base, max, k), max) else RetryDelay(base, max, k)
  {
    if k < 20 {
      assert base * Pow2(k + 1) == 2 * (base * Pow2(k));
    }
  }

  /** Saturating the product at the longest duration cannot show below the cap. */
  lemma SaturationIsHarmless(base: Duration, max: Duration, m: nat)
    ensures Min(SaturatingMul(base, m), max) == Min(base * m, max)
  {}

  /** The attempt counter saturates far beyond the point where it stops mattering. */
  lemma SaturatedAttempt(base: Duration, max: Duration, k: nat)
    ensures RetryDelay(base, max, Min(k, TWO_32 - 1)) == RetryDelay(base, max, k)
  {
    assert Min(Min(k, TWO_32 - 1), 20) == Min(k, 20);
  }

  lemma RetryDelaysGrow(base: Duration, max: Duration, j: nat, k: nat)
    requires j <= k
    ensures RetryDelay(base, max, j) <= RetryDelay(base, max, k) <= max
  {
    Pow2Mono(Min(j, 20), Min(k, 20));
    MulMono(Pow2(Min(j, 20)), Pow2(Min(k, 20)), base);
    hide Pow2;
  }

  // ----- one session -----

  type Message = seq<Byte>

  /** What the select loop sees next. */
  datatype SelectEvent = Tick(sendOk: bool) | Received(bytes: Message) | RecvFailed | ShutdownFired

  /** How one connection attempt goes; a meeting's events end with the shutdown when nothing ended it before. */
  datatype Encounter =
    | ConnectFails
    | TlsFails
    | HelloSendFails
    | HelloRecvFails
    | HelloUndecodable
    | Meets(peer: string, events: seq<SelectEvent>)

  /** One attempt, and whether the shutdown was triggered by the time it returned. */
  datatype Attempt = Attempt(how: Encounter, interrupted: bool)

  /** The lines the client prints; ESTABLISHED and CLOSED are recorded with the session's state. */
  datatype Line =
    | EstablishedLine(peer: string, state: SessionState)
    | RecvLine(bytes: Message)
    | ClosedLine(peer: string, state: SessionState)
    | SessionEnded
    | SessionError
    | Reconnecting(delay: Duration)
    | ShutdownLine

  /** The received messages up to the event that ends the session. */
  function MeetingLines(events: seq<SelectEvent>): seq<Line> {
    if events == [] then []
    else match events[0]
      case Tick(sendOk) => if sendOk then MeetingLines(events[1..]) else []
      case Received(bytes) => [RecvLine(bytes)] + MeetingLines(events[1..])
      case _ => []
  }

  predicate EndedByShutdown(events: seq<SelectEvent>) {
    events == [] || match events[0]
      case Tick(sendOk) => sendOk && EndedByShutdown(events[1..])
      case Received(_) => EndedByShutdown(events[1..])
      case RecvFailed => false
      case ShutdownFired => true
  }

  /** What one attempt prints, in a correct session. */
  function EncounterLines(a: Encounter): seq<Line> {
    if a.Meets?
    then [EstablishedLine(a.peer, Established)] + MeetingLines(a.events) + [ClosedLine(a.peer, Closed), SessionEnded]
    else [SessionError]
  }

  /** After the attempt the client stops: the shutdown ended the session, or was triggered meanwhile. */
  predicate StopsAfter(a: Attempt) { a.interrupted || (a.how.Meets? && EndedByShutdown(a.how.events)) }

  /** No failed ping and no failed receive comes before the first shutdown, or at all if there is none. */
  ghost predicate NothingFailsFirst(events: seq<SelectEvent>) {
    forall i | 0 <= i < |events| && events[i] in {Tick(false), RecvFailed} ::
      exists j :: 0 <= j < i && events[j] == ShutdownFired
  }

  /** The bytes received, in order. */
  function BytesReceived(events: seq<SelectEvent>): seq<Message> {
    if events == [] then []
    else (if events[0].Received? then [events[0].bytes] else []) + BytesReceived(events[1..])
  }

  /** The first event that ends a session, or the end of the list. */
  ghost predicate EndsAt(events: seq<SelectEvent>, n: nat) {
    && n <= |events|
    && (forall i | 0 <= i < n :: events[i] !in {Tick(false), RecvFailed, ShutdownFired})
    && (n < |events| ==> events[n] in {Tick(false), RecvFailed, ShutdownFired})
  }

  lemma {:induction false} ShutdownEndsExactlyWhen(events: seq<SelectEvent>)
    ensures EndedByShutdown(events) <==> NothingFailsFirst(events)
  {
    if events != [] {
      var rest := events[1..];
      ShutdownEndsExactlyWhen(rest);
      match events[0] {
        case ShutdownFired =>
          assert forall i | 0 <= i < |events| && events[i] in {Tick(false), RecvFailed} ::
                   0 < i && events[0] == ShutdownFired;
        case Tick(sendOk) =>
          if sendOk {
            FailsFirstLater(events);
          } else {
            assert events[0] == Tick(false);
          }
        case Received(_) =>
          FailsFirstLater(events);
        case RecvFailed =>
          assert events[0] == RecvFailed;
      }
    }
  }

  lemma FailsFirstLater(events: seq<SelectEvent>)
    requires events != [] && events[0] !in {Tick(false), RecvFailed, ShutdownFired}
    ensures NothingFailsFirst(events) <==> NothingFailsFirst(events[1..])
  {
    var rest := events[1..];
    if NothingFailsFirst(events) {
      forall i | 0 <= i < |rest| && rest[i] in {Tick(false), RecvFailed}
        ensures exists j :: 0 <= j < i && rest[j] == ShutdownFired
      {
        assert events[i + 1] == rest[i];
        var j :| 0 <= j < i + 1 && events[j] == ShutdownFired;
        assert rest[j - 1] == ShutdownFired;
      }
    }
    if NothingFailsFirst(rest) {
      forall i | 0 <= i < |events| && events[i] in {Tick(false), RecvFailed}
        ensures exists j :: 0 <= j < i && events[j] == ShutdownFired
      {
        assert rest[i - 1] == events[i];
        var j :| 0 <= j < i - 1 && rest[j] == ShutdownFired;
        assert events[j + 1] == ShutdownFired;
      }
    }
  }

  function RecvLines(messages: seq<Message>): seq<Line> {
    seq(|messages|, i requires 0 <= i < |messages| => RecvLine(messages[i]))
  }

  /** Between ESTABLISHED and CLOSED comes one line for each message received before the session's end. */
  lemma {:induction false} PrintsWhatItReceives(events: seq<SelectEvent>, n: nat)
    requires EndsAt(events, n)
    ensures MeetingLines(events) == RecvLines(BytesReceived(events[..n]))
  {
    if n > 0 {
      var rest := events[1..];
      assert forall i | 0 <= i < n - 1 :: rest[i] == events[i + 1];
      assert n - 1 < |rest| ==> rest[n - 1] == events[n];
      PrintsWhatItReceives(rest, n - 1);
      assert events[..n][1..] == rest[..n - 1] && events[..n][0] == events[0];
    } else if events != [] {
      assert events[0] in {Tick(false), RecvFailed, ShutdownFired};
    }
  }

  /** When the client stops: interrupted meanwhile, or its meeting was ended by the shutdown and not by a failure. */
  lemma StopsExactlyWhen(a: Attempt)
    ensures StopsAfter(a) <==> a.interrupted || (a.how.Meets? && NothingFailsFirst(a.how.events))
  {
    if a.how.Meets? {
      ShutdownEndsExactlyWhen(a.how.events);
    }
  }

  method RunHandshakeAndHeartbeat(session: Session, attempt: Encounter)
    returns (ok: bool, lines: seq<Line>, fired: bool)
    requires session.state == Handshaking
    requires attempt.HelloSendFails? || attempt.HelloRecvFails? || attempt.HelloUndecodable? || attempt.Meets?
    modifies session
    ensures ok <==> attempt.Meets?
    ensures session.state == if ok then Closed else Handshaking
    ensures ok ==> lines + [SessionEnded] == EncounterLines(attempt) && (fired <==> NothingFailsFirst(attempt.events))
    ensures ok ==> forall n: nat | n <= |attempt.events| && EndsAt(attempt.events, n) ::
              lines == [EstablishedLine(attempt.peer, Established)] + RecvLines(BytesReceived(attempt.events[..n]))
                       + [ClosedLine(attempt.peer, Closed)]
    ensures !ok ==> lines == [] && !fired
  {
    hide NothingFailsFirst, EndsAt, RecvLines, BytesReceived;
    if !attempt.Meets? {
      return false, [], false;
    }
    var _ := session.Handle(HandshakeComplete);
    lines := [EstablishedLine(attempt.peer, session.state)];
    var events := attempt.events;
    fired := false;
    while true
      invariant session.state == Established && !fired
      invariant lines + MeetingLines(events)
                == [EstablishedLine(attempt.peer, Established)] + MeetingLines(attempt.events)
      invariant EndedByShutdown(events) == EndedByShutdown(attempt.events)
      decreases |events|
    {
      if |events| == 0 {
        fired := true;
        break;
      }
      var event := events[0];
      match event {
        case ShutdownFired =>
          fired := true;
          break;
        case Tick(sendOk) =>
          if !sendOk {
            break;
          }
        case Received(bytes) =>
          assert lines + ([RecvLine(bytes)] + MeetingLines(events[1..]))
                 == lines + [RecvLine(bytes)] + MeetingLines(events[1..]);
          lines := lines + [RecvLine(bytes)];
        case RecvFailed =>
          break;
      }
      events := events[1..];
    }
    var _ := session.Handle(Disconnect);
    var _ := session.Handle(CloseDone);
    lines := lines + [ClosedLine(attempt.peer, session.state)];
    ok := true;
    ShutdownEndsExactlyWhen(attempt.events);
    forall n: nat | n <= |attempt.events| && EndsAt(attempt.events, n)
      ensures MeetingLines(attempt.events) == RecvLines(BytesReceived(attempt.events[..n]))
    {
      PrintsWhatItReceives(attempt.events, n);
    }
  }

  /** `run_direct_session`: a failed attempt leaves the session in its handshake. */
  method RunDirectSession(session: Session, attempt: Encounter)
    returns (ok: bool, lines: seq<Line>, fired: bool, started: bool)
    requires session.state == Connecting || session.state == Handshaking
    modifies session
    ensures started <==> old(session.state) == Connecting
    ensures ok <==> attempt.Meets?
    ensures session.state == if ok then Closed else Handshaking
    ensures lines + [if ok then SessionEnded else SessionError] == EncounterLines(attempt)
    ensures fired <==> attempt.Meets? && NothingFailsFirst(attempt.events)
  {
    hide NothingFailsFirst, EncounterLines;
    var step := session.Handle(HandshakeStart);
    started := step.Ok?;
    if attempt.ConnectFails? || attempt.TlsFails? {
      EncountersWithoutMeeting(attempt);
      return false, [], false, started;
    }
    if !attempt.Meets? {
      EncountersWithoutMeeting(attempt);
    }
    ok, lines, fired := RunHandshakeAndHeartbeat(session, attempt);
  }

  lemma EncountersWithoutMeeting(a: Encounter)
    requires !a.Meets?
    ensures EncounterLines(a) == [SessionError]
  {}

  // ----- the reconnect loop -----

  const BASE_DELAY: Duration := 200 * MILLISECOND
  const MAX_DELAY: Duration := 5 * SECOND

  /** The session's state at the head of the loop after the attempts made so far. */
  function HeadState(made: seq<Attempt>): SessionState {
    if made == [] then Idle else if made[|made| - 1].how.Meets? then Closed else Handshaking
  }

  /** Everything printed when `retries` delays have gone by and these attempts are still to come. */
  function Transcript(attempts: seq<Attempt>, retries: nat): seq<Line> {
    if attempts == [] then [ShutdownLine]
    else if StopsAfter(attempts[0]) then EncounterLines(attempts[0].how) + [ShutdownLine]
    else
      var delay := RetryDelay(BASE_DELAY, MAX_DELAY, retries);
      EncounterLines(attempts[0].how) + ([Reconnecting(delay)] + Transcript(attempts[1..], retries + 1))
  }

  /** Everything the client prints over these attempts. */
  function Printed(attempts: seq<Attempt>): seq<Line> { Transcript(attempts, 0) }

  /** How many of the attempts are followed by a retry: those before the first that the client stops after. */
  function RetriesMade(attempts: seq<Attempt>): nat {
    if attempts == [] || StopsAfter(attempts[0]) then 0 else 1 + RetriesMade(attempts[1..])
  }

  /** How often the loop's head is passed: before the first attempt and after each retry. */
  function LoopHeads(attempts: seq<Attempt>): nat { RetriesMade(attempts) + 1 }

  /** What the round of attempt `k` prints when a retry follows that is the `k + from`-th. */
  function Round(attempts: seq<Attempt>, from: nat, k: nat): seq<Line>
    requires k < |attempts|
  {
    EncounterLines(attempts[k].how) + [Reconnecting(RetryDelay(BASE_DELAY, MAX_DELAY, from + k))]
  }

  function Rounds(attempts: seq<Attempt>, from: nat, n: nat): seq<seq<Line>>
    requires n <= |attempts|
  {
    seq(n, k requires 0 <= k < n => Round(attempts, from, k))
  }

  lemma {:induction false} PrintsRoundByRoundFrom(attempts: seq<Attempt>, from: nat, n: nat)
    requires n <= |attempts| && (n < |attempts| ==> StopsAfter(attempts[n]))
    requires forall k | 0 <= k < n :: !StopsAfter(attempts[k])
    ensures RetriesMade(attempts) == n
    ensures Transcript(attempts, from)
            == Flatten(Rounds(attempts, from, n))
               + ((if n < |attempts| then EncounterLines(attempts[n].how) else []) + [ShutdownLine])
    decreases n
  {
    hide StopsAfter, EncounterLines, RetryDelay;
    if n > 0 {
      var rest := attempts[1..];
      assert forall k | 0 <= k < n - 1 :: rest[k] == attempts[k + 1];
      assert n < |attempts| ==> rest[n - 1] == attempts[n];
      PrintsRoundByRoundFrom(rest, from + 1, n - 1);
      assert Rounds(attempts, from, n)[1..] == Rounds(rest, from + 1, n - 1);
      assert Rounds(attempts, from, n)[0] == Round(attempts, from, 0);
      var own, retry := EncounterLines(attempts[0].how), [Reconnecting(RetryDelay(BASE_DELAY, MAX_DELAY, from))];
      var later := Flatten(Rounds(rest, from + 1, n - 1));
      var last := (if n < |attempts| then EncounterLines(attempts[n].how) else []) + [ShutdownLine];
      assert own + (retry + (later + last)) == own + retry + later + last;
    }
  }

  /**
   With `n` the first attempt the client stops after, or the number of all of them: it
   prints what each attempt before `n` gives rise to and the delay of its retry, in turn,
   then what attempt `n` gives rise to, then the end.
   */
  lemma {:induction false} PrintsRoundByRound(attempts: seq<Attempt>, n: nat)
    requires n <= |attempts| && forall k | 0 <= k < n ::
               !attempts[k].interrupted && (attempts[k].how.Meets? ==> !NothingFailsFirst(attempts[k].how.events))
    requires n < |attempts| ==>
               attempts[n].interrupted || (attempts[n].how.Meets? && NothingFailsFirst(attempts[n].how.events))
    ensures RetriesMade(attempts) == n
    ensures Printed(attempts)
            == Flatten(Rounds(attempts, 0, n))
               + ((if n < |attempts| then EncounterLines(attempts[n].how) else []) + [ShutdownLine])
  {
    hide StopsAfter, EncounterLines, NothingFailsFirst;
    forall k | 0 <= k <= n && k < |attempts| ensures StopsAfter(attempts[k]) <==> k == n {
      StopsExactlyWhen(attempts[k]);
    }
    PrintsRoundByRoundFrom(attempts, 0, n);
  }

  /** ESTABLISHED is printed by an established session, and CLOSED by a closed one. */
  predicate TellsTheTruth(line: Line) {
    && (line.EstablishedLine? ==> line.state == Established)
    && (line.ClosedLine? ==> line.state == Closed)
  }

  /** One round of the loop in `main`, up to its test of the shutdown, and whether its first two events were legal. */
  method RunAttempt(session: Session, attempt: Attempt)
    returns (lines: seq<Line>, stop: bool, connected: bool, started: bool)
    requires session.state in {Idle, Handshaking, Closed}
    modifies session
    ensures lines == EncounterLines(attempt.how) && (stop <==> StopsAfter(attempt))
    ensures session.state == if attempt.how.Meets? then Closed else Handshaking
    ensures connected == started == (old(session.state) != Handshaking)
  {
    hide EncounterLines, EndedByShutdown, NothingFailsFirst;
    StopsExactlyWhen(attempt);
    var step := session.Handle(Connect);
    connected := step.Ok?;
    var ok, printed, fired;
    ok, printed, fired, started := RunDirectSession(session, attempt.how);
    lines := printed + [if ok then SessionEnded else SessionError];
    stop := fired || attempt.interrupted;
  }

  /**
   `main`.  The attempts come from the environment; the shutdown is triggered during
   one of them, or, when they run out, in the sleep that follows the last.  The results
   of `handle` decide nothing, as in the source, which discards them, and `reset` is never
   called; `legal` records whether an attempt's `Connect` and `HandshakeStart` were legal,
   which both are unless the attempt before failed.
   */
  method RunClient(attempts: seq<Attempt>)
    returns (lines: seq<Line>, heads: seq<SessionState>, legal: seq<bool>)
    ensures lines == Printed(attempts)
    ensures forall i | 0 <= i < |lines| :: TellsTheTruth(lines[i])
    ensures |heads| == LoopHeads(attempts) <= |attempts| + 1
    ensures forall i | 0 <= i < |heads| :: heads[i] == HeadState(attempts[..i])
    ensures forall i | 0 <= i < |heads| :: heads[i] in {Idle, Handshaking, Closed}
    ensures |legal| == Min(LoopHeads(attempts), |attempts|)
    ensures forall i | 0 <= i < |legal| :: legal[i] <==> i == 0 || attempts[i - 1].how.Meets?
  {
    hide OnCourse, Finishes, EncounterLines, StopsAfter, RetryDelay, TellsTheTruth, Printed, RetriesMade;
    Begins(attempts);
    var backoff := new Backoff(BASE_DELAY, MAX_DELAY);
    var session := new Session();
    var made := 0;
    lines, heads, legal := [], [session.state], [];
    while made < |attempts|
      invariant 0 <= made <= |attempts|
      invariant backoff.base == BASE_DELAY && backoff.max == MAX_DELAY && backoff.attempt == Min(made, TWO_32 - 1)
      invariant session.state
                == if made == 0 then Idle else if attempts[made - 1].how.Meets? then Closed else Handshaking
      invariant OnCourse(attempts, made, lines, heads) && |heads| == made + 1 && |legal| == made
      invariant forall i | 0 <= i < made :: legal[i] <==> i == 0 || attempts[i - 1].how.Meets?
    {
      var attempt := attempts[made];
      var printed, stop, connected, started := RunAttempt(session, attempt);
      legal := legal + [connected && started];
      GoesOn(attempts, made, lines, heads, session.state);
      lines := lines + printed;
      if stop {
        lines := lines + [ShutdownLine];
        FinishedRight(attempts, lines, heads);
        return;
      }
      var delay := backoff.NextDelay();
      SaturatedAttempt(BASE_DELAY, MAX_DELAY, made);
      lines := lines + [Reconnecting(delay)];
      heads := heads + [session.state];
      made := made + 1;
    }
    assert (lines + [ShutdownLine])[..|lines|] == lines;
    lines := lines + [ShutdownLine];
    RanOut(attempts, lines, heads);
    FinishedRight(attempts, lines, heads);
  }

  /** After `made` attempts: what is printed so far and what follows make up the transcript, and the heads are right. */
  ghost predicate OnCourse(attempts: seq<Attempt>, made: nat, lines: seq<Line>, heads: seq<SessionState>) {
    && made <= |attempts| && |heads| == made + 1
    && lines + Transcript(attempts[made..], made) == Transcript(attempts, 0)
    && RetriesMade(attempts) == made + RetriesMade(attempts[made..])
    && forall i | 0 <= i < |heads| :: heads[i] == HeadState(attempts[..i])
  }

  ghost predicate Finishes(attempts: seq<Attempt>, lines: seq<Line>, heads: seq<SessionState>) {
    && lines == Printed(attempts) && |heads| == RetriesMade(attempts) + 1 <= |attempts| + 1
    && forall i | 0 <= i < |heads| :: heads[i] == HeadState(attempts[..i])
  }

  lemma Begins(attempts: seq<Attempt>)
    ensures OnCourse(attempts, 0, [], [Idle])
  {
    assert attempts[0..] == attempts && [] + Transcript(attempts, 0) == Transcript(attempts, 0);
  }

  lemma GoesOn(attempts: seq<Attempt>, made: nat, lines: seq<Line>, heads: seq<SessionState>, state: SessionState)
    requires OnCourse(attempts, made, lines, heads) && made < |attempts|
    requires state == if attempts[made].how.Meets? then Closed else Handshaking
    ensures var own, retry := EncounterLines(attempts[made].how), RetryDelay(BASE_DELAY, MAX_DELAY, made);
            if StopsAfter(attempts[made]) then Finishes(attempts, lines + own + [ShutdownLine], heads)
            else OnCourse(attempts, made + 1, lines + own + [Reconnecting(retry)], heads + [state])
  {
    hide EncounterLines, StopsAfter, RetryDelay;
    var attempt, now := attempts[made], attempts[made..];
    assert attempts[..made + 1][made] == attempt;
    assert now[0] == attempt && now[1..] == attempts[made + 1..];
    var own, retry := EncounterLines(attempt.how), [Reconnecting(RetryDelay(BASE_DELAY, MAX_DELAY, made))];
    var later := Transcript(now[1..], made + 1);
    assert lines + (own + [ShutdownLine]) == lines + own + [ShutdownLine];
    assert lines + (own + (retry + later)) == lines + own + retry + later;
  }

  lemma RanOut(attempts: seq<Attempt>, lines: seq<Line>, heads: seq<SessionState>)
    requires lines != [] && lines[|lines| - 1] == ShutdownLine
    requires OnCourse(attempts, |attempts|, lines[..|lines| - 1], heads)
    ensures Finishes(attempts, lines, heads)
  {
    assert attempts[|attempts|..] == [];
    assert lines == lines[..|lines| - 1] + [ShutdownLine];
  }

  lemma {:induction false} FinishedRight(attempts: seq<Attempt>, lines: seq<Line>, heads: seq<SessionState>)
    requires Finishes(attempts, lines, heads)
    ensures lines == Printed(attempts) && forall i | 0 <= i < |lines| :: TellsTheTruth(lines[i])
    ensures |heads| == RetriesMade(attempts) + 1 <= |attempts| + 1
    ensures forall i | 0 <= i < |heads| :: heads[i] == HeadState(attempts[..i])
    ensures forall i | 0 <= i < |heads| :: heads[i] in {Idle, Handshaking, Closed}
  {
    PrintsTheTruth(attempts, 0);
  }

  lemma {:induction false} PrintsTheTruth(attempts: seq<Attempt>, retries: nat)
    ensures forall i | 0 <= i < |Transcript(attempts, retries)| :: TellsTheTruth(Transcript(attempts, retries)[i])
  {
    if attempts != [] {
      EncountersTellTheTruth(attempts[0].how);
      PrintsTheTruth(attempts[1..], retries + 1);
    }
  }

  lemma EncountersTellTheTruth(a: Encounter)
    ensures forall i | 0 <= i < |EncounterLines(a)| ::
              TellsTheTruth(EncounterLines(a)[i]) && !EncounterLines(a)[i].Reconnecting?
  {
    if a.Meets? {
      MeetingOnlyReceives(a.events);
    }
  }

  lemma {:induction false} MeetingOnlyReceives(events: seq<SelectEvent>)
    ensures forall i | 0 <= i < |MeetingLines(events)| :: MeetingLines(events)[i].RecvLine?
  {
    if events != [] {
      MeetingOnlyReceives(events[1..]);
    }
  }

  /** The time slept over a transcript. */
  function Slept(lines: seq<Line>): nat {
    if lines == [] then 0
    else (if lines[0].Reconnecting? then lines[0].delay else 0) + Slept(lines[1..])
  }

  lemma {:induction false} SleptAppend(a: seq<Line>, b: seq<Line>)
    ensures Slept(a + b) == Slept(a) + Slept(b)
  {
    if a == [] {
      assert a + b == b;
    } else {
      SleptAppend(a[1..], b);
      assert (a + b)[1..] == a[1..] + b;
    }
  }

  lemma {:induction false} MeetingsDoNotSleep(events: seq<SelectEvent>)
    ensures Slept(MeetingLines(events)) == 0
  {
    if events != [] {
      MeetingsDoNotSleep(events[1..]);
      if events[0].Received? {
        assert MeetingLines(events)[1..] == MeetingLines(events[1..]);
      }
    }
  }

  lemma EncountersDoNotSleep(a: Encounter)
    ensures Slept(EncounterLines(a)) == 0
  {
    if a.Meets? {
      var first, last := [EstablishedLine(a.peer, Established)], [ClosedLine(a.peer, Closed), SessionEnded];
      MeetingsDoNotSleep(a.events);
      SleptAppend(first + MeetingLines(a.events), last);
      SleptAppend(first, MeetingLines(a.events));
      assert Slept(last[1..]) == 0 && first[1..] == [];
    }
  }

  /** The sum of the delays before `count` retries, the first of them retry number `from`. */
  function TotalDelay(from: nat, count: nat): nat
    decreases count
  {
    if count == 0 then 0 else RetryDelay(BASE_DELAY, MAX_DELAY, from) + TotalDelay(from + 1, count - 1)
  }

  lemma {:induction false} SleepsEveryDelay(attempts: seq<Attempt>, retries: nat)
    requires forall i | 0 <= i < |attempts| :: !StopsAfter(attempts[i])
    ensures Slept(Transcript(attempts, retries)) == TotalDelay(retries, |attempts|)
  {
    if attempts != [] {
      var own, rest := EncounterLines(attempts[0].how), Transcript(attempts[1..], retries + 1);
      var delay := [Reconnecting(RetryDelay(BASE_DELAY, MAX_DELAY, retries))];
      assert !StopsAfter(attempts[0]);
      SleepsEveryDelay(attempts[1..], retries + 1);
      EncountersDoNotSleep(attempts[0].how);
      SleptAppend(own, delay + rest);
      assert (delay + rest)[1..] == rest;
    }
  }

  /** From the sixth retry on the doubled delay is past the cap. */
  lemma {:induction false} CappedDelays(from: nat, count: nat)
    requires from >= 5
    ensures TotalDelay(from, count) == count * MAX_DELAY
    decreases count
  {
    if count > 0 {
      CappedDelays(from + 1, count - 1);
      CappedDelay(from);
      hide RetryDelay;
    }
  }

  lemma CappedDelay(k: nat)
    requires k >= 5
    ensures RetryDelay(BASE_DELAY, MAX_DELAY, k) == MAX_DELAY
  {
    assert Pow2(3) == 8;
    assert Pow2(5) == 32;
    Pow2Mono(5, Min(k, 20));
    hide Pow2;
  }

  /**
   Whatever succeeds or fails in between, `k` retries with `k` at least 5 sleep
   6200 ms for the first five and 5000 ms for each one after.
   */
  lemma {:induction false} RetriesSleep(attempts: seq<Attempt>)
    requires forall i | 0 <= i < |attempts| :: !StopsAfter(attempts[i])
    requires |attempts| >= 5
    ensures Slept(Printed(attempts)) == (6200 + 5000 * (|attempts| - 5)) * MILLISECOND
  {
    hide Slept, Transcript, TotalDelay;
    SleepsEveryDelay(attempts, 0);
    FirstFiveDelays(|attempts|);
    CappedDelays(5, |attempts| - 5);
  }

  lemma {:induction false} FirstFiveDelays(k: nat)
    requires k >= 5
    ensures TotalDelay(0, k) == 6200 * MILLISECOND + TotalDelay(5, k - 5)
  {
    assert Pow2(1) == 2 && Pow2(2) == 4;
    assert Pow2(3) == 8 && Pow2(4) == 16;
    var delay := (i: nat) => RetryDelay(BASE_DELAY, MAX_DELAY, i);
    assert TotalDelay(3, k - 3) == delay(3) + (delay(4) + TotalDelay(5, k - 5));
    assert TotalDelay(1, k - 1) == delay(1) + (delay(2) + TotalDelay(3, k - 3));
  }

  // ----- the delays against the documentation of `reset` -----

  /** The delays printed, in order. */
  function Delays(lines: seq<Line>): seq<Duration> {
    if lines == [] then []
    else if lines[0].Reconnecting? then [lines[0].delay] + Delays(lines[1..]) else Delays(lines[1..])
  }

  lemma {:induction false} DelaysAppend(a: seq<Line>, b: seq<Line>)
    ensures Delays(a + b) == Delays(a) + Delays(b)
  {
    if a == [] {
      assert a + b == b;
    } else {
      DelaysAppend(a[1..], b);
      assert (a + b)[1..] == a[1..] + b;
    }
  }

  lemma {:induction false} NoDelays(lines: seq<Line>)
    requires forall i | 0 <= i < |lines| :: !lines[i].Reconnecting?
    ensures Delays(lines) == []
  {
    if lines != [] {
      NoDelays(lines[1..]);
    }
  }

  lemma NoDelaysInEncounter(a: Encounter)
    ensures Delays(EncounterLines(a)) == []
  {
    EncountersTellTheTruth(a);
    hide EncounterLines, TellsTheTruth;
    NoDelays(EncounterLines(a));
  }

  /** The `k`-th delay printed is the one after attempt `k`, and is that of retry `k`, whatever succeeded before. */
  lemma {:induction false} DelaysOfTranscript(attempts: seq<Attempt>, retries: nat)
    ensures var delays := Delays(Transcript(attempts, retries));
            && |delays| == RetriesMade(attempts) <= |attempts|
            && forall k | 0 <= k < |delays| :: delays[k] == RetryDelay(BASE_DELAY, MAX_DELAY, retries + k)
  {
    if attempts == [] {
      NoDelays(Transcript(attempts, retries));
    } else {
      var own := EncounterLines(attempts[0].how);
      NoDelaysInEncounter(attempts[0].how);
      hide EncounterLines, RetryDelay;
      if StopsAfter(attempts[0]) {
        NoDelays([ShutdownLine]);
        DelaysAppend(own, [ShutdownLine]);
      } else {
        var delay := RetryDelay(BASE_DELAY, MAX_DELAY, retries);
        var rest := Transcript(attempts[1..], retries + 1);
        DelaysOfTranscript(attempts[1..], retries + 1);
        DelaysAppend(own, [Reconnecting(delay)] + rest);
        assert ([Reconnecting(delay)] + rest)[1..] == rest;
        assert Delays(Transcript(attempts, retries)) == [delay] + Delays(rest);
        hide Delays, Transcript;
      }
    }
  }

  /** The retry number after attempt `k` if the count started over with every success, as `reset` is documented to. */
  function DocumentedRetry(attempts: seq<Attempt>, k: nat): nat
    requires k < |attempts|
  {
    if k == 0 || attempts[k].how.Meets? then 0 else DocumentedRetry(attempts, k - 1) + 1
  }

  /** A client that calls `reset` after every successful attempt gets the delays of the count started over. */
  method DocumentedDelays(attempts: seq<Attempt>) returns (delays: seq<Duration>)
    ensures |delays| == |attempts|
    ensures forall k | 0 <= k < |attempts| ::
              delays[k] == RetryDelay(BASE_DELAY, MAX_DELAY, DocumentedRetry(attempts, k))
  {
    hide RetryDelay;
    var backoff := new Backoff(BASE_DELAY, MAX_DELAY);
    delays := [];
    for k := 0 to |attempts|
      invariant |delays| == k && backoff.base == BASE_DELAY && backoff.max == MAX_DELAY
      invariant backoff.attempt == if k == 0 then 0 else Min(DocumentedRetry(attempts, k - 1) + 1, TWO_32 - 1)
      invariant forall j | 0 <= j < k :: delays[j] == RetryDelay(BASE_DELAY, MAX_DELAY, DocumentedRetry(attempts, j))
    {
      if attempts[k].how.Meets? {
        backoff.Reset();
      }
      var delay := backoff.NextDelay();
      SaturatedAttempt(BASE_DELAY, MAX_DELAY, DocumentedRetry(attempts, k));
      delays := delays + [delay];
    }
  }

  lemma {:induction false} SinceSuccess(attempts: seq<Attempt>, k: nat)
    requires k < |attempts|
    ensures var d := DocumentedRetry(attempts, k);
            && d <= k && (forall j | k - d < j <= k :: !attempts[j].how.Meets?)
            && (d < k ==> attempts[k - d].how.Meets?)
  {
    if k > 0 && !attempts[k].how.Meets? {
      SinceSuccess(attempts, k - 1);
    }
  }

  lemma FirstDelays()
    ensures RetryDelay(BASE_DELAY, MAX_DELAY, 0) == BASE_DELAY == 200 * MILLISECOND
    ensures RetryDelay(BASE_DELAY, MAX_DELAY, 1) == 400 * MILLISECOND
    ensures RetryDelay(BASE_DELAY, MAX_DELAY, 2) == 800 * MILLISECOND
    ensures RetryDelay(BASE_DELAY, MAX_DELAY, 3) == 1600 * MILLISECOND
    ensures RetryDelay(BASE_DELAY, MAX_DELAY, 4) == 3200 * MILLISECOND
  {
    assert Pow2(0) == 1 && Pow2(1) == 2 && Pow2(2) == 4;
    assert Pow2(3) == 8 && Pow2(4) == 16;
  }

  /** Two retries wait equally long exactly when they are the same or both past the cap. */
  lemma SameDelayExactlyWhen(j: nat, k: nat)
    ensures RetryDelay(BASE_DELAY, MAX_DELAY, j) == RetryDelay(BASE_DELAY, MAX_DELAY, k) <==>
              j == k || (j >= 5 && k >= 5)
  {
    FirstDelays();
    if j >= 5 { CappedDelay(j); }
    if k >= 5 { CappedDelay(k); }
    hide RetryDelay;
  }

  /**
   The delay printed after attempt `k` is the documented one, counted from the last
   success, if and only if none of the last five attempts up to `k`, the first attempt
   of all not counted, succeeded.
   */
  lemma {:induction false} DelayAsDocumentedExactlyWhen(attempts: seq<Attempt>, k: nat)
    requires k < |Delays(Printed(attempts))|
    ensures k < |attempts|
    ensures Delays(Printed(attempts))[k] == RetryDelay(BASE_DELAY, MAX_DELAY, DocumentedRetry(attempts, k)) <==>
              forall j | Max(1, k - 4) <= j <= k :: !attempts[j].how.Meets?
  {
    DelaysOfTranscript(attempts, 0);
    SinceSuccess(attempts, k);
    var d := DocumentedRetry(attempts, k);
    SameDelayExactlyWhen(k, d);
    hide RetryDelay, Delays, Transcript;
    if d < k && d < 5 {
      assert Max(1, k - 4) <= k - d <= k;
    }
  }

  /** After a successful attempt the delay is the base delay, as documented, only if it was the first attempt of all. */
  lemma RestartsOnlyAtFirst(attempts: seq<Attempt>, k: nat)
    requires k < |Delays(Printed(attempts))|
    ensures k < |attempts|
    ensures attempts[k].how.Meets? ==> (Delays(Printed(attempts))[k] == BASE_DELAY <==> k == 0)
  {
    DelaysOfTranscript(attempts, 0);
    FirstDelays();
    SameDelayExactlyWhen(k, 0);
  }

  /** A failed attempt, then a successful one: the delay after the success is 400 ms, not the base delay again. */
  lemma SuccessDoesNotRestart(peer: string)
    ensures var attempts := [Attempt(ConnectFails, false), Attempt(Meets(peer, [RecvFailed]), false)];
            && DocumentedRetry(attempts, 1) == 0
            && Delays(Printed(attempts)) == [200 * MILLISECOND, 400 * MILLISECOND]
  {
    var attempts := [Attempt(ConnectFails, false), Attempt(Meets(peer, [RecvFailed]), false)];
    assert attempts[1..] == [attempts[1]] && attempts[1..][1..] == [];
    assert RetriesMade(attempts[1..][1..]) == 0 && RetriesMade(attempts[1..]) == 1;
    DelaysOfTranscript(attempts, 0);
    FirstDelays();
  }

  /** The transcript ends with SHUTDOWN, which is printed once. */
  lemma {:induction false} EndsWithShutdown(attempts: seq<Attempt>, retries: nat)
    ensures var lines := Transcript(attempts, retries);
            && lines != [] && lines[|lines| - 1] == ShutdownLine
            && forall i | 0 <= i < |lines| - 1 :: lines[i] != ShutdownLine
  {
    if attempts != [] {
      NoShutdownWithin(attempts[0].how);
      EndsWithShutdown(attempts[1..], retries + 1);
    }
  }

  lemma NoShutdownWithin(a: Encounter)
    ensures forall i | 0 <= i < |EncounterLines(a)| :: EncounterLines(a)[i] != ShutdownLine
  {
    if a.Meets? {
      MeetingOnlyReceives(a.events);
    }
  }
}
