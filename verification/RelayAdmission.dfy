/**
 How handlers enter and leave the relay, from the steps they took: the examination of
 metadata, token and headers decides who reaches the lock, and the last step of a
 handler decides its status.
 */
module RelayAdmission {
  import opened Prelude
  import opened RelayService
  import opened RelayPairing
  import opened RelayTheorems

  /** What the examination with these two outcomes made of the stream, then and ever after. */
  ghost predicate Decided(x: Stream, verified: bool, headerOk: bool) {
    && !x.phase.Arrived?
    && (x.phase == Returned(InvalidArgument) <==> x.Token() == "")
    && (x.phase == Returned(Unauthenticated) <==> x.Token() != "" && !verified)
    && (x.phase == Returned(Internal) <==> x.Token() != "" && verified && !headerOk)
    && (x.headerSent <==> x.Token() != "" && verified && headerOk)
    && (x.locked || Partner(x).Some? ==> x.headerSent)
  }

  lemma ExaminationDecides(s: State, h: StreamId, verified: bool, headerOk: bool)
    requires Inv(s) && Enabled(s, Validate(h, verified, headerOk))
    ensures Decided(Apply(s, Validate(h, verified, headerOk)).streams[h], verified, headerOk)
  {
    hide Inv;
    HandlerPhase(s, h);
    hide Ready, Measured;
  }

  lemma LocalKeepsDecided(x: Stream, a: Action, verified: bool, headerOk: bool)
    requires Decided(x, verified, headerOk) && PhaseOk(x) && Ready(x, a) && !a.TakeLock? && !a.CancelLock?
    ensures Decided(Local(x, a), verified, headerOk)
  {
    if IsPipeStep(a) {
      PipeKeepsDecided(x, a, verified, headerOk);
      hide Local, Decided;
    }
  }

  lemma PipeKeepsDecided(x: Stream, a: Action, verified: bool, headerOk: bool)
    requires Decided(x, verified, headerOk) && PhaseOk(x) && Ready(x, a) && IsPipeStep(a)
    ensures Decided(Local(x, a), verified, headerOk)
  {}

  lemma OwnStepKeepsDecided(s: State, a: Action, verified: bool, headerOk: bool)
    requires Inv(s) && Enabled(s, a) && a.h in s.streams && Decided(s.streams[a.h], verified, headerOk)
    ensures a.h in Apply(s, a).streams && Decided(Apply(s, a).streams[a.h], verified, headerOk)
  {
    hide Inv;
    HandlerPhase(s, a.h);
    if !a.TakeLock? && !a.CancelLock? {
      LocalKeepsDecided(s.streams[a.h], a, verified, headerOk);
      hide Local, Decided, PhaseOk;
    }
  }

  /** The stream is where it was; its entry may have been taken. */
  ghost predicate StayedPut(x: Stream, x': Stream) {
    && x'.phase == x.phase && x'.values == x.values && x'.headerSent == x.headerSent
    && x'.locked == x.locked && x'.takes == x.takes && (x'.takenBy == x.takenBy || x.locked)
  }

  lemma OthersStayPut(s: State, a: Action, h: StreamId)
    requires Inv(s) && Enabled(s, a) && h in s.streams && h != a.h
    ensures h in Apply(s, a).streams && StayedPut(s.streams[h], Apply(s, a).streams[h])
  {
    if a.TakeLock? {
      EntryIsLocked(s, s.streams[a.h].Token());
      LockLeavesOthers(s, a, h);
    } else {
      UnlockedLeavesOthers(s, a, h);
    }
    hide Inv, Apply, Enabled, StayedPut;
  }

  lemma LockLeavesOthers(s: State, a: Action, h: StreamId)
    requires Enabled(s, a) && h in s.streams && h != a.h && a.TakeLock?
    requires var t := s.streams[a.h].Token(); t in s.waiting ==> s.streams[s.waiting[t]].locked
    ensures h in Apply(s, a).streams && StayedPut(s.streams[h], Apply(s, a).streams[h])
  {}

  lemma UnlockedLeavesOthers(s: State, a: Action, h: StreamId)
    requires Enabled(s, a) && h in s.streams && h != a.h && !a.TakeLock?
    ensures h in Apply(s, a).streams && StayedPut(s.streams[h], Apply(s, a).streams[h])
  {
    hide Local, Ready, Measured;
  }

  lemma EntryIsLocked(s: State, t: Token)
    requires Inv(s)
    ensures t in s.waiting ==> s.waiting[t] in s.streams && s.streams[s.waiting[t]].locked
  {
    if t in s.waiting {
      assert OkAt(s, s.waiting[t]);
    }
  }

  lemma StepKeepsDecided(s: State, a: Action, h: StreamId, verified: bool, headerOk: bool)
    requires Inv(s) && Enabled(s, a) && h in s.streams && Decided(s.streams[h], verified, headerOk)
    ensures h in Apply(s, a).streams && Decided(Apply(s, a).streams[h], verified, headerOk)
  {
    hide Inv;
    if a.h == h {
      OwnStepKeepsDecided(s, a, verified, headerOk);
    } else {
      OthersStayPut(s, a, h);
    }
    hide Apply, Enabled;
  }

  lemma {:induction false} RunKeepsDecided(s: State, acts: seq<Action>, h: StreamId, verified: bool, headerOk: bool)
    requires Inv(s) && IsRun(s, acts) && h in s.streams && Decided(s.streams[h], verified, headerOk)
    ensures h in After(s, acts).streams && Decided(After(s, acts).streams[h], verified, headerOk)
    decreases |acts|
  {
    hide Inv, Decided, Apply, Enabled;
    if acts != [] {
      StepKeepsDecided(s, acts[0], h, verified, headerOk);
      StepKeepsInv(s, acts[0]);
      RunKeepsDecided(Apply(s, acts[0]), acts[1..], h, verified, headerOk);
    }
  }

  lemma {:induction false} ValidationDecidesFrom(s: State, acts: seq<Action>, j: nat)
    requires Inv(s) && IsRun(s, acts) && j < |acts| && acts[j].Validate?
    ensures acts[j].h in After(s, acts).streams
    ensures Decided(After(s, acts).streams[acts[j].h], acts[j].verified, acts[j].headerOk)
    decreases |acts|
  {
    hide Inv, Decided;
    var a := acts[0];
    StepKeepsInv(s, a);
    if j == 0 {
      ExaminationDecides(s, a.h, a.verified, a.headerOk);
      RunKeepsDecided(Apply(s, a), acts[1..], a.h, a.verified, a.headerOk);
    } else {
      ValidationDecidesFrom(Apply(s, a), acts[1..], j - 1);
    }
  }

  /**
   In every run, a handler that examined its stream returned InvalidArgument exactly when
   the token is missing, Unauthenticated exactly when it is there and did not verify, and
   Internal exactly when it verified and the headers could not be flushed; otherwise, and
   only then, the headers are out; and only then can it have registered or be paired.
   */
  lemma {:induction false} ValidationDecides(acts: seq<Action>, j: nat)
    requires IsRun(INIT, acts) && j < |acts| && acts[j].Validate?
    ensures var s, verified, headerOk := After(INIT, acts), acts[j].verified, acts[j].headerOk;
            && acts[j].h in s.streams
            && var x := s.streams[acts[j].h];
               var missing := |x.values| == 0 || x.values[0] == "";
               && !x.phase.Arrived?
               && (x.phase == Returned(InvalidArgument) <==> missing)
               && (x.phase == Returned(Unauthenticated) <==> !missing && !verified)
               && (x.phase == Returned(Internal) <==> !missing && verified && !headerOk)
               && (x.headerSent <==> !missing && verified && headerOk)
               && (x.locked || Partner(x).Some? ==> x.headerSent)
  {
    InitInv();
    ValidationDecidesFrom(INIT, acts, j);
  }

  lemma LeavingArrivedValidates(s: State, a: Action, h: StreamId)
    requires Inv(s) && Enabled(s, a) && h in Apply(s, a).streams && !Apply(s, a).streams[h].phase.Arrived?
    requires h in s.streams ==> s.streams[h].phase.Arrived?
    ensures a.Validate? && a.h == h && h in s.streams
  {
    if h in s.streams && a.h != h {
      OthersStayPut(s, a, h);
    }
    hide Inv;
  }

  lemma {:induction false} ExaminedByStep(s: State, acts: seq<Action>, h: StreamId) returns (j: nat)
    requires Inv(s) && IsRun(s, acts) && h in After(s, acts).streams && !After(s, acts).streams[h].phase.Arrived?
    requires h in s.streams ==> s.streams[h].phase.Arrived?
    ensures j < |acts| && acts[j].Validate? && acts[j].h == h
    decreases |acts|
  {
    hide Inv, Apply, Enabled;
    var s1 := Apply(s, acts[0]);
    StepKeepsInv(s, acts[0]);
    if h in s1.streams && !s1.streams[h].phase.Arrived? {
      LeavingArrivedValidates(s, acts[0], h);
      j := 0;
    } else {
      j := ExaminedByStep(s1, acts[1..], h);
      j := j + 1;
    }
  }

  /** Whoever registered, took an entry or is paired was examined, and both the token and the headers passed. */
  lemma {:induction false} AdmittedByValidation(acts: seq<Action>, h: StreamId) returns (j: nat)
    requires IsRun(INIT, acts) && h in After(INIT, acts).streams
    requires var x := After(INIT, acts).streams[h]; x.locked || Partner(x).Some?
    ensures j < |acts| && acts[j] == Validate(h, true, true) && After(INIT, acts).streams[h].Token() != ""
  {
    ReachableInv(acts);
    AdmittedHasLeftArrived(After(INIT, acts), h);
    InitInv();
    j := ExaminedByStep(INIT, acts, h);
    hide Inv;
    ValidationDecides(acts, j);
  }

  lemma AdmittedHasLeftArrived(s: State, h: StreamId)
    requires Inv(s) && h in s.streams && (s.streams[h].locked || Partner(s.streams[h]).Some?)
    ensures !s.streams[h].phase.Arrived?
  {
    HandlerPhase(s, h);
  }

  // ----- how handlers return -----

  lemma ReturnedIsFinal(s: State, a: Action, h: StreamId)
    requires Inv(s) && Enabled(s, a) && h in s.streams && s.streams[h].phase.Returned?
    ensures h in Apply(s, a).streams && Apply(s, a).streams[h].phase == s.streams[h].phase
    ensures a.h == h ==> a.ClientSends? || a.ContextDone?
  {
    if a.h != h {
      OthersStayPut(s, a, h);
    }
    hide Inv;
  }

  lemma {:induction false} ReturnedStays(s: State, acts: seq<Action>, h: StreamId)
    requires Inv(s) && IsRun(s, acts) && h in s.streams && s.streams[h].phase.Returned?
    ensures h in After(s, acts).streams && After(s, acts).streams[h].phase == s.streams[h].phase
    decreases |acts|
  {
    hide Inv, Apply, Enabled;
    if acts != [] {
      ReturnedIsFinal(s, acts[0], h);
      StepKeepsInv(s, acts[0]);
      ReturnedStays(Apply(s, acts[0]), acts[1..], h);
    }
  }

  /** In every run a handler whose receive or send fails, or that leaves by its context, returns just that. */
  lemma {:induction false} ReturnsAsItEnded(s: State, acts: seq<Action>, j: nat)
    requires Inv(s) && IsRun(s, acts) && j < |acts|
    ensures var a, s' := acts[j], After(s, acts);
            && (a.RecvFails? ==>
                  a.h in s'.streams && s'.streams[a.h].phase == Returned(if a.eof then Fine else StreamError))
            && (a.SendFails? ==> a.h in s'.streams && s'.streams[a.h].phase == Returned(StreamError))
            && (a.CancelLock? ==> a.h in s'.streams && s'.streams[a.h].phase == Returned(ContextError))
    decreases |acts|
  {
    hide Inv;
    var a := acts[0];
    StepKeepsInv(s, a);
    if j > 0 {
      ReturnsAsItEnded(Apply(s, a), acts[1..], j - 1);
    } else if a.RecvFails? || a.SendFails? || a.CancelLock? {
      ReturnedStays(Apply(s, a), acts[1..], a.h);
    }
  }

  /** A new stream may arrive with any metadata; any client may send, any context end, any examination go either way. */
  ghost predicate EnvironmentFree(s: State, h: StreamId) {
    if h !in s.streams then forall values :: Enabled(s, Arrive(h, values))
    else
      && Enabled(s, ContextDone(h)) && (forall frame :: Enabled(s, ClientSends(h, frame)))
      && (forall v, ok :: Enabled(s, Validate(h, v, ok)) <==> s.streams[h].phase.Arrived?)
  }

  /** In its select a handler may take either branch that is ready. */
  ghost predicate SelectFree(s: State, h: StreamId)
    requires h in s.streams
  {
    var x := s.streams[h];
    && (Enabled(s, ChooseDone(h)) <==> x.phase.InSelect? && x.ctxDone)
    && (Enabled(s, ReceiveMatch(h)) <==> x.phase.InSelect? && x.matched != [])
    && (Enabled(s, CancelLock(h)) <==> x.phase.AtCancelLock?)
  }

  /** A receive may deliver what was sent, or fail at any time; a send may succeed or fail. */
  ghost predicate PipeFree(s: State, h: StreamId)
    requires h in s.streams
  {
    var x := s.streams[h];
    && (x.phase.Piping? && x.phase.pc.AtRecv? ==>
          (forall eof :: Enabled(s, RecvFails(h, eof))) && (Enabled(s, Recv(h)) <==> x.inbox != []))
    && (x.phase.Piping? && x.phase.pc.AtSend? ==> Enabled(s, SendFrame(h)) && Enabled(s, SendFails(h)))
  }

  lemma EnvironmentIsFree(s: State, h: StreamId)
    ensures EnvironmentFree(s, h)
  {}

  lemma SelectIsFree(s: State, h: StreamId)
    requires h in s.streams
    ensures SelectFree(s, h)
  {}

  lemma PipeIsFree(s: State, h: StreamId)
    requires h in s.streams && (s.streams[h].phase.Piping? ==> s.streams[h].phase.dst in s.streams)
    ensures PipeFree(s, h)
  {}

  /** The frames that the client of `h` sent, in order. */
  function SentBy(acts: seq<Action>, h: StreamId): seq<Frame> {
    if acts == [] then []
    else (if acts[0].ClientSends? && acts[0].h == h then [acts[0].frame] else []) + SentBy(acts[1..], h)
  }

  lemma {:induction false} StepHearsClient(s: State, a: Action, h: StreamId)
    requires Enabled(s, a) && h in s.streams
    ensures h in Apply(s, a).streams
    ensures var x, x' := s.streams[h], Apply(s, a).streams[h];
            && x'.sent == x.sent + SentBy([a], h) && (x'.ctxDone <==> x.ctxDone || a == ContextDone(h))
            && x'.values == x.values
  {
    assert SentBy([a], h) == (if a.ClientSends? && a.h == h then [a.frame] else []) + SentBy([], h);
    if a.h == h {
      OwnStepHearsClient(s, a);
    } else {
      ForeignStepHearsNothing(s, a, h);
    }
    hide Apply, Enabled;
  }

  lemma OwnStepHearsClient(s: State, a: Action)
    requires Enabled(s, a) && a.h in s.streams
    ensures a.h in Apply(s, a).streams
    ensures var x, x' := s.streams[a.h], Apply(s, a).streams[a.h];
            && x'.sent == (if a.ClientSends? then x.sent + [a.frame] else x.sent)
            && (x'.ctxDone <==> x.ctxDone || a.ContextDone?) && x'.values == x.values
  {
    hide Measured;
    if !a.TakeLock? && !a.CancelLock? {
      LocalHearsClient(s.streams[a.h], a);
      hide Local;
    }
  }

  lemma LocalHearsClient(x: Stream, a: Action)
    requires Ready(x, a) && !a.TakeLock? && !a.CancelLock?
    ensures var x' := Local(x, a);
            && x'.sent == (if a.ClientSends? then x.sent + [a.frame] else x.sent)
            && (x'.ctxDone <==> x.ctxDone || a.ContextDone?) && x'.values == x.values
  {
    if IsPipeStep(a) {
      PipeHearsNothing(x, a);
      hide Local;
    }
  }

  lemma PipeHearsNothing(x: Stream, a: Action)
    requires Ready(x, a) && IsPipeStep(a)
    ensures var x' := Local(x, a); x'.sent == x.sent && x'.ctxDone == x.ctxDone && x'.values == x.values
  {}

  lemma ForeignStepHearsNothing(s: State, a: Action, h: StreamId)
    requires Enabled(s, a) && h in s.streams && h != a.h
    ensures h in Apply(s, a).streams
    ensures var x, x' := s.streams[h], Apply(s, a).streams[h];
            x'.sent == x.sent && x'.ctxDone == x.ctxDone && x'.values == x.values
  {
    hide Local, Measured;
  }

  lemma {:induction false} HearsClientFrom(s: State, acts: seq<Action>, h: StreamId)
    requires IsRun(s, acts) && h in s.streams
    ensures h in After(s, acts).streams
    ensures var x, x' := s.streams[h], After(s, acts).streams[h];
            && x'.sent == x.sent + SentBy(acts, h) && (x'.ctxDone <==> x.ctxDone || ContextDone(h) in acts)
            && x'.values == x.values
    decreases |acts|
  {
    hide Apply, Enabled;
    if acts != [] {
      StepHearsClient(s, acts[0], h);
      HearsClientFrom(Apply(s, acts[0]), acts[1..], h);
      assert SentBy([acts[0]], h) + SentBy([], h) + SentBy(acts[1..], h) == SentBy(acts, h);
      assert ContextDone(h) in acts <==> acts[0] == ContextDone(h) || ContextDone(h) in acts[1..];
    }
  }

  /** From its arrival on a stream keeps its metadata, and has sent and been cancelled just as the run says. */
  lemma {:induction false} HearsItsClient(s: State, acts: seq<Action>, h: StreamId, values: seq<Token>)
    requires IsRun(s, [Arrive(h, values)] + acts)
    ensures var s' := After(s, [Arrive(h, values)] + acts);
            && h in s'.streams && s'.streams[h].values == values
            && s'.streams[h].sent == SentBy(acts, h) && (s'.streams[h].ctxDone <==> ContextDone(h) in acts)
  {
    var all := [Arrive(h, values)] + acts;
    assert all[0] == Arrive(h, values) && all[1..] == acts;
    HearsClientFrom(Apply(s, all[0]), acts, h);
  }

  /** Nothing outside the relay is restrained: in every reachable state all these choices are open. */
  lemma {:induction false} AnythingCanHappen(acts: seq<Action>, h: StreamId)
    requires IsRun(INIT, acts)
    ensures var s := After(INIT, acts); EnvironmentFree(s, h) && (h in s.streams ==> SelectFree(s, h) && PipeFree(s, h))
  {
    hide Inv, EnvironmentFree, SelectFree, PipeFree, Enabled;
    ReachableInv(acts);
    var s := After(INIT, acts);
    EnvironmentIsFree(s, h);
    if h in s.streams {
      SelectIsFree(s, h);
      if s.streams[h].phase.Piping? {
        PipeHasTarget(s, h);
      }
      PipeIsFree(s, h);
    }
  }
}
