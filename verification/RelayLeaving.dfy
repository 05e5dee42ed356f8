/** When a relay waiter that was taken can still leave by the context branch of its select. */
module RelayLeaving {
  import opened RelayService
  import opened RelayPairing
  import opened RelayTheorems

  /** The handler that took the entry of `h` is on its way to pipe into its stream, pipes, or has returned. */
  ghost predicate PartnerHeadsFor(s: State, h: StreamId)
    requires h in s.streams
  {
    && s.streams[h].takenBy.Some?
    && var p := s.streams[h].takenBy.value;
       && p != h && p in s.streams
       && match s.streams[p].phase
          case AtSendMatched(peer) => peer == h
          case AtMetrics(peer) => peer == h
          case Piping(dst, _) => dst == h
          case phase => phase.Returned?
  }

  lemma TakenWaiter(s: State, h: StreamId)
    requires Inv(s) && h in s.streams && s.streams[h].phase.InSelect? && s.streams[h].takenBy.Some?
    ensures s.streams[h].received == []
    ensures var t := s.streams[h].Token(); t in s.waiting ==> s.waiting[t] != h
    ensures PartnerHeadsFor(s, h)
  {
    assert OkAt(s, h);
    assert OkAt(s, s.streams[h].takenBy.value);
  }

  /** The handler of `h` has not left by the context branch of its select. */
  predicate StaysWith(s: State, h: StreamId) {
    h in s.streams && var x := s.streams[h];
    !x.ctxDone && !x.phase.AtCancelLock? && x.phase != Returned(ContextError)
  }

  lemma StepStaysWith(s: State, a: Action, h: StreamId)
    requires Enabled(s, a) && a != ContextDone(h) && StaysWith(s, h)
    ensures StaysWith(Apply(s, a), h)
  {
    if !a.Arrive? && !a.TakeLock? && !a.CancelLock? && a.h == h {
      LocalStaysWith(s.streams[h], a);
    }
    hide Local, Ready, Measured;
  }

  lemma LocalStaysWith(x: Stream, a: Action)
    requires Ready(x, a) && !a.TakeLock? && !a.CancelLock? && !a.ContextDone?
    requires !x.ctxDone && !x.phase.AtCancelLock? && x.phase != Returned(ContextError)
    ensures var x' := Local(x, a); !x'.ctxDone && !x'.phase.AtCancelLock? && x'.phase != Returned(ContextError)
  {
    if IsPipeStep(a) {
      PipeStaysWith(x, a);
      hide Local;
    }
  }

  lemma PipeStaysWith(x: Stream, a: Action)
    requires Ready(x, a) && IsPipeStep(a) && !x.ctxDone
    ensures var x' := Local(x, a); !x'.ctxDone && !x'.phase.AtCancelLock? && x'.phase != Returned(ContextError)
  {}

  lemma {:induction false} RunStaysWith(s: State, acts: seq<Action>, h: StreamId)
    requires IsRun(s, acts) && StaysWith(s, h) && forall i | 0 <= i < |acts| :: acts[i] != ContextDone(h)
    ensures StaysWith(After(s, acts), h)
    decreases |acts|
  {
    hide StaysWith, Enabled, Apply;
    if acts != [] {
      StepStaysWith(s, acts[0], h);
      RunStaysWith(Apply(s, acts[0]), acts[1..], h);
    }
  }

  lemma {:induction false} AfterFirst(s: State, a: Action, acts: seq<Action>)
    requires Enabled(s, a) && IsRun(Apply(s, a), acts)
    ensures IsRun(s, [a] + acts) && After(s, [a] + acts) == After(Apply(s, a), acts)
  {
    assert ([a] + acts)[1..] == acts;
  }

  lemma {:induction false} LeavesThough(s: State, h: StreamId)
    requires h in s.streams && s.streams[h].phase.InSelect? && s.streams[h].ctxDone
    requires var t := s.streams[h].Token(); t in s.waiting ==> s.waiting[t] != h
    ensures IsRun(s, [ChooseDone(h), CancelLock(h)])
    ensures After(s, [ChooseDone(h), CancelLock(h)])
            == s.(streams := s.streams[h := s.streams[h].(phase := Returned(ContextError), left := false)])
  {
    var x := s.streams[h];
    var s1 := s.(streams := s.streams[h := x.(phase := AtCancelLock)]);
    var s2 := s.(streams := s.streams[h := x.(phase := Returned(ContextError), left := false)]);
    assert Enabled(s, ChooseDone(h)) && Apply(s, ChooseDone(h)) == s1;
    assert Enabled(s1, CancelLock(h)) && Apply(s1, CancelLock(h)) == s2;
    hide Enabled, Apply;
    AfterFirst(s1, CancelLock(h), []);
    AfterFirst(s, ChooseDone(h), [CancelLock(h)]);
    assert [ChooseDone(h)] + [CancelLock(h)] == [ChooseDone(h), CancelLock(h)];
  }

  /** Some continuation in which the context of `h` does not become done makes its handler leave by the context. */
  ghost predicate MayLeave(s: State, h: StreamId) {
    exists more :: LeavesBy(s, more, h)
  }

  ghost predicate LeavesBy(s: State, more: seq<Action>, h: StreamId) {
    && IsRun(s, more) && (forall i | 0 <= i < |more| :: more[i] != ContextDone(h))
    && h in After(s, more).streams && After(s, more).streams[h].phase == Returned(ContextError)
  }

  /**
   Pairing does not bind the waiter.  In every reachable state a waiter that was taken and
   is in its select, whether or not the match is in its channel yet, can leave by its
   context if and only if its context is done.  It then leaves the map alone, having
   received nothing, while its partner goes on towards piping into the stream it left.
   */
  lemma {:induction false} TakenWaiterLeavesExactlyWhen(acts: seq<Action>, h: StreamId)
    requires IsRun(INIT, acts) && h in After(INIT, acts).streams
    requires var x := After(INIT, acts).streams[h]; x.phase.InSelect? && x.takenBy.Some?
    ensures var s := After(INIT, acts);
            && (MayLeave(s, h) <==> s.streams[h].ctxDone)
            && (s.streams[h].ctxDone ==>
                  && IsRun(s, [ChooseDone(h), CancelLock(h)])
                  && After(s, [ChooseDone(h), CancelLock(h)])
                     == s.(streams := s.streams[h := s.streams[h].(phase := Returned(ContextError), left := false)]))
            && s.streams[h].received == [] && PartnerHeadsFor(s, h)
  {
    hide Inv, Apply, Enabled, IsRun, After, PartnerHeadsFor;
    ReachableInv(acts);
    var s := After(INIT, acts);
    TakenWaiter(s, h);
    if s.streams[h].ctxDone {
      LeavesThough(s, h);
      assert LeavesBy(s, [ChooseDone(h), CancelLock(h)], h);
    } else {
      forall more | LeavesBy(s, more, h) ensures false {
        RunStaysWith(s, more, h);
      }
    }
  }

  /** The run that brings a matched waiter there: two handlers, the second takes the first, whose context then ends. */
  function CancelledAfterMatch(t: Token): seq<Action> {
    [Arrive(0, [t]), Validate(0, true, true), TakeLock(0),
     Arrive(1, [t]), Validate(1, true, true), TakeLock(1), SendMatched(1), ContextDone(0)]
  }

  /** A stream registered, and one whose token verified and whose headers are flushed. */
  function Waiter(t: Token): Stream {
    NewStream([t]).(phase := InSelect, verified := true, headerSent := true, locked := true)
  }

  function AboutToLock(t: Token): Stream { NewStream([t]).(phase := AtLock, verified := true, headerSent := true) }

  lemma MatchedWaiterWithContextDone(t: Token)
    requires t != ""
    ensures IsRun(INIT, CancelledAfterMatch(t))
    ensures var s := After(INIT, CancelledAfterMatch(t));
            && 0 in s.streams && s.streams[0].phase.InSelect? && s.streams[0].matched == [1] && s.streams[0].ctxDone
            && 1 in s.streams && s.streams[1].phase == AtMetrics(0)
  {
    var acts := CancelledAfterMatch(t);
    var s3 := State(map[t := 0], map[0 := Waiter(t)], Metrics(0, 0, 0));
    var s5 := s3.(streams := s3.streams[1 := AboutToLock(t)]);
    FirstRegisters(t, s3);
    SecondArrives(t, s3, s5);
    SecondTakes(t, s5);
    JoinRuns(s3, acts[3..5], acts[5..]);
    JoinRuns(INIT, acts[..3], acts[3..]);
    assert acts[3..5] + acts[5..] == acts[3..] && acts[..3] + acts[3..] == acts;
  }

  lemma {:induction false} SecondTakes(t: Token, s5: State)
    requires t != "" && t in s5.waiting && s5.waiting[t] == 0
    requires 0 in s5.streams && s5.streams[0] == Waiter(t) && 1 in s5.streams && s5.streams[1] == AboutToLock(t)
    ensures var acts := CancelledAfterMatch(t)[5..];
            && IsRun(s5, acts)
            && var s := After(s5, acts);
               && 0 in s.streams && s.streams[0].phase.InSelect? && s.streams[0].matched == [1] && s.streams[0].ctxDone
               && 1 in s.streams && s.streams[1].phase == AtMetrics(0)
  {
    var acts := CancelledAfterMatch(t);
    var s6 := Apply(s5, acts[5]);
    var s7 := Apply(s6, acts[6]);
    var s8 := Apply(s7, acts[7]);
    hide Enabled, Apply;
    AfterFirst(s7, acts[7], []);
    AfterFirst(s6, acts[6], [acts[7]]);
    AfterFirst(s5, acts[5], [acts[6], acts[7]]);
    assert [acts[6]] + [acts[7]] == [acts[6], acts[7]] && [acts[5]] + [acts[6], acts[7]] == acts[5..];
  }

  lemma {:induction false} JoinRuns(s: State, first: seq<Action>, more: seq<Action>)
    requires IsRun(s, first) && IsRun(After(s, first), more)
    ensures IsRun(s, first + more) && After(s, first + more) == After(After(s, first), more)
    decreases |first|
  {
    if first == [] {
      assert first + more == more;
    } else {
      JoinRuns(Apply(s, first[0]), first[1..], more);
      AfterFirst(s, first[0], first[1..] + more);
      assert [first[0]] + (first[1..] + more) == first + more;
    }
  }

  lemma FirstRegisters(t: Token, s3: State)
    requires t != ""
    requires s3 == State(map[t := 0], map[0 := Waiter(t)], Metrics(0, 0, 0))
    ensures var acts := CancelledAfterMatch(t)[..3]; IsRun(INIT, acts) && After(INIT, acts) == s3
  {
    var acts := CancelledAfterMatch(t);
    var s1 := State(map[], map[0 := NewStream([t])], Metrics(0, 0, 0));
    var s2 := State(map[], map[0 := AboutToLock(t)], Metrics(0, 0, 0));
    assert Enabled(INIT, acts[0]) && Apply(INIT, acts[0]) == s1;
    assert Enabled(s1, acts[1]) && Apply(s1, acts[1]) == s2;
    assert Enabled(s2, acts[2]) && Apply(s2, acts[2]) == s3;
    hide Enabled, Apply;
    AfterFirst(s2, acts[2], []);
    AfterFirst(s1, acts[1], [acts[2]]);
    AfterFirst(INIT, acts[0], [acts[1], acts[2]]);
    assert [acts[1]] + [acts[2]] == [acts[1], acts[2]] && [acts[0]] + [acts[1], acts[2]] == acts[..3];
  }

  lemma {:induction false} SecondArrives(t: Token, s3: State, s5: State)
    requires t != "" && s3.streams.Keys == {0}
    requires s5 == s3.(streams := s3.streams[1 := AboutToLock(t)])
    ensures var acts := CancelledAfterMatch(t)[3..5]; IsRun(s3, acts) && After(s3, acts) == s5
  {
    var acts := CancelledAfterMatch(t);
    var s4 := s3.(streams := s3.streams[1 := NewStream([t])]);
    assert Enabled(s3, acts[3]) && Apply(s3, acts[3]) == s4;
    assert Enabled(s4, acts[4]) && Apply(s4, acts[4]) == s5;
    hide Enabled, Apply;
    AfterFirst(s4, acts[4], []);
    AfterFirst(s3, acts[3], [acts[4]]);
    assert [acts[3]] + [acts[4]] == acts[3..5];
  }
}
