/** The byte counter that all the relay's handlers share, over every interleaving of their pipes. */
module RelayBytes {
  import opened RelayService
  import opened RelayPairing
  import opened RelayTheorems

  /** A sum over a finite set, whatever the order in which it is taken. */
  ghost function Total(ids: set<StreamId>, f: StreamId -> nat): nat {
    if ids == {} then 0
    else
      var h :| h in ids;
      f(h) + Total(ids - {h}, f)
  }

  lemma {:induction false} TakeOut(ids: set<StreamId>, f: StreamId -> nat, h: StreamId)
    requires h in ids
    ensures Total(ids, f) == f(h) + Total(ids - {h}, f)
  {
    var k :| k in ids && Total(ids, f) == f(k) + Total(ids - {k}, f);
    if k != h {
      TakeOut(ids - {k}, f, h);
      TakeOut(ids - {h}, f, k);
      assert ids - {k} - {h} == ids - {h} - {k};
    }
  }

  lemma {:induction false} SameTotal(ids: set<StreamId>, f: StreamId -> nat, g: StreamId -> nat)
    requires forall h | h in ids :: f(h) == g(h)
    ensures Total(ids, f) == Total(ids, g)
  {
    if h :| h in ids {
      TakeOut(ids, f, h);
      TakeOut(ids, g, h);
      SameTotal(ids - {h}, f, g);
    }
  }

  /** When two functions differ at `h` alone, so do their sums. */
  lemma {:induction false} TotalMoves(ids: set<StreamId>, f: StreamId -> nat, g: StreamId -> nat, h: StreamId)
    requires h in ids && forall k | k in ids && k != h :: f(k) == g(k)
    ensures Total(ids, g) == Total(ids, f) - f(h) + g(h)
  {
    TakeOut(ids, f, h);
    TakeOut(ids, g, h);
    SameTotal(ids - {h}, f, g);
  }

  /** The same when `h` may be new and counted for nothing before. */
  lemma {:induction false} TotalGrows(ids: set<StreamId>, f: StreamId -> nat, g: StreamId -> nat, h: StreamId)
    requires h !in ids ==> f(h) == 0
    requires forall k | k in ids && k != h :: f(k) == g(k)
    ensures Total(ids + {h}, g) == Total(ids, f) - f(h) + g(h)
  {
    if h in ids {
      assert ids + {h} == ids;
    } else {
      TakeOut(ids + {h}, f, h);
      assert ids + {h} - {h} == ids;
    }
    TotalMoves(ids + {h}, f, g, h);
  }

  lemma {:induction false} TotalSplits(ids: set<StreamId>, f: StreamId -> nat, g: StreamId -> nat, sum: StreamId -> nat)
    requires forall h | h in ids :: sum(h) == f(h) + g(h)
    ensures Total(ids, sum) == Total(ids, f) + Total(ids, g)
  {
    if h :| h in ids {
      TakeOut(ids, f, h);
      TakeOut(ids, g, h);
      TakeOut(ids, sum, h);
      TotalSplits(ids - {h}, f, g, sum);
    }
  }

  /** The frames a handler has received and counted. */
  function CountedFrames(x: Stream): seq<Frame> {
    if x.phase.Piping? && x.phase.pc.AtCount? && x.received != [] then x.received[..|x.received| - 1] else x.received
  }

  /** The bytes counted by the handler of stream `h`, none while there is no such stream. */
  function BytesAt(s: State, h: StreamId): nat {
    if h in s.streams then ByteCount(CountedFrames(s.streams[h])) else 0
  }

  function BytesCounted(s: State): StreamId -> nat { (h: StreamId) => BytesAt(s, h) }

  ghost predicate CounterExact(s: State) { s.metrics.bytes == Total(s.streams.Keys, BytesCounted(s)) }

  /** Only counting moves a handler's counted bytes, by the frame it has just received. */
  lemma OwnBytes(x: Stream, a: Action)
    requires Ready(x, a) && !a.TakeLock? && !a.CancelLock?
    requires !x.phase.Piping? && !x.phase.Returned? ==> x.received == []
    requires x.phase.Piping? && x.phase.pc.AtCount? ==>
               x.received != [] && x.received[|x.received| - 1] == x.phase.pc.frame
    ensures ByteCount(CountedFrames(Local(x, a)))
            == ByteCount(CountedFrames(x)) + if a.CountBytes? then |x.phase.pc.frame| else 0
  {
    if !a.CountBytes? {
      CountedStays(x, a);
      hide Local, ByteCount;
    }
  }

  lemma CountedStays(x: Stream, a: Action)
    requires Ready(x, a) && !a.TakeLock? && !a.CancelLock? && !a.CountBytes?
    requires !x.phase.Piping? && !x.phase.Returned? ==> x.received == []
    ensures CountedFrames(Local(x, a)) == CountedFrames(x)
  {
    if a.Recv? {
      assert CountedFrames(Local(x, a)) == x.received == CountedFrames(x);
    }
  }

  lemma LastReceived(s: State, h: StreamId)
    requires Inv(s) && h in s.streams
    ensures var x := s.streams[h];
            && (!x.phase.Piping? && !x.phase.Returned? ==> x.received == [])
            && (x.phase.Piping? && x.phase.pc.AtCount? ==>
                  x.received != [] && x.received[|x.received| - 1] == x.phase.pc.frame)
  {
    assert OkAt(s, h);
    if Partner(s.streams[h]).Some? {
      PartnerFrames(s, h);
    }
  }

  /** No step touches what another handler received, or where it is. */
  lemma OthersKeepTheirs(s: State, a: Action)
    requires Enabled(s, a)
    ensures Apply(s, a).streams.Keys == s.streams.Keys + {a.h}
    ensures forall k | k in s.streams && k != a.h ::
              && Apply(s, a).streams[k].phase == s.streams[k].phase
              && Apply(s, a).streams[k].received == s.streams[k].received
  {
    hide Local, Ready, Measured;
  }

  /** A step moves the counter as it moves what its own handler counted. */
  lemma CounterFollowsHandler(s: State, a: Action)
    requires Inv(s) && Enabled(s, a)
    ensures Apply(s, a).metrics.bytes - s.metrics.bytes == BytesAt(Apply(s, a), a.h) - BytesAt(s, a.h)
  {
    if a.Arrive? {
      ArrivalsCountNothing(s, a);
    } else {
      LastReceived(s, a.h);
      hide Inv;
      if a.TakeLock? || a.CancelLock? {
        LocksCountNothing(s, a);
      } else {
        OwnCounterStep(s, a);
      }
    }
    hide Inv, Apply, Enabled, ByteCount;
  }

  lemma ArrivalsCountNothing(s: State, a: Action)
    requires Enabled(s, a) && a.Arrive?
    ensures Apply(s, a).metrics == s.metrics && BytesAt(Apply(s, a), a.h) == 0 == BytesAt(s, a.h)
  {}

  lemma OwnCounterStep(s: State, a: Action)
    requires Enabled(s, a) && !a.Arrive? && !a.TakeLock? && !a.CancelLock?
    requires var x := s.streams[a.h];
             && (!x.phase.Piping? && !x.phase.Returned? ==> x.received == [])
             && (x.phase.Piping? && x.phase.pc.AtCount? ==>
                   x.received != [] && x.received[|x.received| - 1] == x.phase.pc.frame)
    ensures Apply(s, a).metrics.bytes - s.metrics.bytes == BytesAt(Apply(s, a), a.h) - BytesAt(s, a.h)
  {
    OwnBytes(s.streams[a.h], a);
    hide Local, CountedFrames, ByteCount;
  }

  lemma LocksCountNothing(s: State, a: Action)
    requires Enabled(s, a) && (a.TakeLock? || a.CancelLock?)
    ensures Apply(s, a).metrics == s.metrics
    ensures CountedFrames(Apply(s, a).streams[a.h]) == CountedFrames(s.streams[a.h])
  {}

  lemma OthersCountNothing(s: State, a: Action)
    requires Enabled(s, a)
    ensures Apply(s, a).streams.Keys == s.streams.Keys + {a.h}
    ensures forall k | k in s.streams && k != a.h :: BytesAt(Apply(s, a), k) == BytesAt(s, k)
  {
    OthersKeepTheirs(s, a);
    hide Apply, Enabled, ByteCount;
  }

  lemma StepKeepsCounter(s: State, a: Action)
    requires Inv(s) && Enabled(s, a) && CounterExact(s)
    ensures CounterExact(Apply(s, a))
  {
    assert a.h !in s.streams ==> BytesAt(s, a.h) == 0;
    hide Inv, Apply, Enabled, BytesAt;
    OthersCountNothing(s, a);
    CounterFollowsHandler(s, a);
    TotalGrows(s.streams.Keys, BytesCounted(s), BytesCounted(Apply(s, a)), a.h);
  }

  lemma {:induction false} RunKeepsCounter(s: State, acts: seq<Action>)
    requires Inv(s) && IsRun(s, acts) && CounterExact(s)
    ensures CounterExact(After(s, acts))
    decreases |acts|
  {
    hide CounterExact, Inv;
    if acts != [] {
      StepKeepsCounter(s, acts[0]);
      StepKeepsInv(s, acts[0]);
      RunKeepsCounter(Apply(s, acts[0]), acts[1..]);
    }
  }

  // ----- the counter against what was forwarded -----

  /** The frames the handler of stream `h` wrote to its partner's stream. */
  function Forwarded(s: State, h: StreamId): seq<Frame> {
    if h in s.streams && PeerOf(s, s.streams[h]).Some? then PeerOf(s, s.streams[h]).value.written else []
  }

  function BytesForwarded(s: State): StreamId -> nat { (h: StreamId) => ByteCount(Forwarded(s, h)) }

  /** The bytes of the frame a handler has counted but not forwarded, when there is one. */
  function Owed(s: State, h: StreamId): nat {
    if h in s.streams && |Forwarded(s, h)| < |CountedFrames(s.streams[h])|
    then |s.streams[h].received[|Forwarded(s, h)|]| else 0
  }

  function BytesOwed(s: State): StreamId -> nat { (h: StreamId) => Owed(s, h) }

  /** A handler forwards what it counted, in order, and is behind by at most one frame; at its loop head by none. */
  lemma CountedThenForwarded(s: State, h: StreamId)
    requires Inv(s) && h in s.streams
    ensures var x := s.streams[h];
            var counted, forwarded := CountedFrames(x), Forwarded(s, h);
            && (counted == forwarded || counted == forwarded + [x.received[|forwarded|]])
            && (x.phase.Piping? && !x.phase.pc.AtSend? ==> counted == forwarded)
            && BytesAt(s, h) == ByteCount(Forwarded(s, h)) + Owed(s, h)
  {
    hide Inv, ByteCount, CountedFrames;
    if Partner(s.streams[h]).None? {
      LoneFrames(s, h);
    } else {
      PartnersMutual(s, h);
      PartnerFrames(s, h);
    }
    CountedAhead(s.streams[h], Forwarded(s, h));
  }

  lemma {:induction false} CountedAhead(x: Stream, forwarded: seq<Frame>)
    requires forwarded <= x.received && |x.received| <= |forwarded| + 1
    requires x.phase.Piping? ==> x.received == forwarded + InFlight(x)
    ensures var counted := CountedFrames(x);
            && (counted == forwarded || counted == forwarded + [x.received[|forwarded|]])
            && (x.phase.Piping? && !x.phase.pc.AtSend? ==> counted == forwarded)
            && ByteCount(counted) == ByteCount(forwarded) +
                 if |forwarded| < |counted| then |x.received[|forwarded|]| else 0
  {
    if |x.received| > |forwarded| {
      assert x.received == forwarded + [x.received[|forwarded|]];
    } else {
      assert x.received == forwarded;
    }
  }

  /**
   In every reachable state the counter is the bytes written to all streams plus, for
   each handler between counting and sending or stopped by a failed send, one frame.
   */
  lemma {:induction false} CounterIsForwardedBytes(acts: seq<Action>)
    requires IsRun(INIT, acts)
    ensures var s := After(INIT, acts);
            && s.metrics.bytes == Total(s.streams.Keys, BytesForwarded(s)) + Total(s.streams.Keys, BytesOwed(s))
            && forall h | h in s.streams && s.streams[h].phase.Piping? && !s.streams[h].phase.pc.AtSend? ::
                 Owed(s, h) == 0
  {
    InitInv();
    RunKeepsCounter(INIT, acts);
    ReachableInv(acts);
    var s := After(INIT, acts);
    forall h | h in s.streams
      ensures BytesAt(s, h) == ByteCount(Forwarded(s, h)) + Owed(s, h)
      ensures s.streams[h].phase.Piping? && !s.streams[h].phase.pc.AtSend? ==> Owed(s, h) == 0
    {
      CountedThenForwarded(s, h);
    }
    hide Inv;
    TotalSplits(s.streams.Keys, BytesForwarded(s), BytesOwed(s), BytesCounted(s));
  }
}
