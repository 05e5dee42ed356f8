/** What the relay guarantees in every reachable state, and from one state of a run to the next. */
module RelayTheorems {
  import opened Prelude
  import opened RelayService
  import opened RelayPairing

  lemma {:induction false} RunKeepsInv(s: State, acts: seq<Action>)
    requires Inv(s) && IsRun(s, acts)
    ensures Inv(After(s, acts))
    decreases |acts|
  {
    if acts != [] {
      StepKeepsInv(s, acts[0]);
      RunKeepsInv(Apply(s, acts[0]), acts[1..]);
    }
  }

  lemma {:induction false} ReachableInv(acts: seq<Action>)
    requires IsRun(INIT, acts)
    ensures Inv(After(INIT, acts))
  {
    InitInv();
    RunKeepsInv(INIT, acts);
  }

  // ----- channels and waiters -----

  /** `peer.matched <- stream` never blocks, and happens at most once per waiter. */
  lemma {:induction false} MatchedNeverBlocks(acts: seq<Action>, h: StreamId)
    requires IsRun(INIT, acts) && h in After(INIT, acts).streams
    ensures var s := After(INIT, acts);
            && s.streams[h].sends <= 1 && |s.streams[h].matched| <= 1
            && (s.streams[h].phase.AtSendMatched? ==> Enabled(s, SendMatched(h)))
            && (s.streams[h].phase.AtLock? ==> Enabled(s, TakeLock(h)))
  {
    ReachableInv(acts);
    var s := After(INIT, acts);
    assert OkAt(s, h);
    if s.streams[h].phase.AtSendMatched? {
      SendHasRoom(s, h);
    }
  }

  lemma SendHasRoom(s: State, h: StreamId)
    requires Inv(s) && h in s.streams && s.streams[h].phase.AtSendMatched?
    ensures Enabled(s, SendMatched(h))
  {
    assert OkAt(s, h);
    assert OkAt(s, s.streams[h].takes.value);
  }

  lemma EntriesExist(s: State, t: Token)
    requires Inv(s)
    ensures EntryExists(s, t)
  {}

  lemma PipeHasTarget(s: State, h: StreamId)
    requires Inv(s) && h in s.streams && s.streams[h].phase.Piping?
    ensures s.streams[h].phase.dst in s.streams
  {
    assert OkAt(s, h);
  }

  /** A matched waiter finds its partner's stream in the channel, unless the partner has yet to send it. */
  lemma MatchedWaiterWakes(s: State, h: StreamId)
    requires Inv(s) && h in s.streams && Partner(s.streams[h]).Some?
    ensures Partner(s.streams[h]).value in s.streams
    ensures s.streams[h].phase.InSelect? ==>
              s.streams[h].matched != [] || s.streams[Partner(s.streams[h]).value].phase.AtSendMatched?
  {
    assert OkAt(s, h);
  }

  /** Every entry of `waiting` is a handler in its wait section, under the token it presented. */
  lemma {:induction false} EntriesAreWaiting(acts: seq<Action>, t: Token)
    requires IsRun(INIT, acts) && t in After(INIT, acts).waiting
    ensures var s := After(INIT, acts);
            var w := s.waiting[t];
            && w in s.streams && Waits(s.streams[w]) && s.streams[w].Token() == t && t != ""
            && s.streams[w].sends == 0 && Partner(s.streams[w]).None?
  {
    ReachableInv(acts);
    var s := After(INIT, acts);
    assert OkAt(s, s.waiting[t]);
  }

  /** A stream whose token was missing or did not verify never registers or pairs; nobody reads or writes it. */
  lemma {:induction false} UnverifiedNeverPairs(acts: seq<Action>, h: StreamId)
    requires IsRun(INIT, acts) && h in After(INIT, acts).streams
    requires var x := After(INIT, acts).streams[h]; !x.verified || (x.phase.Returned? && Refused(x.phase.status))
    ensures var s := After(INIT, acts);
            var x := s.streams[h];
            && (x.phase.Arrived? || x.phase.Returned?) && Partner(x).None?
            && x.received == [] && x.written == [] && x.sends == 0
            && forall t | t in s.waiting :: s.waiting[t] != h
  {
    ReachableInv(acts);
    assert OkAt(After(INIT, acts), h);
  }

  /** Two streams are only ever paired with each other, and both presented the same non-empty token. */
  lemma {:induction false} PairedUnderOneToken(acts: seq<Action>, h: StreamId)
    requires IsRun(INIT, acts) && h in After(INIT, acts).streams
    requires Partner(After(INIT, acts).streams[h]).Some?
    ensures var s := After(INIT, acts);
            var p := Partner(s.streams[h]).value;
            && p != h && p in s.streams && Partner(s.streams[p]) == Some(h)
            && |s.streams[p].values| > 0 && |s.streams[h].values| > 0
            && s.streams[p].values[0] == s.streams[h].values[0] != ""
            && s.streams[p].headerSent && s.streams[h].headerSent && s.streams[p].verified && s.streams[h].verified
            && (s.streams[h].takes.Some? <==> s.streams[p].takenBy.Some?)
  {
    ReachableInv(acts);
    var s := After(INIT, acts);
    PartnersMutual(s, h);
    assert OkAt(s, h);
    assert OkAt(s, Partner(s.streams[h]).value);
  }

  /** A canceller removes no entry but its own, and none at all once it was matched. */
  lemma {:induction false} LateCancelIsHarmless(acts: seq<Action>, h: StreamId, t: Token)
    requires IsRun(INIT, acts) && Enabled(After(INIT, acts), CancelLock(h))
    ensures var s := After(INIT, acts);
            var s' := Apply(s, CancelLock(h));
            && (t in s.waiting && s.waiting[t] != h ==> t in s'.waiting && s'.waiting[t] == s.waiting[t])
            && (t in s'.waiting ==> t in s.waiting && s'.waiting[t] == s.waiting[t] != h)
            && (s.streams[h].takenBy.Some? ==> s'.waiting == s.waiting && !s'.streams[h].left)
            && (s.streams[h].takenBy.None? ==> s.streams[h].Token() !in s'.waiting && s'.streams[h].left)
  {
    ReachableInv(acts);
    var s := After(INIT, acts);
    CancellerEntry(s, h, t);
    hide Inv, IsRun, After;
  }

  lemma CancellerEntry(s: State, h: StreamId, t: Token)
    requires Inv(s) && h in s.streams && s.streams[h].phase.AtCancelLock?
    ensures t in s.waiting && s.waiting[t] == h ==> t == s.streams[h].Token() && s.streams[h].takenBy.None?
    ensures var own := s.streams[h].Token();
            s.streams[h].takenBy.None? ==> own in s.waiting && s.waiting[own] == h
  {
    assert OkAt(s, h);
  }

  // ----- one reader and one writer per stream -----

  /** The pairing history a stream carries. */
  ghost predicate SameHistory(x: Stream, x': Stream) {
    && x'.values == x.values && x'.locked == x.locked
    && x'.takes == x.takes && x'.takenBy == x.takenBy && x'.left == x.left
  }

  /** Outside the lock sections no history changes; an arriving stream has none. */
  lemma QuietStep(s: State, a: Action)
    requires Enabled(s, a) && !a.TakeLock? && !a.CancelLock?
    ensures Apply(s, a).waiting == s.waiting && (a.Arrive? <==> a.h !in s.streams)
    ensures Apply(s, a).streams.Keys == s.streams.Keys + {a.h}
    ensures forall h | h in s.streams :: SameHistory(s.streams[h], Apply(s, a).streams[h])
    ensures a.Arrive? ==> a.h !in s.streams && Apply(s, a).streams[a.h] == NewStream(a.values)
  {
    if !a.Arrive? {
      LocalKeepsHistory(s.streams[a.h], a);
    }
    hide Local, Ready, Measured;
  }

  lemma LocalKeepsHistory(x: Stream, a: Action)
    requires Ready(x, a) && !a.TakeLock? && !a.CancelLock?
    ensures SameHistory(x, Local(x, a))
  {
    if IsPipeStep(a) {
      PipeKeepsHistory(x, a);
    } else {
      PairingKeepsHistory(x, a);
    }
    hide Local;
  }

  lemma PipeKeepsHistory(x: Stream, a: Action)
    requires Ready(x, a) && IsPipeStep(a)
    ensures SameHistory(x, Local(x, a))
  {}

  lemma PairingKeepsHistory(x: Stream, a: Action)
    requires Ready(x, a) && !a.TakeLock? && !a.CancelLock? && !IsPipeStep(a)
    ensures SameHistory(x, Local(x, a))
  {}

  /** The first lock section records one pairing, or one registration. */
  lemma LockStep(s: State, h: StreamId)
    requires Inv(s) && Enabled(s, TakeLock(h))
    ensures var s', x := Apply(s, TakeLock(h)), s.streams[h];
            var x', t := s'.streams[h], x.Token();
            && s'.streams.Keys == s.streams.Keys && x'.values == x.values
            && !x.locked && x.takes.None? && x.takenBy.None? && !x.left && x'.locked && !x'.left
            && (x'.takes.Some? <==> t in s.waiting)
            && (forall u :: u in s'.waiting <==> if u == t then t !in s.waiting else u in s.waiting)
            && (forall k | k in s.streams && k != h ::
                  && s'.streams[k].values == s.streams[k].values && s'.streams[k].locked == s.streams[k].locked
                  && s'.streams[k].takes == s.streams[k].takes && s'.streams[k].left == s.streams[k].left
                  && s'.streams[k].phase == s.streams[k].phase
                  && (Partner(s.streams[k]).Some? ==> s'.streams[k].takenBy == s.streams[k].takenBy))
  {
    hide Inv;
    LockerIsNew(s, h);
    EntryUnpaired(s, s.streams[h].Token());
  }

  lemma EntryUnpaired(s: State, t: Token)
    requires Inv(s)
    ensures t in s.waiting ==>
              var w := s.waiting[t]; w in s.streams && !s.streams[w].phase.AtLock? && Partner(s.streams[w]).None?
  {
    if t in s.waiting {
      WaiterRegistered(s, s.waiting[t]);
    }
  }

  lemma LockerIsNew(s: State, h: StreamId)
    requires Inv(s) && h in s.streams && s.streams[h].phase.AtLock?
    ensures var x := s.streams[h]; !x.locked && x.takes.None? && x.takenBy.None? && !x.left
  {
    assert OkAt(s, h);
  }

  lemma HandlerPhase(s: State, h: StreamId)
    requires Inv(s) && h in s.streams
    ensures PhaseOk(s.streams[h])
  {
    assert OkAt(s, h);
  }

  /** The second lock section records at most that this handler left by itself. */
  lemma CancelStep(s: State, h: StreamId)
    requires Inv(s) && Enabled(s, CancelLock(h))
    ensures var s', x := Apply(s, CancelLock(h)), s.streams[h];
            var x', t := s'.streams[h], x.Token();
            var own := t in s.waiting && s.waiting[t] == h;
            && s'.streams.Keys == s.streams.Keys && x.locked && x.takes.None? && !x.left
            && SameHistory(x.(left := own), x')
            && (forall u :: u in s'.waiting <==> u in s.waiting && !(own && u == t))
            && (forall k | k in s.streams && k != h :: s'.streams[k] == s.streams[k])
  {
    hide Inv;
    HandlerPhase(s, h);
  }

  /** Tokens never change, and a step adds at most the stream of its own handler. */
  lemma StepKeepsTokens(s: State, a: Action)
    requires Inv(s) && Enabled(s, a)
    ensures Apply(s, a).streams.Keys == s.streams.Keys + {a.h}
    ensures forall h | h in s.streams :: Apply(s, a).streams[h].values == s.streams[h].values
    ensures a.Arrive? ==> Apply(s, a).streams[a.h] == NewStream(a.values)
  {
    hide Inv;
    match a {
      case TakeLock(h) => LockStep(s, h);
      case CancelLock(h) => CancelStep(s, h);
      case _ => QuietStep(s, a);
    }
    hide Apply;
  }

  lemma {:induction false} RunKeepsTokens(s: State, acts: seq<Action>)
    requires Inv(s) && IsRun(s, acts)
    ensures forall h | h in s.streams ::
              h in After(s, acts).streams && After(s, acts).streams[h].values == s.streams[h].values
    decreases |acts|
  {
    if acts != [] {
      StepKeepsTokens(s, acts[0]);
      StepKeepsInv(s, acts[0]);
      RunKeepsTokens(Apply(s, acts[0]), acts[1..]);
    }
  }

  /** A pairing is never undone or replaced. */
  lemma StepKeepsPartners(s: State, a: Action)
    requires Inv(s) && Enabled(s, a)
    ensures forall h | h in s.streams ::
              && h in Apply(s, a).streams
              && (Partner(s.streams[h]).Some? ==> Partner(Apply(s, a).streams[h]) == Partner(s.streams[h]))
  {
    hide Inv;
    match a {
      case TakeLock(h) => LockStep(s, h);
      case CancelLock(h) => CancelStep(s, h);
      case _ => QuietStep(s, a);
    }
    hide Apply;
  }

  lemma {:induction false} RunKeepsPartners(s: State, acts: seq<Action>)
    requires Inv(s) && IsRun(s, acts)
    ensures forall h | h in s.streams ::
              && h in After(s, acts).streams
              && (Partner(s.streams[h]).Some? ==> Partner(After(s, acts).streams[h]) == Partner(s.streams[h]))
    decreases |acts|
  {
    if acts != [] {
      StepKeepsPartners(s, acts[0]);
      StepKeepsInv(s, acts[0]);
      RunKeepsPartners(Apply(s, acts[0]), acts[1..]);
    }
  }

  /**
   Over a whole run each stream is written by at most one handler, never its own: a
   handler that pipes into `d` now and one that pipes into `d` later are the same.
   */
  lemma {:induction false} SoleWriter(acts: seq<Action>, more: seq<Action>, h1: StreamId, h2: StreamId, d: StreamId)
    requires IsRun(INIT, acts) && IsRun(After(INIT, acts), more)
    requires h1 in After(INIT, acts).streams && After(INIT, acts).streams[h1].phase.Piping?
    requires After(INIT, acts).streams[h1].phase.dst == d
    requires var s := After(After(INIT, acts), more);
             h2 in s.streams && s.streams[h2].phase.Piping? && s.streams[h2].phase.dst == d
    ensures h1 == h2 && h1 != d
  {
    hide Inv;
    ReachableInv(acts);
    var now := After(INIT, acts);
    PipesIntoPartner(now, h1);
    RunKeepsInv(now, more);
    RunKeepsPartners(now, more);
    PipesIntoPartner(After(now, more), h2);
    hide IsRun, After;
  }

  lemma PipesIntoPartner(s: State, h: StreamId)
    requires Inv(s) && h in s.streams && s.streams[h].phase.Piping?
    ensures var d := s.streams[h].phase.dst;
            d != h && d in s.streams && Partner(s.streams[h]) == Some(d) && Partner(s.streams[d]) == Some(h)
  {
    HandlerPhase(s, h);
    PartnersMutual(s, h);
  }

  /**
   Forwarding through a pairing: what reached the partner's client is a prefix, in
   order, of what this client sent; at most one frame is in between, and none when
   the pipe is at its loop head.
   */
  lemma {:induction false} ForwardsInOrder(acts: seq<Action>, h: StreamId)
    requires IsRun(INIT, acts) && h in After(INIT, acts).streams
    requires Partner(After(INIT, acts).streams[h]).Some?
    ensures var s := After(INIT, acts);
            var x := s.streams[h];
            && Partner(x).value in s.streams
            && var y := s.streams[Partner(x).value];
               && y.written <= x.received <= x.sent
               && |x.received| <= |y.written| + 1
               && (x.phase.Piping? && x.phase.pc.AtRecv? ==> y.written == x.received)
  {
    ReachableInv(acts);
    PartnerFrames(After(INIT, acts), h);
  }

  // ----- counting pairings -----

  /** The streams that satisfy `p`. */
  function Those(m: map<StreamId, Stream>, p: Stream -> bool): set<StreamId> {
    set h | h in m && p(m[h])
  }

  /** When only `h` may change, so does the number of streams satisfying `p`. */
  lemma OneMoves(m: map<StreamId, Stream>, m': map<StreamId, Stream>, h: StreamId, p: Stream -> bool)
    requires m'.Keys == m.Keys + {h}
    requires forall k | k in m && k != h :: p(m'[k]) == p(m[k])
    ensures |Those(m', p)| + (if h in m && p(m[h]) then 1 else 0) == |Those(m, p)| + if p(m'[h]) then 1 else 0
  {
    assert Those(m', p) - {h} == Those(m, p) - {h};
    assert |Those(m', p) - {h}| == |Those(m', p)| - if p(m'[h]) then 1 else 0;
    assert |Those(m, p) - {h}| == |Those(m, p)| - if h in m && p(m[h]) then 1 else 0;
  }

  function WentPastLock(t: Token): Stream -> bool { (x: Stream) => x.locked && x.Token() == t }

  function TookAnEntry(t: Token): Stream -> bool { (x: Stream) => x.takes.Some? && x.Token() == t }

  function LeftAlone(t: Token): Stream -> bool { (x: Stream) => x.left && x.Token() == t }

  function PastLock(s: State, t: Token): set<StreamId> { Those(s.streams, WentPastLock(t)) }

  /** One second side per pairing decided under the token. */
  function Pairings(s: State, t: Token): set<StreamId> { Those(s.streams, TookAnEntry(t)) }

  function Leavers(s: State, t: Token): set<StreamId> { Those(s.streams, LeftAlone(t)) }

  lemma HistoryMoves(s: State, s': State, h: StreamId, t: Token)
    requires s'.streams.Keys == s.streams.Keys + {h}
    requires forall k | k in s.streams && k != h ::
               var x, x' := s.streams[k], s'.streams[k];
               x'.values == x.values && x'.locked == x.locked && x'.takes == x.takes && x'.left == x.left
    ensures var x' := s'.streams[h];
            var moved := (p: Stream -> bool) =>
              (if p(x') then 1 else 0) - if h in s.streams && p(s.streams[h]) then 1 else 0;
            && |PastLock(s', t)| == |PastLock(s, t)| + moved(WentPastLock(t))
            && |Pairings(s', t)| == |Pairings(s, t)| + moved(TookAnEntry(t))
            && |Leavers(s', t)| == |Leavers(s, t)| + moved(LeftAlone(t))
  {
    OneMoves(s.streams, s'.streams, h, WentPastLock(t));
    OneMoves(s.streams, s'.streams, h, TookAnEntry(t));
    OneMoves(s.streams, s'.streams, h, LeftAlone(t));
  }

  ghost predicate Conserved(s: State, t: Token) {
    |PastLock(s, t)| == 2 * |Pairings(s, t)| + |Leavers(s, t)| + if t in s.waiting then 1 else 0
  }

  lemma LockConserves(s: State, h: StreamId, t: Token)
    requires Inv(s) && Enabled(s, TakeLock(h)) && Conserved(s, t)
    ensures Conserved(Apply(s, TakeLock(h)), t)
  {
    hide Inv, Apply, PastLock, Pairings, Leavers;
    LockStep(s, h);
    HistoryMoves(s, Apply(s, TakeLock(h)), h, t);
  }

  lemma CancelConserves(s: State, h: StreamId, t: Token)
    requires Inv(s) && Enabled(s, CancelLock(h)) && Conserved(s, t)
    ensures Conserved(Apply(s, CancelLock(h)), t)
  {
    hide Inv, Apply, PastLock, Pairings, Leavers;
    CancelStep(s, h);
    HistoryMoves(s, Apply(s, CancelLock(h)), h, t);
  }

  lemma OtherStepsConserve(s: State, a: Action, t: Token)
    requires Enabled(s, a) && !a.TakeLock? && !a.CancelLock? && Conserved(s, t)
    ensures Conserved(Apply(s, a), t)
  {
    hide Apply, PastLock, Pairings, Leavers;
    QuietStep(s, a);
    HistoryMoves(s, Apply(s, a), a.h, t);
  }

  lemma {:induction false} RunConserves(s: State, acts: seq<Action>, t: Token)
    requires Inv(s) && IsRun(s, acts) && Conserved(s, t)
    ensures Conserved(After(s, acts), t)
    decreases |acts|
  {
    hide Conserved, Inv;
    if acts != [] {
      match acts[0] {
        case TakeLock(h) => LockConserves(s, h, t);
        case CancelLock(h) => CancelConserves(s, h, t);
        case _ => OtherStepsConserve(s, acts[0], t);
      }
      StepKeepsInv(s, acts[0]);
      RunConserves(Apply(s, acts[0]), acts[1..], t);
    }
  }

  /**
   For every token in every reachable state: the streams past the lock step are two
   per pairing decided, plus the waiters that removed themselves, plus the one
   registered now.
   */
  lemma {:induction false} EveryStreamAccountedFor(acts: seq<Action>, t: Token)
    requires IsRun(INIT, acts)
    ensures var s := After(INIT, acts);
            |PastLock(s, t)| == 2 * |Pairings(s, t)| + |Leavers(s, t)| + if t in s.waiting then 1 else 0
  {
    InitInv();
    assert PastLock(INIT, t) == {} && Pairings(INIT, t) == {} && Leavers(INIT, t) == {};
    RunConserves(INIT, acts, t);
  }

  // ----- metrics -----

  /** A second side that has passed the metrics statements. */
  predicate Counted(x: Stream) { x.takes.Some? && !x.phase.AtSendMatched? && !x.phase.AtMetrics? }

  predicate Active(x: Stream) { x.takes.Some? && x.phase.Piping? }

  function CountedPairings(s: State): set<StreamId> { Those(s.streams, Counted) }

  function ActiveSessions(s: State): set<StreamId> { Those(s.streams, Active) }

  ghost predicate MetricsExact(s: State) {
    s.metrics.pairings == |CountedPairings(s)| && s.metrics.active == |ActiveSessions(s)|
  }

  /** How one step moves its own handler, `x` before and `x'` after, in and out of the two counts. */
  ghost predicate CountsMove(x: Stream, x': Stream, a: Action) {
    if a.CountPairing? then !Counted(x) && Counted(x') && !Active(x) && Active(x')
    else
      && Counted(x') == Counted(x)
      && if (a.RecvFails? || a.SendFails?) && x.takes.Some? then Active(x) && !Active(x')
         else Active(x') == Active(x)
  }

  /** How one step of the handler of `x` moves the counter and the gauge. */
  ghost predicate Gauged(m: Metrics, m': Metrics, x: Stream, a: Action) {
    && m'.pairings == m.pairings + (if a.CountPairing? then 1 else 0)
    && m'.active == m.active + if a.CountPairing? then 1
                               else if (a.RecvFails? || a.SendFails?) && x.takes.Some? then -1 else 0
  }

  lemma LocalCountsMove(x: Stream, a: Action)
    requires PhaseOk(x) && Ready(x, a) && !a.TakeLock? && !a.CancelLock?
    ensures CountsMove(x, Local(x, a), a)
  {}

  /** Nobody but the step's own handler moves in or out of the two counts. */
  ghost predicate OnlyOwnMoves(s: State, s': State, a: Action) {
    && s'.streams.Keys == s.streams.Keys + {a.h}
    && (forall k | k in s.streams && k != a.h ::
          Counted(s'.streams[k]) == Counted(s.streams[k]) && Active(s'.streams[k]) == Active(s.streams[k]))
    && if a.h in s.streams
       then Gauged(s.metrics, s'.metrics, s.streams[a.h], a) && CountsMove(s.streams[a.h], s'.streams[a.h], a)
       else Gauged(s.metrics, s'.metrics, NewStream([]), a)
            && !Counted(s'.streams[a.h]) && !Active(s'.streams[a.h])
  }

  lemma CountsStep(s: State, a: Action)
    requires Inv(s) && Enabled(s, a)
    ensures OnlyOwnMoves(s, Apply(s, a), a)
  {
    hide Inv, OnlyOwnMoves;
    match a {
      case Arrive(_, _) => ArrivalCounts(s, a);
      case TakeLock(h) => LockCounts(s, h);
      case CancelLock(h) => CancelCounts(s, h);
      case _ => OwnCounts(s, a);
    }
    hide Apply;
  }

  lemma ArrivalCounts(s: State, a: Action)
    requires Enabled(s, a) && a.Arrive?
    ensures OnlyOwnMoves(s, Apply(s, a), a)
  {}

  lemma LockCounts(s: State, h: StreamId)
    requires Inv(s) && Enabled(s, TakeLock(h))
    ensures OnlyOwnMoves(s, Apply(s, TakeLock(h)), TakeLock(h))
  {
    hide Inv;
    LockStep(s, h);
    LockKeepsMetrics(s, h);
    hide Apply, Enabled;
  }

  lemma CancelCounts(s: State, h: StreamId)
    requires Inv(s) && Enabled(s, CancelLock(h))
    ensures OnlyOwnMoves(s, Apply(s, CancelLock(h)), CancelLock(h))
  {
    hide Inv;
    HandlerPhase(s, h);
  }

  lemma OwnCounts(s: State, a: Action)
    requires Inv(s) && Enabled(s, a) && !a.Arrive? && !a.TakeLock? && !a.CancelLock?
    ensures OnlyOwnMoves(s, Apply(s, a), a)
  {
    hide Inv;
    HandlerPhase(s, a.h);
    OwnCountsStep(s, a);
    hide Apply;
  }

  lemma LockKeepsMetrics(s: State, h: StreamId)
    requires Enabled(s, TakeLock(h)) && s.streams[h].takes.None?
    ensures Apply(s, TakeLock(h)).metrics == s.metrics
    ensures !Counted(Apply(s, TakeLock(h)).streams[h]) && !Active(Apply(s, TakeLock(h)).streams[h])
  {}

  /** A step outside the lock leaves the phases of other handlers alone. */
  lemma OwnCountsStep(s: State, a: Action)
    requires Enabled(s, a) && !a.Arrive? && !a.TakeLock? && !a.CancelLock? && PhaseOk(s.streams[a.h])
    ensures var s' := Apply(s, a);
            && s'.streams.Keys == s.streams.Keys && Gauged(s.metrics, s'.metrics, s.streams[a.h], a)
            && CountsMove(s.streams[a.h], s'.streams[a.h], a)
            && forall k | k in s.streams && k != a.h ::
                 s'.streams[k].takes == s.streams[k].takes && s'.streams[k].phase == s.streams[k].phase
  {
    LocalCountsMove(s.streams[a.h], a);
    hide Local, CountsMove, PhaseOk;
  }

  lemma StepKeepsMetrics(s: State, a: Action)
    requires Inv(s) && Enabled(s, a) && MetricsExact(s)
    ensures MetricsExact(Apply(s, a))
  {
    hide Inv, Apply, Counted, Active, Those;
    CountsStep(s, a);
    OneMoves(s.streams, Apply(s, a).streams, a.h, Counted);
    OneMoves(s.streams, Apply(s, a).streams, a.h, Active);
  }

  lemma {:induction false} RunKeepsMetrics(s: State, acts: seq<Action>)
    requires Inv(s) && IsRun(s, acts) && MetricsExact(s)
    ensures MetricsExact(After(s, acts))
    decreases |acts|
  {
    hide MetricsExact, Inv;
    if acts != [] {
      StepKeepsMetrics(s, acts[0]);
      StepKeepsInv(s, acts[0]);
      RunKeepsMetrics(Apply(s, acts[0]), acts[1..]);
    }
  }

  /** The gauge is the number of second sides now piping; the counter, of all that ever began. */
  lemma {:induction false} GaugeMatchesSessions(acts: seq<Action>)
    requires IsRun(INIT, acts)
    ensures var s := After(INIT, acts);
            s.metrics.pairings == |CountedPairings(s)| && s.metrics.active == |ActiveSessions(s)|
  {
    InitInv();
    assert CountedPairings(INIT) == {} && ActiveSessions(INIT) == {};
    RunKeepsMetrics(INIT, acts);
  }
}
