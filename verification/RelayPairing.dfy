/**
 Safety of the relay over every interleaving: the invariant of `RelayService`, and
 what follows from it about channels, waiters, readers and writers, and pairings.
 */
module RelayPairing {
  import opened Prelude
  import opened RelayService

  function Lookup<K, V>(m: map<K, V>, k: K): Option<V> {
    if k in m then Some(m[k]) else None
  }

  /** The one other stream this handler was paired with, from either side of the pairing. */
  function Partner(x: Stream): Option<StreamId> {
    if x.takes.Some? then x.takes else x.takenBy
  }

  function PeerOf(s: State, x: Stream): Option<Stream> {
    if Partner(x).Some? then Lookup(s.streams, Partner(x).value) else None
  }

  /** The frame received but not yet handed to the peer's stream. */
  function InFlight(x: Stream): seq<Frame> {
    if x.phase.Piping? && !x.phase.pc.AtRecv? then [x.phase.pc.frame] else []
  }

  predicate Waits(x: Stream) { x.phase.InSelect? || x.phase.AtCancelLock? }

  /** The statuses returned before the lock. */
  predicate Refused(status: Status) { status.InvalidArgument? || status.Unauthenticated? || status.Internal? }

  /** What the program counter says about the pairing history. */
  ghost predicate PhaseOk(x: Stream) {
    && (x.locked ==> x.verified && x.headerSent && x.Token() != "")
    && match x.phase
       case Arrived => !x.verified && !x.headerSent && !x.locked && x.takes.None? && x.takenBy.None? && !x.left
       case AtLock =>
         !x.locked && x.takes.None? && x.takenBy.None? && !x.left && x.verified && x.headerSent && x.Token() != ""
       case AtSendMatched(p) => x.locked && x.takes == Some(p)
       case AtMetrics(p) => x.locked && x.takes == Some(p)
       case InSelect => x.locked && x.takes.None? && !x.left
       case AtCancelLock => x.locked && x.takes.None? && !x.left
       case Piping(d, _) => x.locked && Partner(x) == Some(d) && !x.left
       case Returned(status) =>
         && (Refused(status) <==> !x.locked) && (status.Unauthenticated? ==> !x.verified)
         && (!x.locked ==> x.takes.None? && x.takenBy.None? && !x.left)
  }

  /** `takes` and `takenBy` are inverse and join two different streams with one token. */
  ghost predicate LinksOk(h: StreamId, x: Stream, peer: Option<Stream>) {
    && (x.takes.Some? ==> x.takenBy.None? && peer.Some? && peer.value.takenBy == Some(h))
    && (x.takenBy.Some? ==> peer.Some? && peer.value.takes == Some(h))
    && (Partner(x).Some? ==> !x.left && Partner(x) != Some(h) && peer.value.Token() == x.Token())
  }

  /** The one-slot channel: empty until its single send, full until received. */
  ghost predicate ChannelOk(x: Stream, peer: Option<Stream>) {
    if x.takenBy.None? then
      x.sends == 0 && x.matched == []
    else if peer.Some? && peer.value.phase.AtSendMatched? then
      x.sends == 0 && x.matched == [] && !x.phase.Piping?
    else
      && x.sends == 1
      && (x.matched == [] || x.matched == [x.takenBy.value])
      && (Waits(x) ==> x.matched != [])
      && (x.phase.Piping? ==> x.matched == [])
  }

  /** Frames: received in the client's order, and written only from the partner's received frames. */
  ghost predicate FramesOk(x: Stream, peer: Option<Stream>) {
    && x.sent == x.received + x.inbox
    && (!x.phase.Piping? && !x.phase.Returned? ==> x.received == [])
    && (peer.None? ==> x.received == [] && x.written == [])
    && (peer.Some? ==>
          && x.written <= peer.value.received
          && |peer.value.received| <= |x.written| + 1
          && (peer.value.phase.Piping? ==> peer.value.received == x.written + InFlight(peer.value)))
  }

  ghost predicate StreamOk(h: StreamId, x: Stream, entry: Option<StreamId>, peer: Option<Stream>) {
    && PhaseOk(x) && LinksOk(h, x, peer) && ChannelOk(x, peer) && FramesOk(x, peer)
    // A registered waiter that nobody took and that did not leave is in the map.
    && (Waits(x) && x.takenBy.None? ==> entry == Some(h))
  }

  /** Every entry of `waiting` belongs to a handler still in its wait section. */
  ghost predicate WaitingOk(s: State) {
    forall t | t in s.waiting ::
      && s.waiting[t] in s.streams
      && var w := s.streams[s.waiting[t]];
         w.Token() == t && w.takenBy.None? && Waits(w)
  }

  ghost predicate OkAt(s: State, h: StreamId)
    requires h in s.streams
  {
    StreamOk(h, s.streams[h], Lookup(s.waiting, s.streams[h].Token()), PeerOf(s, s.streams[h]))
  }

  ghost predicate Inv(s: State) {
    && WaitingOk(s)
    && forall h | h in s.streams :: OkAt(s, h)
  }

  lemma InitInv()
    ensures Inv(INIT)
  {}

  // ----- every step keeps the invariant -----

  /** Partners are mutual, so a step can only disturb the streams it touches and their partners. */
  lemma PartnersMutual(s: State, h: StreamId)
    requires Inv(s) && h in s.streams && Partner(s.streams[h]).Some?
    ensures var p := Partner(s.streams[h]).value;
            p != h && p in s.streams && Partner(s.streams[p]) == Some(h) && s.streams[p].Token() == s.streams[h].Token()
  {
    var p := Partner(s.streams[h]).value;
    assert OkAt(s, h);
    assert OkAt(s, p);
  }

  /** Streams outside `touched` whose view did not change are still fine. */
  lemma FrameRule(s: State, s': State, touched: set<StreamId>)
    requires Inv(s) && WaitingOk(s')
    requires s'.streams.Keys == s.streams.Keys + touched
    requires forall k | k in s.streams && k !in touched :: s'.streams[k] == s.streams[k]
    requires forall k | k in s.streams && k !in touched && Waits(s.streams[k]) && s.streams[k].takenBy.None? ::
               Lookup(s'.waiting, s.streams[k].Token()) == Lookup(s.waiting, s.streams[k].Token())
    requires forall k | k in touched :: OkAt(s', k)
    requires forall k | k in touched && k in s.streams && Partner(s.streams[k]).Some? ::
               Partner(s.streams[k]).value in touched
    ensures Inv(s')
  {
    forall k | k in s'.streams ensures OkAt(s', k) {
      if k !in touched {
        assert OkAt(s, k);
        var x := s.streams[k];
        if Partner(x).Some? {
          PartnersMutual(s, k);
          var p := Partner(x).value;
          assert p !in touched;
          assert PeerOf(s', x) == PeerOf(s, x);
        }
      }
    }
  }

  // What a step does to the streams it touches, on values alone.

  predicate IsPipeStep(a: Action) { a.Recv? || a.RecvFails? || a.CountBytes? || a.SendFrame? || a.SendFails? }

  lemma AloneDoesNotPipe(h: StreamId, x: Stream, entry: Option<StreamId>, a: Action)
    requires StreamOk(h, x, entry, None) && Partner(x).None? && Ready(x, a)
    ensures !IsPipeStep(a) && !a.SendMatched? && !a.CountPairing? && !a.ReceiveMatch?
  {}

  lemma AloneKeepsOk(h: StreamId, x: Stream, entry: Option<StreamId>, a: Action)
    requires StreamOk(h, x, entry, None) && Partner(x).None?
    requires Ready(x, a) && !a.TakeLock? && !a.CancelLock?
    ensures var x' := Local(x, a);
            && Target(x, a).None?
            && x'.values == x.values && Partner(x').None? && x'.takenBy == x.takenBy && (Waits(x) ==> Waits(x'))
            && StreamOk(h, x', entry, None)
  {
    AloneDoesNotPipe(h, x, entry, a);
  }

  /** Two partners `x` and `y` after `x`'s handler took a step. */
  ghost predicate PairOk(
      h: StreamId, x: Stream, x': Stream, p: StreamId, y: Stream, y': Stream, entry: Option<StreamId>) {
    && x'.values == x.values && Partner(x') == Partner(x) && x'.takenBy == x.takenBy
    && y'.values == y.values && Partner(y') == Partner(y) && y'.takenBy == y.takenBy
    && (Waits(x) && x.takenBy.None? ==> Waits(x')) && (Waits(y) ==> Waits(y'))
    && StreamOk(h, x', entry, Some(y')) && StreamOk(p, y', entry, Some(x'))
  }

  ghost predicate Partners(h: StreamId, x: Stream, p: StreamId, y: Stream, entry: Option<StreamId>) {
    && Partner(x) == Some(p) && Partner(y) == Some(h) && p != h && y.Token() == x.Token()
    && StreamOk(h, x, entry, Some(y)) && StreamOk(p, y, entry, Some(x))
  }

  lemma PairingKeepsOk(h: StreamId, x: Stream, p: StreamId, y: Stream, entry: Option<StreamId>, a: Action)
    requires Partners(h, x, p, y, entry) && Ready(x, a)
    requires a.ClientSends? || a.ContextDone? || a.Validate? || a.CountPairing? || a.ReceiveMatch? || a.ChooseDone?
    ensures PairOk(h, x, Local(x, a), p, y, y, entry)
  {}

  lemma MatchSendKeepsOk(h: StreamId, x: Stream, p: StreamId, y: Stream, entry: Option<StreamId>, a: Action)
    requires Partners(h, x, p, y, entry) && Ready(x, a) && a.SendMatched?
    ensures Target(x, a) == Some(p) && PairOk(h, x, Local(x, a), p, y, Delivered(y, h, x, a), entry)
  {}

  lemma PipeKeepsOk(h: StreamId, x: Stream, p: StreamId, y: Stream, entry: Option<StreamId>, a: Action)
    requires Partners(h, x, p, y, entry) && Ready(x, a)
    requires a.Recv? || a.RecvFails? || a.CountBytes? || a.SendFails?
    ensures PairOk(h, x, Local(x, a), p, y, y, entry)
  {
    if a.RecvFails? || a.SendFails? {
      PipeEndsOk(h, x, p, y, entry, a);
    } else if a.Recv? {
      RecvKeepsOk(h, x, p, y, entry, a);
    } else {
      CountKeepsOk(h, x, p, y, entry, a);
    }
    hide Local, PairOk;
  }

  lemma RecvKeepsOk(h: StreamId, x: Stream, p: StreamId, y: Stream, entry: Option<StreamId>, a: Action)
    requires Partners(h, x, p, y, entry) && Ready(x, a) && a.Recv?
    ensures PairOk(h, x, Local(x, a), p, y, y, entry)
  {}

  lemma CountKeepsOk(h: StreamId, x: Stream, p: StreamId, y: Stream, entry: Option<StreamId>, a: Action)
    requires Partners(h, x, p, y, entry) && Ready(x, a) && a.CountBytes?
    ensures PairOk(h, x, Local(x, a), p, y, y, entry)
  {}

  lemma PipeEndsOk(h: StreamId, x: Stream, p: StreamId, y: Stream, entry: Option<StreamId>, a: Action)
    requires Partners(h, x, p, y, entry) && Ready(x, a) && (a.RecvFails? || a.SendFails?)
    ensures PairOk(h, x, Local(x, a), p, y, y, entry)
  {}

  lemma FrameSendKeepsOk(h: StreamId, x: Stream, p: StreamId, y: Stream, entry: Option<StreamId>, a: Action)
    requires Partners(h, x, p, y, entry) && Ready(x, a) && a.SendFrame?
    ensures Target(x, a) == Some(p) && PairOk(h, x, Local(x, a), p, y, Delivered(y, h, x, a), entry)
  {}

  lemma MatchKeepsOk(h: StreamId, x: Stream, p: StreamId, y: Stream)
    requires StreamOk(h, x, Some(p), None) && x.phase.AtLock?
    requires StreamOk(p, y, Some(p), None) && Waits(y) && y.takenBy.None? && p != h && y.Token() == x.Token()
    ensures var x' := x.(phase := AtSendMatched(p), locked := true, takes := Some(p));
            var y' := y.(takenBy := Some(h));
            StreamOk(h, x', None, Some(y')) && StreamOk(p, y', None, Some(x'))
  {}

  lemma RegisterKeepsOk(h: StreamId, x: Stream)
    requires StreamOk(h, x, None, None) && x.phase.AtLock?
    ensures StreamOk(h, x.(phase := InSelect, locked := true), Some(h), None)
  {}

  lemma LeaveKeepsOk(h: StreamId, x: Stream, entry: Option<StreamId>)
    requires StreamOk(h, x, entry, None) && x.phase.AtCancelLock? && Partner(x).None?
    ensures entry == Some(h) && StreamOk(h, Leave(x, ContextError).(left := true), None, None)
  {}

  lemma LateLeaveKeepsOk(h: StreamId, x: Stream, p: StreamId, y: Stream, entry: Option<StreamId>)
    requires Partners(h, x, p, y, entry) && x.phase.AtCancelLock?
    ensures x.takenBy.Some?
    ensures PairOk(h, x, Leave(x, ContextError).(left := false), p, y, y, entry)
  {}

  // The same steps inside the whole state.

  lemma WaiterRegistered(s: State, k: StreamId)
    requires Inv(s) && k in s.streams && Waits(s.streams[k]) && s.streams[k].takenBy.None?
    ensures s.streams[k].Token() in s.waiting && s.waiting[s.streams[k].Token()] == k
    ensures Partner(s.streams[k]).None?
  {
    assert OkAt(s, k);
  }

  /** What reached a stream's client, against what its partner's handler received. */
  lemma PartnerFrames(s: State, h: StreamId)
    requires Inv(s) && h in s.streams && Partner(s.streams[h]).Some?
    ensures Partner(s.streams[h]).value in s.streams
    ensures var x, y := s.streams[h], s.streams[Partner(s.streams[h]).value];
            && y.written <= x.received <= x.sent && x.sent == x.received + x.inbox
            && |x.received| <= |y.written| + 1
            && (x.phase.Piping? ==> x.received == y.written + InFlight(x))
  {
    PartnersMutual(s, h);
    assert OkAt(s, h);
    assert OkAt(s, Partner(s.streams[h]).value);
  }

  lemma LoneFrames(s: State, h: StreamId)
    requires Inv(s) && h in s.streams && Partner(s.streams[h]).None?
    ensures var x := s.streams[h];
            x.received == [] && x.written == [] && x.sent == x.inbox && !x.phase.Piping?
  {
    assert OkAt(s, h);
  }

  lemma LockerAlone(s: State, h: StreamId)
    requires Inv(s) && h in s.streams && s.streams[h].phase.AtLock?
    ensures Partner(s.streams[h]).None?
    ensures StreamOk(h, s.streams[h], Lookup(s.waiting, s.streams[h].Token()), None)
  {
    assert OkAt(s, h);
  }

  lemma PartnersOf(s: State, h: StreamId)
    requires Inv(s) && h in s.streams && Partner(s.streams[h]).Some?
    ensures var p := Partner(s.streams[h]).value;
            p in s.streams && Partners(h, s.streams[h], p, s.streams[p], Lookup(s.waiting, s.streams[h].Token()))
  {
    PartnersMutual(s, h);
    hide StreamOk;
    assert OkAt(s, h) && OkAt(s, Partner(s.streams[h]).value);
  }

  lemma ReplacePair(s: State, s': State, h: StreamId, x': Stream, p: StreamId, y': Stream)
    requires Inv(s) && h in s.streams && p in s.streams
    requires Partners(h, s.streams[h], p, s.streams[p], Lookup(s.waiting, s.streams[h].Token()))
    requires PairOk(h, s.streams[h], x', p, s.streams[p], y', Lookup(s.waiting, s.streams[h].Token()))
    requires s'.waiting == s.waiting && s'.streams == s.streams[p := y'][h := x']
    ensures Inv(s')
  {
    hide StreamOk;
    assert x'.Token() == s.streams[h].Token() && y'.Token() == s.streams[p].Token();
    assert PeerOf(s', x') == Some(y') && PeerOf(s', y') == Some(x');
    FrameRule(s, s', {h, p});
  }

  lemma AloneStepKeepsInv(s: State, a: Action)
    requires Inv(s) && Enabled(s, a) && !a.Arrive? && !a.TakeLock? && !a.CancelLock?
    requires Partner(s.streams[a.h]).None?
    ensures Inv(Apply(s, a))
  {
    hide StreamOk, Local, Delivered;
    var x := s.streams[a.h];
    assert OkAt(s, a.h);
    AloneKeepsOk(a.h, x, Lookup(s.waiting, x.Token()), a);
    assert Apply(s, a).streams[a.h].Token() == x.Token();
    FrameRule(s, Apply(s, a), {a.h});
  }

  lemma SendStepKeepsInv(s: State, a: Action)
    requires Inv(s) && Enabled(s, a) && (a.SendMatched? || a.SendFrame?)
    requires Partner(s.streams[a.h]).Some?
    ensures Inv(Apply(s, a))
  {
    hide StreamOk, Local, Delivered;
    var h, x := a.h, s.streams[a.h];
    var entry := Lookup(s.waiting, x.Token());
    PartnersOf(s, h);
    var p := Partner(x).value;
    var y := s.streams[p];
    if a.SendMatched? {
      MatchSendKeepsOk(h, x, p, y, entry, a);
    } else {
      FrameSendKeepsOk(h, x, p, y, entry, a);
    }
    ReplacePair(s, Apply(s, a), h, Local(x, a), p, Delivered(y, h, x, a));
  }

  lemma PairedStepKeepsInv(s: State, a: Action)
    requires Inv(s) && Enabled(s, a)
    requires !a.Arrive? && !a.TakeLock? && !a.CancelLock? && !a.SendMatched? && !a.SendFrame?
    requires Partner(s.streams[a.h]).Some?
    ensures Inv(Apply(s, a))
  {
    hide StreamOk, Local, Delivered;
    var h, x := a.h, s.streams[a.h];
    var entry := Lookup(s.waiting, x.Token());
    PartnersOf(s, h);
    var p := Partner(x).value;
    var y := s.streams[p];
    if a.Recv? || a.RecvFails? || a.CountBytes? || a.SendFails? {
      PipeKeepsOk(h, x, p, y, entry, a);
    } else {
      PairingKeepsOk(h, x, p, y, entry, a);
    }
    assert Apply(s, a).streams == s.streams[p := y][h := Local(x, a)];
    ReplacePair(s, Apply(s, a), h, Local(x, a), p, y);
  }

  lemma ArriveKeepsInv(s: State, a: Action)
    requires Inv(s) && Enabled(s, a) && a.Arrive?
    ensures Inv(Apply(s, a))
  {
    FrameRule(s, Apply(s, a), {a.h});
  }

  lemma SecondSideKeepsInv(s: State, h: StreamId)
    requires Inv(s) && h in s.streams && s.streams[h].phase.AtLock? && s.streams[h].Token() in s.waiting
    ensures Inv(Locked(s, h))
  {
    hide StreamOk;
    var s', t := Locked(s, h), s.streams[h].Token();
    var p := s.waiting[t];
    LockerAlone(s, h);
    WaiterRegistered(s, p);
    assert OkAt(s, p);
    MatchKeepsOk(h, s.streams[h], p, s.streams[p]);
    TakeEntry(s, s', h, p);
  }

  lemma FirstSideKeepsInv(s: State, h: StreamId)
    requires Inv(s) && h in s.streams && s.streams[h].phase.AtLock? && s.streams[h].Token() !in s.waiting
    ensures Inv(Locked(s, h))
  {
    hide StreamOk;
    LockerAlone(s, h);
    RegisterKeepsOk(h, s.streams[h]);
    OthersKeepEntries(s, Locked(s, h), h);
    FrameRule(s, Locked(s, h), {h});
  }

  /** The lock section of a second side: it and the taken waiter become partners. */
  lemma TakeEntry(s: State, s': State, h: StreamId, p: StreamId)
    requires Inv(s) && h in s.streams && s.streams[h].phase.AtLock? && Partner(s.streams[h]).None?
    requires var t := s.streams[h].Token();
             t in s.waiting && s.waiting[t] == p && p != h && s'.waiting == s.waiting - {t}
    requires p in s.streams && Partner(s.streams[p]).None?
    requires s'.streams.Keys == s.streams.Keys
    requires forall k | k in s.streams && k != h && k != p :: s'.streams[k] == s.streams[k]
    requires s'.streams[h].values == s.streams[h].values && s'.streams[p].values == s.streams[p].values
    requires Partner(s'.streams[h]) == Some(p) && Partner(s'.streams[p]) == Some(h)
    requires StreamOk(h, s'.streams[h], None, Some(s'.streams[p]))
    requires StreamOk(p, s'.streams[p], None, Some(s'.streams[h]))
    ensures Inv(s')
  {
    hide StreamOk;
    forall k | k in s.streams && k != h && k != p && Waits(s.streams[k]) && s.streams[k].takenBy.None?
      ensures Lookup(s'.waiting, s.streams[k].Token()) == Lookup(s.waiting, s.streams[k].Token())
    {
      WaiterRegistered(s, k);
    }
    FrameRule(s, s', {h, p});
  }

  /** Registering or leaving under `h`'s token moves no other waiter's entry. */
  lemma OthersKeepEntries(s: State, s': State, h: StreamId)
    requires Inv(s) && h in s.streams
    requires s'.waiting == s.waiting[s.streams[h].Token() := h] || s'.waiting == s.waiting - {s.streams[h].Token()}
    requires s.streams[h].Token() in s.waiting ==> s.waiting[s.streams[h].Token()] == h
    ensures forall k | k in s.streams && k != h && Waits(s.streams[k]) && s.streams[k].takenBy.None? ::
              Lookup(s'.waiting, s.streams[k].Token()) == Lookup(s.waiting, s.streams[k].Token())
  {
    hide StreamOk;
    forall k | k in s.streams && k != h && Waits(s.streams[k]) && s.streams[k].takenBy.None?
      ensures Lookup(s'.waiting, s.streams[k].Token()) == Lookup(s.waiting, s.streams[k].Token())
    {
      WaiterRegistered(s, k);
    }
  }

  lemma CancelLockKeepsInv(s: State, a: Action)
    requires Inv(s) && Enabled(s, a) && a.CancelLock?
    ensures Inv(Apply(s, a))
  {
    hide StreamOk;
    var s' := Apply(s, a);
    var h, x, t := a.h, s.streams[a.h], s.streams[a.h].Token();
    assert OkAt(s, h);
    if Partner(x).Some? {
      PartnersOf(s, h);
      var p := Partner(x).value;
      LateLeaveKeepsOk(h, x, p, s.streams[p], Lookup(s.waiting, t));
      assert s'.streams == s.streams[p := s.streams[p]][h := s'.streams[h]];
      ReplacePair(s, s', h, s'.streams[h], p, s.streams[p]);
    } else {
      LeaveKeepsOk(h, x, Lookup(s.waiting, t));
      OthersKeepEntries(s, s', h);
      FrameRule(s, s', {h});
    }
  }

  lemma StepKeepsInv(s: State, a: Action)
    requires Inv(s) && Enabled(s, a)
    ensures Inv(Apply(s, a))
  {
    hide StreamOk;
    if a.Arrive? {
      ArriveKeepsInv(s, a);
    } else if a.TakeLock? {
      if s.streams[a.h].Token() in s.waiting {
        SecondSideKeepsInv(s, a.h);
      } else {
        FirstSideKeepsInv(s, a.h);
      }
    } else if a.CancelLock? {
      CancelLockKeepsInv(s, a);
    } else if Partner(s.streams[a.h]).None? {
      AloneStepKeepsInv(s, a);
    } else if a.SendMatched? || a.SendFrame? {
      SendStepKeepsInv(s, a);
    } else {
      PairedStepKeepsInv(s, a);
    }
  }
}
