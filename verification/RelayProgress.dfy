/**
 Progress through the relay: two clients that follow core/nexdesk-core/src/rendezvous/relay.rs
 (`connect`, then send a hello, then receive one) present one valid token to `RelayService`.
 Neither cancels and nothing of theirs fails; meanwhile the relay serves any number of
 streams under other tokens, which may pair, cancel and fail.  Whatever the scheduling,
 the two make finitely many moves, they can stop only when each client holds the other's
 device id, and no other stream can take a move away from them.
 */
module RelayProgress {
  import opened Prelude
  import opened RelayService
  import opened RelayPairing
  import opened RelayTheorems

  type DeviceId = string

  /** The SessionHello message format; the only thing assumed of it is that decoding undoes encoding. */
  datatype Codec = Codec(encode: DeviceId -> Frame, decode: Frame -> Option<DeviceId>)

  ghost predicate RoundTrips(c: Codec) { forall d :: c.decode(c.encode(d)) == Some(d) }

  datatype ClientPc =
    | Dialing                    // about to open the stream
    | AwaitHeaders               // `connect` returns when response headers arrive
    | SendingHello
    | AwaitHello
    | Paired(theirs: DeviceId)
    | Failed                     // the hello did not decode

  datatype Client = Client(id: DeviceId, pc: ClientPc, read: nat)

  /** Client `i` owns stream `i`. */
  datatype World = World(server: State, clients: seq<Client>)

  datatype Move =
    | Dial(i: nat)
    | SeeHeaders(i: nat)
    | SayHello(i: nat)
    | TakeHello(i: nat)
    | Serve(action: Action)   // by the handler of one of the two
    | Other(step: Action)     // of any other stream on the relay

  function Start(ids: seq<DeviceId>): World
    requires |ids| == 2
  {
    World(INIT, [Client(ids[0], Dialing, 0), Client(ids[1], Dialing, 0)])
  }

  /** The handler's own steps when the token verifies and no operation fails. */
  predicate Succeeds(a: Action) {
    || (a.Validate? && a.verified && a.headerOk)
    || a.TakeLock? || a.SendMatched? || a.CountPairing? || a.ReceiveMatch?
    || a.Recv? || a.CountBytes? || a.SendFrame?
  }

  /** Any step of a stream other than the two, which presents another token. */
  predicate Foreign(s: State, step: Action, token: Token) {
    step.h >= 2 && Enabled(s, step) && (step.Arrive? ==> NewStream(step.values).Token() != token)
  }

  predicate CanMove(w: World, m: Move, token: Token) {
    match m
    case Serve(a) => a.h < 2 && Enabled(w.server, a) && Succeeds(a)
    case Other(step) => Foreign(w.server, step, token)
    case Dial(i) => i < |w.clients| && w.clients[i].pc.Dialing? && i !in w.server.streams
    case SeeHeaders(i) =>
      i < |w.clients| && w.clients[i].pc.AwaitHeaders? && i in w.server.streams && w.server.streams[i].headerSent
    case SayHello(i) => i < |w.clients| && w.clients[i].pc.SendingHello? && i in w.server.streams
    case TakeHello(i) =>
      i < |w.clients| && w.clients[i].pc.AwaitHello? && i in w.server.streams &&
      w.clients[i].read < |w.server.streams[i].written|
  }

  function Moved(w: World, m: Move, token: Token, c: Codec): World
    requires CanMove(w, m, token)
  {
    match m
    case Serve(a) => w.(server := Apply(w.server, a))
    case Other(step) => w.(server := Apply(w.server, step))
    case Dial(i) =>
      w.(server := Apply(w.server, Arrive(i, [token])), clients := w.clients[i := w.clients[i].(pc := AwaitHeaders)])
    case SeeHeaders(i) => w.(clients := w.clients[i := w.clients[i].(pc := SendingHello)])
    case SayHello(i) =>
      w.(server := Apply(w.server, ClientSends(i, c.encode(w.clients[i].id))),
         clients := w.clients[i := w.clients[i].(pc := AwaitHello)])
    case TakeHello(i) =>
      var them := c.decode(w.server.streams[i].written[w.clients[i].read]);
      w.(clients := w.clients[i := w.clients[i].(pc := if them.Some? then Paired(them.value) else Failed,
                                                 read := w.clients[i].read + 1)])
  }

  predicate IsPlay(w: World, moves: seq<Move>, token: Token, c: Codec)
    decreases |moves|
  {
    moves == [] || (CanMove(w, moves[0], token) && IsPlay(Moved(w, moves[0], token, c), moves[1..], token, c))
  }

  function Ending(w: World, moves: seq<Move>, token: Token, c: Codec): World
    requires IsPlay(w, moves, token, c)
    decreases |moves|
  {
    if moves == [] then w else Ending(Moved(w, moves[0], token, c), moves[1..], token, c)
  }

  // ----- what holds along every play -----

  /** One client and its handler, as far as neither depends on the other side. */
  ghost predicate SideOk(client: Client, x: Option<Stream>, theirId: DeviceId, token: Token, c: Codec) {
    && !client.pc.Failed?
    && client.read == (if client.pc.Paired? then 1 else 0)
    && (client.pc.Paired? ==> client.pc.theirs == theirId)
    && (client.pc.Dialing? <==> x.None?)
    && (x.Some? ==>
          && x.value.values == [token]
          && !x.value.phase.Returned? && !x.value.phase.AtCancelLock?
          && (x.value.headerSent <==> !x.value.phase.Arrived?)
          && (client.pc.SendingHello? || client.pc.AwaitHello? || client.pc.Paired? ==> x.value.headerSent)
          && x.value.sent == if client.pc.AwaitHello? || client.pc.Paired? then [c.encode(client.id)] else [])
  }

  /** No stream but the two presents their token. */
  ghost predicate OthersApart(s: State, token: Token) {
    forall h | h in s.streams && h >= 2 :: s.streams[h].Token() != token
  }

  ghost predicate PlayInv(w: World, ids: seq<DeviceId>, token: Token, c: Codec)
    requires |ids| == 2
  {
    && Inv(w.server) && token != ""
    && |w.clients| == 2 && OthersApart(w.server, token)
    && w.clients[0].id == ids[0] && w.clients[1].id == ids[1]
    && SideOk(w.clients[0], Lookup(w.server.streams, 0), ids[1], token, c)
    && SideOk(w.clients[1], Lookup(w.server.streams, 1), ids[0], token, c)
  }

  /** What a server step does to a handler as its own client's side sees it. */
  lemma ServeStep(s: State, a: Action, h: StreamId)
    requires Inv(s) && Enabled(s, a) && Succeeds(a) && h in s.streams
    requires s.streams[h].Token() != ""
    requires s.streams[h].headerSent <==> !s.streams[h].phase.Arrived?
    requires !s.streams[h].phase.Returned? && !s.streams[h].phase.AtCancelLock?
    ensures Apply(s, a).streams.Keys == s.streams.Keys
    ensures var x, x' := s.streams[h], Apply(s, a).streams[h];
            && x'.values == x.values && x'.sent == x.sent
            && !x'.phase.Returned? && !x'.phase.AtCancelLock?
            && (x'.headerSent <==> !x'.phase.Arrived?)
            && (x.headerSent ==> x'.headerSent)
  {
    hide Inv;
    if !a.TakeLock? && a.h == h {
      LocalServes(s.streams[h], a);
    }
    hide Local, Ready, Measured;
  }

  lemma LocalServes(x: Stream, a: Action)
    requires Ready(x, a) && Succeeds(a) && !a.TakeLock? && x.Token() != ""
    requires (x.headerSent <==> !x.phase.Arrived?) && !x.phase.Returned? && !x.phase.AtCancelLock?
    ensures var x' := Local(x, a);
            && x'.values == x.values && x'.sent == x.sent
            && !x'.phase.Returned? && !x'.phase.AtCancelLock?
            && (x'.headerSent <==> !x'.phase.Arrived?) && (x.headerSent ==> x'.headerSent)
  {}

  /** A client's own move changes its client record and at most its own stream, which stays ready for more. */
  lemma SideKeepsInv(w: World, w': World, i: nat, ids: seq<DeviceId>, token: Token, c: Codec)
    requires |ids| == 2 && PlayInv(w, ids, token, c) && i < 2
    requires Inv(w'.server) && |w'.clients| == 2 && w'.clients[1 - i] == w.clients[1 - i]
    requires w'.clients[i].id == w.clients[i].id
    requires OthersApart(w'.server, token)
    requires Lookup(w'.server.streams, 1 - i) == Lookup(w.server.streams, 1 - i)
    requires SideOk(w'.clients[i], Lookup(w'.server.streams, i), ids[1 - i], token, c)
    ensures PlayInv(w', ids, token, c)
  {
    hide Inv, SideOk, OthersApart;
  }

  lemma StepKeepsApart(s: State, a: Action, token: Token)
    requires Inv(s) && Enabled(s, a) && OthersApart(s, token)
    requires a.h >= 2 && a.Arrive? ==> NewStream(a.values).Token() != token
    ensures OthersApart(Apply(s, a), token)
  {
    StepKeepsTokens(s, a);
    hide Inv, Apply, Enabled;
  }

  // ----- what other streams cannot do -----

  /** Where a handler sends is its partner's stream, so to a stream of its own token. */
  lemma TargetHasToken(s: State, a: Action)
    requires Inv(s) && Enabled(s, a) && !a.Arrive? && Target(s.streams[a.h], a).Some?
    ensures var p := Target(s.streams[a.h], a).value;
            p in s.streams && Partner(s.streams[a.h]) == Some(p) && s.streams[p].Token() == s.streams[a.h].Token()
  {
    HandlerPhase(s, a.h);
    PartnersMutual(s, a.h);
  }

  lemma EntryHasToken(s: State, t: Token)
    requires Inv(s) && t in s.waiting
    ensures s.waiting[t] in s.streams && s.streams[s.waiting[t]].Token() == t
  {}

  /** The steps of a stream of another token leave a stream of this one alone, and this token's entry. */
  lemma ForeignLeaves(s: State, a: Action, token: Token, i: StreamId)
    requires Inv(s) && Foreign(s, a, token) && OthersApart(s, token)
    requires i < 2 && (i in s.streams ==> s.streams[i].Token() == token)
    ensures Lookup(Apply(s, a).streams, i) == Lookup(s.streams, i)
  {
    if a.TakeLock? {
      ForeignLockLeaves(s, a, token, i);
    } else if a.CancelLock? {
      CancelStep(s, a.h);
    } else {
      ForeignStepLeaves(s, a, token, i);
    }
    hide Inv, Apply, Enabled;
  }

  lemma ForeignLockLeaves(s: State, a: Action, token: Token, i: StreamId)
    requires Inv(s) && Foreign(s, a, token) && OthersApart(s, token) && a.TakeLock?
    requires i < 2 && (i in s.streams ==> s.streams[i].Token() == token)
    ensures Lookup(Apply(s, a).streams, i) == Lookup(s.streams, i)
  {
    hide Inv;
    var t := s.streams[a.h].Token();
    if t in s.waiting {
      EntryHasToken(s, t);
    }
  }

  lemma ForeignStepLeaves(s: State, a: Action, token: Token, i: StreamId)
    requires Inv(s) && Foreign(s, a, token) && OthersApart(s, token) && !a.TakeLock? && !a.CancelLock?
    requires i < 2 && (i in s.streams ==> s.streams[i].Token() == token)
    ensures Lookup(Apply(s, a).streams, i) == Lookup(s.streams, i)
  {
    hide Inv;
    if !a.Arrive? && Target(s.streams[a.h], a).Some? {
      TargetHasToken(s, a);
    }
    hide Local, Ready, Measured;
  }

  lemma DialKeepsInv(w: World, i: nat, ids: seq<DeviceId>, token: Token, c: Codec)
    requires |ids| == 2 && PlayInv(w, ids, token, c) && CanMove(w, Dial(i), token)
    ensures PlayInv(Moved(w, Dial(i), token, c), ids, token, c)
  {
    hide Inv;
    StepKeepsInv(w.server, Arrive(i, [token]));
    StepKeepsApart(w.server, Arrive(i, [token]), token);
    SideKeepsInv(w, Moved(w, Dial(i), token, c), i, ids, token, c);
  }

  lemma HeadersKeepInv(w: World, i: nat, ids: seq<DeviceId>, token: Token, c: Codec)
    requires |ids| == 2 && PlayInv(w, ids, token, c) && CanMove(w, SeeHeaders(i), token)
    ensures PlayInv(Moved(w, SeeHeaders(i), token, c), ids, token, c)
  {
    hide Inv;
    SideKeepsInv(w, Moved(w, SeeHeaders(i), token, c), i, ids, token, c);
  }

  lemma HelloKeepsInv(w: World, i: nat, ids: seq<DeviceId>, token: Token, c: Codec)
    requires |ids| == 2 && PlayInv(w, ids, token, c) && CanMove(w, SayHello(i), token)
    ensures PlayInv(Moved(w, SayHello(i), token, c), ids, token, c)
  {
    hide Inv;
    StepKeepsInv(w.server, ClientSends(i, c.encode(w.clients[i].id)));
    StepKeepsApart(w.server, ClientSends(i, c.encode(w.clients[i].id)), token);
    SideKeepsInv(w, Moved(w, SayHello(i), token, c), i, ids, token, c);
  }

  lemma ShortPrefix<T>(a: seq<T>, b: seq<T>, whole: seq<T>)
    requires a <= b <= whole && |whole| <= 1 && a != []
    ensures a == whole
  {}

  /** What a client receives is what the other client sent. */
  lemma WrittenIsTheirs(w: World, i: nat, ids: seq<DeviceId>, token: Token, c: Codec)
    requires |ids| == 2 && PlayInv(w, ids, token, c) && i < 2 && i in w.server.streams
    requires w.server.streams[i].written != []
    ensures w.server.streams[i].written == [c.encode(ids[1 - i])]
  {
    hide Inv;
    if Partner(w.server.streams[i]).None? {
      LoneFrames(w.server, i);
    } else {
      var j := 1 - i;
      PartnersMutual(w.server, i);
      PartnerFrames(w.server, j);
      ShortPrefix(w.server.streams[i].written, w.server.streams[j].received, w.server.streams[j].sent);
    }
  }

  lemma TakeKeepsInv(w: World, i: nat, ids: seq<DeviceId>, token: Token, c: Codec)
    requires |ids| == 2 && PlayInv(w, ids, token, c) && CanMove(w, TakeHello(i), token)
    requires i < 2 && c.decode(c.encode(ids[1 - i])) == Some(ids[1 - i])
    ensures PlayInv(Moved(w, TakeHello(i), token, c), ids, token, c)
  {
    hide Inv;
    WrittenIsTheirs(w, i, ids, token, c);
    SideKeepsInv(w, Moved(w, TakeHello(i), token, c), i, ids, token, c);
  }

  lemma Decodes(c: Codec, id: DeviceId)
    requires RoundTrips(c)
    ensures c.decode(c.encode(id)) == Some(id)
  {}

  lemma TwoClients(w: World, ids: seq<DeviceId>, token: Token, c: Codec)
    requires |ids| == 2 && PlayInv(w, ids, token, c)
    ensures |w.clients| == 2
  {}

  lemma MoveKeepsInv(w: World, m: Move, ids: seq<DeviceId>, token: Token, c: Codec)
    requires |ids| == 2 && PlayInv(w, ids, token, c) && CanMove(w, m, token) && RoundTrips(c)
    ensures PlayInv(Moved(w, m, token, c), ids, token, c)
  {
    hide PlayInv, Moved, RoundTrips;
    match m {
      case Serve(a) => ServeKeepsInv(w, a, ids, token, c);
      case Other(step) => OtherKeepsInv(w, step, ids, token, c);
      case Dial(i) => DialKeepsInv(w, i, ids, token, c);
      case SeeHeaders(i) => HeadersKeepInv(w, i, ids, token, c);
      case SayHello(i) => HelloKeepsInv(w, i, ids, token, c);
      case TakeHello(i) =>
        TwoClients(w, ids, token, c);
        Decodes(c, ids[1 - i]);
        TakeKeepsInv(w, i, ids, token, c);
    }
  }

  lemma ServeKeepsSide(s: State, a: Action, i: nat, client: Client, theirId: DeviceId, token: Token, c: Codec)
    requires Inv(s) && Enabled(s, a) && Succeeds(a) && token != ""
    requires SideOk(client, Lookup(s.streams, i), theirId, token, c)
    ensures SideOk(client, Lookup(Apply(s, a).streams, i), theirId, token, c)
  {
    hide Inv;
    ServeKeepsKeys(s, a);
    if i in s.streams { ServeStep(s, a, i); }
    hide Apply, Enabled;
  }

  lemma ServeKeepsInv(w: World, a: Action, ids: seq<DeviceId>, token: Token, c: Codec)
    requires |ids| == 2 && PlayInv(w, ids, token, c) && CanMove(w, Serve(a), token)
    ensures PlayInv(Moved(w, Serve(a), token, c), ids, token, c)
  {
    hide Inv, SideOk, OthersApart;
    StepKeepsInv(w.server, a);
    StepKeepsApart(w.server, a, token);
    ServeKeepsSide(w.server, a, 0, w.clients[0], ids[1], token, c);
    ServeKeepsSide(w.server, a, 1, w.clients[1], ids[0], token, c);
    hide Apply, Enabled;
  }

  /** Streams of other tokens leave both peers, and what remains for them to do, as they were. */
  lemma OtherKeepsPeers(w: World, a: Action, ids: seq<DeviceId>, token: Token, c: Codec)
    requires |ids| == 2 && PlayInv(w, ids, token, c) && CanMove(w, Other(a), token)
    ensures var w' := Moved(w, Other(a), token, c);
            && w'.clients == w.clients
            && Lookup(w'.server.streams, 0) == Lookup(w.server.streams, 0)
            && Lookup(w'.server.streams, 1) == Lookup(w.server.streams, 1)
  {
    hide Inv;
    ForeignLeaves(w.server, a, token, 0);
    ForeignLeaves(w.server, a, token, 1);
    hide Apply, Foreign;
  }

  lemma OtherKeepsInv(w: World, a: Action, ids: seq<DeviceId>, token: Token, c: Codec)
    requires |ids| == 2 && PlayInv(w, ids, token, c) && CanMove(w, Other(a), token)
    ensures PlayInv(Moved(w, Other(a), token, c), ids, token, c)
  {
    hide Inv;
    OtherKeepsPeers(w, a, ids, token, c);
    StepKeepsInv(w.server, a);
    hide SideOk;
    StepKeepsApart(w.server, a, token);
    hide Apply, Enabled, OthersApart;
  }

  // ----- the moves of the two end -----

  function HandlerRank(x: Stream): nat {
    match x.phase
    case Arrived => 8
    case AtLock => 7
    case AtSendMatched(_) => 6
    case AtMetrics(_) => 5
    case InSelect => 5
    case Piping(_, AtRecv) => if x.received == [] then 4 else 1
    case Piping(_, AtCount(_)) => 3
    case Piping(_, AtSend(_)) => 2
    case _ => 0
  }

  function SideRank(client: Client, x: Option<Stream>): nat {
    (match client.pc
     case Dialing => 4
     case AwaitHeaders => 3
     case SendingHello => 2
     case AwaitHello => 1
     case _ => 0) +
    if x.None? then 9 else HandlerRank(x.value)
  }

  function Rank(w: World): nat
    requires |w.clients| == 2
  {
    SideRank(w.clients[0], Lookup(w.server.streams, 0)) + SideRank(w.clients[1], Lookup(w.server.streams, 1))
  }

  /** One successful step brings the handler strictly closer to the end. */
  lemma LocalLowersRank(x: Stream, a: Action)
    requires Ready(x, a) && Succeeds(a) && !a.TakeLock? && x.Token() != ""
    requires |x.sent| <= 1 && x.sent == x.received + x.inbox && InFlight(x) <= x.received
    ensures HandlerRank(Local(x, a)) < HandlerRank(x)
  {
    if IsPipeStep(a) {
      PipeLowersRank(x, a);
      hide Local, HandlerRank;
    }
  }

  lemma PipeLowersRank(x: Stream, a: Action)
    requires Ready(x, a) && Succeeds(a) && IsPipeStep(a)
    requires |x.sent| <= 1 && x.sent == x.received + x.inbox && InFlight(x) <= x.received
    ensures HandlerRank(Local(x, a)) < HandlerRank(x)
  {}

  lemma LockLowersRank(s: State, own: StreamId, h: StreamId)
    requires own in s.streams && s.streams[own].phase.AtLock? && h in s.streams
    requires EntryExists(s, s.streams[own].Token())
    ensures var x, x' := s.streams[h], Locked(s, own).streams[h];
            if own == h then HandlerRank(x') < HandlerRank(x) else HandlerRank(x') == HandlerRank(x)
  {}

  /** Being sent to does not move the receiving handler. */
  lemma SendKeepsRank(y: Stream, h: StreamId, x: Stream, a: Action)
    requires Ready(x, a)
    ensures a.SendMatched? || a.SendFrame? ==> HandlerRank(Delivered(y, h, x, a)) == HandlerRank(y)
  {}

  lemma ServeLowersRank(s: State, a: Action, h: StreamId)
    requires Inv(s) && Enabled(s, a) && Succeeds(a) && h in s.streams && s.streams[h].Token() != ""
    requires |s.streams[h].sent| <= 1
    ensures h in Apply(s, a).streams
    ensures var x, x' := s.streams[h], Apply(s, a).streams[h];
            if a.h == h then HandlerRank(x') < HandlerRank(x) else HandlerRank(x') == HandlerRank(x)
  {
    hide Inv, Local, HandlerRank;
    FramesInOrder(s, h);
    if a.TakeLock? {
      LockLowersRank(s, a.h, h);
    } else {
      if a.h == h {
        LocalLowersRank(s.streams[h], a);
      }
      SendKeepsRank(s.streams[h], a.h, s.streams[a.h], a);
    }
  }

  lemma FramesInOrder(s: State, h: StreamId)
    requires Inv(s) && h in s.streams && |s.streams[h].sent| <= 1
    ensures var x := s.streams[h]; x.sent == x.received + x.inbox && InFlight(x) <= x.received
  {
    if Partner(s.streams[h]).None? {
      LoneFrames(s, h);
    } else {
      PartnerFrames(s, h);
    }
    hide Inv;
  }

  lemma ServeLowersTotal(w: World, a: Action, ids: seq<DeviceId>, token: Token, c: Codec)
    requires |ids| == 2 && PlayInv(w, ids, token, c) && CanMove(w, Serve(a), token)
    ensures Rank(Moved(w, Serve(a), token, c)) < Rank(w)
  {
    hide Inv, Apply, HandlerRank;
    if 0 in w.server.streams { ServeLowersRank(w.server, a, 0); }
    if 1 in w.server.streams { ServeLowersRank(w.server, a, 1); }
    ServeKeepsKeys(w.server, a);
  }

  lemma ServeKeepsKeys(s: State, a: Action)
    requires Enabled(s, a) && Succeeds(a)
    ensures Apply(s, a).streams.Keys == s.streams.Keys && a.h in s.streams
  {}

  lemma ClientLowersTotal(w: World, m: Move, ids: seq<DeviceId>, token: Token, c: Codec)
    requires |ids| == 2 && PlayInv(w, ids, token, c) && CanMove(w, m, token) && !m.Serve? && !m.Other?
    ensures Rank(Moved(w, m, token, c)) < Rank(w)
  {
    hide Inv;
    if m.Dial? || m.SayHello? {
      var s' := Moved(w, m, token, c).server;
      assert s'.streams.Keys == w.server.streams.Keys + {m.i};
      assert HandlerRank(s'.streams[m.i]) == if m.Dial? then 8 else HandlerRank(w.server.streams[m.i]);
    }
    hide HandlerRank;
  }

  // ----- no unfinished state is stuck -----

  predicate Finished(w: World, ids: seq<DeviceId>)
    requires |ids| == 2
  {
    |w.clients| == 2 && w.clients[0].pc == Paired(ids[1]) && w.clients[1].pc == Paired(ids[0])
  }

  /** The step the handler of stream `h` takes next, when it can take one. */
  function HandlerStep(x: Stream, h: StreamId): Option<Action> {
    match x.phase
    case Arrived => Some(Validate(h, true, true))
    case AtLock => Some(TakeLock(h))
    case AtSendMatched(_) => Some(SendMatched(h))
    case AtMetrics(_) => Some(CountPairing(h))
    case InSelect => if x.matched != [] then Some(ReceiveMatch(h)) else None
    case Piping(_, AtRecv) => if x.inbox != [] then Some(Recv(h)) else None
    case Piping(_, AtCount(_)) => Some(CountBytes(h))
    case Piping(_, AtSend(_)) => Some(SendFrame(h))
    case _ => None
  }

  /** A handler's next step is enabled: in particular its channel send has room. */
  lemma HandlerStepEnabled(s: State, h: StreamId)
    requires Inv(s) && h in s.streams && HandlerStep(s.streams[h], h).Some?
    ensures Enabled(s, HandlerStep(s.streams[h], h).value) && Succeeds(HandlerStep(s.streams[h], h).value)
  {
    hide Inv;
    if s.streams[h].phase.AtSendMatched? {
      SendHasRoom(s, h);
    } else if s.streams[h].phase.Piping? {
      PipeHasTarget(s, h);
    } else {
      EntriesExist(s, s.streams[h].Token());
    }
  }

  function ClientStep(client: Client, x: Option<Stream>, i: nat): Option<Move> {
    match client.pc
    case Dialing => Some(Dial(i))
    case AwaitHeaders => if x.Some? && x.value.headerSent then Some(SeeHeaders(i)) else None
    case SendingHello => if x.Some? then Some(SayHello(i)) else None
    case AwaitHello => if x.Some? && client.read < |x.value.written| then Some(TakeHello(i)) else None
    case _ => None
  }

  predicate Live(x: Stream) { !x.phase.Returned? && !x.phase.AtCancelLock? }

  /** Two handlers with nothing to do have both piped everything their clients sent. */
  lemma IdleHandlersPiped(s: State, i: nat, token: Token)
    requires i < 2 && 0 in s.streams && 1 in s.streams && Live(s.streams[0]) && Live(s.streams[1])
    requires Inv(s) && OthersApart(s, token)
    requires s.streams[0].values == [token] && s.streams[1].values == [token]
    requires HandlerStep(s.streams[0], 0).None? && HandlerStep(s.streams[1], 1).None?
    ensures s.streams[i].written == s.streams[1 - i].sent
  {
    hide Inv;
    if Partner(s.streams[0]).None? && Partner(s.streams[1]).None? {
      LoneFrames(s, 0);
      LoneFrames(s, 1);
      WaiterRegistered(s, 0);
      WaiterRegistered(s, 1);
    } else {
      var h := if Partner(s.streams[0]).Some? then 0 else 1;
      PartnersMutual(s, h);
      MatchedWaiterWakes(s, i);
      MatchedWaiterWakes(s, 1 - i);
      PartnerFrames(s, 1 - i);
    }
  }

  /** With nothing left to do on either side, both hellos have been delivered and taken. */
  lemma IdleIsFinished(w: World, ids: seq<DeviceId>, token: Token, c: Codec)
    requires |ids| == 2 && PlayInv(w, ids, token, c)
    requires forall i | 0 <= i < 2 ::
               && ClientStep(w.clients[i], Lookup(w.server.streams, i), i).None?
               && (i in w.server.streams ==> HandlerStep(w.server.streams[i], i).None?)
    ensures Finished(w, ids)
  {
    hide Inv;
    var streams := w.server.streams;
    assert ClientStep(w.clients[0], Lookup(streams, 0), 0).None?;
    assert ClientStep(w.clients[1], Lookup(streams, 1), 1).None?;
    assert 0 in streams && 1 in streams;
    assert HandlerStep(streams[0], 0).None? && HandlerStep(streams[1], 1).None?;
    IdleHandlersPiped(w.server, 0, token);
    IdleHandlersPiped(w.server, 1, token);
    hide HandlerStep;
  }

  lemma UnfinishedCanMove(w: World, ids: seq<DeviceId>, token: Token, c: Codec) returns (m: Move)
    requires |ids| == 2 && PlayInv(w, ids, token, c) && !Finished(w, ids)
    ensures CanMove(w, m, token) && !m.Other?
  {
    hide Inv;
    var streams := w.server.streams;
    if i :| 0 <= i < 2 && ClientStep(w.clients[i], Lookup(streams, i), i).Some? {
      m := ClientStep(w.clients[i], Lookup(streams, i), i).value;
      hide HandlerStep;
    } else if i :| 0 <= i < 2 && i in streams && HandlerStep(streams[i], i).Some? {
      HandlerStepEnabled(w.server, i);
      m := Serve(HandlerStep(streams[i], i).value);
      hide ClientStep;
    } else {
      IdleIsFinished(w, ids, token, c);
      assert false;
    }
  }

  lemma OtherKeepsRank(w: World, a: Action, ids: seq<DeviceId>, token: Token, c: Codec)
    requires |ids| == 2 && PlayInv(w, ids, token, c) && CanMove(w, Other(a), token)
    ensures |w.clients| == 2 && Rank(Moved(w, Other(a), token, c)) == Rank(w)
  {
    OtherKeepsPeers(w, a, ids, token, c);
    hide Inv, Apply, Foreign;
  }

  /** A move of the two that can be made stays possible whatever other streams do meanwhile. */
  lemma OtherTakesNoMoveAway(w: World, a: Action, m: Move, ids: seq<DeviceId>, token: Token, c: Codec)
    requires |ids| == 2 && PlayInv(w, ids, token, c)
    requires CanMove(w, Other(a), token) && CanMove(w, m, token) && !m.Other?
    ensures CanMove(Moved(w, Other(a), token, c), m, token)
  {
    hide Inv, SideOk, OthersApart, Apply, Enabled, Ready;
    OtherKeepsPeers(w, a, ids, token, c);
    StepKeepsInv(w.server, a);
    StepKeepsTokens(w.server, a);
    if m.Serve? {
      PeerHasToken(w, m.action, ids, token, c);
      OtherKeepsServing(w.server, Apply(w.server, a), m.action, token);
    }
  }

  lemma PeerHasToken(w: World, a: Action, ids: seq<DeviceId>, token: Token, c: Codec)
    requires |ids| == 2 && PlayInv(w, ids, token, c) && CanMove(w, Serve(a), token)
    ensures !a.Arrive? && a.h in w.server.streams && w.server.streams[a.h].Token() == token
  {
    hide Inv, Ready;
  }

  lemma OtherKeepsServing(s: State, s': State, b: Action, token: Token)
    requires Inv(s) && Inv(s') && OthersApart(s, token) && Enabled(s, b) && b.h < 2 && !b.Arrive?
    requires s.streams.Keys <= s'.streams.Keys
    requires forall i: nat | i < 2 :: Lookup(s'.streams, i) == Lookup(s.streams, i)
    requires s.streams[b.h].Token() == token
    ensures Enabled(s', b)
  {
    assert Lookup(s'.streams, b.h) == Lookup(s.streams, b.h);
    EntriesExist(s', token);
    if Target(s.streams[b.h], b).Some? {
      TargetHasToken(s, b);
      var p := Target(s.streams[b.h], b).value;
      assert Lookup(s'.streams, p) == Lookup(s.streams, p);
    }
    hide Inv, Ready;
  }

  /** How many of the moves are those of the two clients and their handlers. */
  function OwnMoves(moves: seq<Move>): nat {
    if moves == [] then 0 else (if moves[0].Other? then 0 else 1) + OwnMoves(moves[1..])
  }

  lemma {:induction false} PlayEnds(w: World, moves: seq<Move>, ids: seq<DeviceId>, token: Token, c: Codec)
    requires |ids| == 2 && PlayInv(w, ids, token, c) && IsPlay(w, moves, token, c) && RoundTrips(c)
    ensures PlayInv(Ending(w, moves, token, c), ids, token, c)
    ensures OwnMoves(moves) + Rank(Ending(w, moves, token, c)) <= Rank(w)
    decreases |moves|
  {
    hide PlayInv, Moved, RoundTrips;
    if moves != [] {
      MoveKeepsInv(w, moves[0], ids, token, c);
      if moves[0].Serve? {
        ServeLowersTotal(w, moves[0].action, ids, token, c);
      } else if moves[0].Other? {
        OtherKeepsRank(w, moves[0].step, ids, token, c);
      } else {
        ClientLowersTotal(w, moves[0], ids, token, c);
      }
      PlayEnds(Moved(w, moves[0], token, c), moves[1..], ids, token, c);
    }
  }

  /**
   Whatever other streams the relay serves, the two clients and their handlers make at most
   26 moves; in every state a client that finished holds the other's id; and when only
   other streams can move, both have finished.
   */
  lemma {:induction false} TwoPeersMeet(ids: seq<DeviceId>, token: Token, c: Codec, moves: seq<Move>)
    requires |ids| == 2 && token != "" && RoundTrips(c)
    requires IsPlay(Start(ids), moves, token, c)
    ensures OwnMoves(moves) <= 26
    ensures var w := Ending(Start(ids), moves, token, c);
            && |w.clients| == 2
            && (w.clients[0].pc.Paired? ==> w.clients[0].pc.theirs == ids[1])
            && (w.clients[1].pc.Paired? ==> w.clients[1].pc.theirs == ids[0])
            && ((forall m | CanMove(w, m, token) :: m.Other?) ==> Finished(w, ids))
  {
    InitInv();
    PlayEnds(Start(ids), moves, ids, token, c);
    var w := Ending(Start(ids), moves, token, c);
    if !Finished(w, ids) {
      var m := UnfinishedCanMove(w, ids, token, c);
    }
  }
}
