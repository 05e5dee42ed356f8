/**
 The RPCs of backend/internal/rendezvous/rendezvous.go over the shared tables.  Each RPC
 checks and then acts in separate SQL statements, so one step is one statement and the
 steps of different calls interleave freely.
 */
module Rendezvous {
  import opened Prelude
  import opened Registry

  type CallId = nat

  datatype Request =
    | RegisterDevice(device: DeviceId, publicKey: string)
    | Heartbeat(device: DeviceId)
    | AuthorizeDevice(owner: DeviceId, allowed: DeviceId)
    | RequestSession(requester: DeviceId, target: DeviceId)

  datatype Reply =
    | Unauthenticated
    | InvalidArgument
    | PermissionDenied
    | Internal
    | Accepted
    | NotAuthorized
    | SessionToken(requester: DeviceId, target: DeviceId)

  datatype Pc = Upserting | CheckingOwner | Beating | Inserting | CheckingGrant | Issuing | Replied(reply: Reply)

  /** A call, the user it was authenticated as, if any, and where it is. */
  datatype Call = Call(request: Request, caller: Option<UserId>, pc: Pc) {
    function User(): UserId { if caller.Some? then caller.value else "" }
  }

  /** What was written or issued, by whom, in order. */
  datatype Event =
    | Registered(user: UserId, device: DeviceId, publicKey: string)
    | Authorized(user: UserId, owner: DeviceId, allowed: DeviceId)
    | Issued(user: UserId, requester: DeviceId, target: DeviceId)

  datatype State = State(tables: Tables, calls: map<CallId, Call>, log: seq<Event>)

  const INIT := State(EMPTY, map[], [])

  /** The ids a request must name. */
  predicate WellFormed(r: Request) {
    match r
    case RegisterDevice(device, publicKey) => device != [] && publicKey != ""
    case Heartbeat(device) => device != []
    case AuthorizeDevice(owner, allowed) => owner != [] && allowed != []
    case RequestSession(requester, target) => requester != [] && target != []
  }

  /** Authentication and argument checks, before the first statement. */
  function Admitted(r: Request, caller: Option<UserId>): Call {
    Call(r, caller,
         if caller.None? then Replied(Unauthenticated)
         else if !WellFormed(r) then Replied(InvalidArgument)
         else if r.RegisterDevice? then Upserting else CheckingOwner)
  }

  /** The device whose ownership the RPC requires. */
  function Subject(r: Request): DeviceId {
    match r
    case RegisterDevice(device, _) => device
    case Heartbeat(device) => device
    case AuthorizeDevice(owner, _) => owner
    case RequestSession(requester, _) => requester
  }

  datatype Action =
    | Begin(c: CallId, request: Request, caller: Option<UserId>)
    | Run(c: CallId)                        // the call's next statement succeeds
    | Break(c: CallId, applied: bool)       // it reports a database error, before or after taking effect

  predicate Enabled(s: State, a: Action) {
    match a
    case Begin(c, _, _) => c !in s.calls
    case Run(c) => c in s.calls && !s.calls[c].pc.Replied?
    case Break(c, _) => c in s.calls && !s.calls[c].pc.Replied? && !s.calls[c].pc.Issuing?
  }

  function Resume(s: State, c: CallId, pc: Pc): State
    requires c in s.calls
  {
    s.(calls := s.calls[c := s.calls[c].(pc := pc)])
  }

  /** The statement call `c` is about to run. */
  function Statement(s: State, c: CallId): State
    requires c in s.calls && !s.calls[c].pc.Replied?
  {
    var call := s.calls[c];
    var r, user := call.request, call.User();
    match call.pc
    case Upserting =>
      if !r.RegisterDevice? then Resume(s, c, Replied(Internal))
      else
        var (tables, ok) := Upserted(s.tables, r.device, r.publicKey, user);
        if ok
        then Resume(s, c, Replied(Accepted)).(tables := tables,
                                              log := s.log + [Registered(user, r.device, r.publicKey)])
        else Resume(s, c, Replied(PermissionDenied))
    case CheckingOwner =>
      Resume(s, c,
             if !Owns(s.tables, user, Subject(r)) then Replied(PermissionDenied)
             else if r.AuthorizeDevice? then Inserting
             else if r.RequestSession? then CheckingGrant
             else Beating)
    case Beating =>
      Resume(s, c, Replied(Accepted))
    case Inserting =>
      if !r.AuthorizeDevice? then Resume(s, c, Replied(Internal))
      else
        Resume(s, c, Replied(Accepted)).(tables := Granted(s.tables, r.owner, r.allowed),
                                         log := s.log + [Authorized(user, r.owner, r.allowed)])
    case CheckingGrant =>
      Resume(s, c,
             if r.RequestSession? && (r.target, r.requester) in s.tables.grants then Issuing
             else Replied(NotAuthorized))
    case Issuing =>
      if !r.RequestSession? then Resume(s, c, Replied(Internal))
      else
        var answered := Resume(s, c, Replied(SessionToken(r.requester, r.target)));
        answered.(log := s.log + [Issued(user, r.requester, r.target)])
  }

  /**
   A call runs its next statement on the store: the store and the call become what the
   step function says, and what was written or issued is logged.
   */
  method RunStatement(store: Store, call: Call) returns (next: Call, logged: seq<Event>)
    requires !call.pc.Replied?
    modifies store
    ensures Statement(State(old(store.Model()), map[0 := call], []), 0) == State(store.Model(), map[0 := next], logged)
  {
    ghost var s := State(store.Model(), map[0 := call], []);
    assert forall pc :: Resume(s, 0, pc).calls == map[0 := call.(pc := pc)];
    var r, user := call.request, call.User();
    var pc := Replied(Internal);
    logged := [];
    match call.pc {
      case Upserting =>
        if r.RegisterDevice? {
          var ok := store.UpsertDevice(r.device, r.publicKey, user);
          pc := Replied(if ok then Accepted else PermissionDenied);
          logged := if ok then [Registered(user, r.device, r.publicKey)] else [];
        }
      case CheckingOwner =>
        var owner := store.IsDeviceOwner(Subject(r), user);
        pc := if !owner then Replied(PermissionDenied)
              else if r.AuthorizeDevice? then Inserting
              else if r.RequestSession? then CheckingGrant
              else Beating;
      case Beating =>
        pc := Replied(Accepted);
      case Inserting =>
        if r.AuthorizeDevice? {
          store.AuthorizeDevice(r.owner, r.allowed);
          pc := Replied(Accepted);
          logged := [Authorized(user, r.owner, r.allowed)];
        }
      case CheckingGrant =>
        pc := Replied(NotAuthorized);
        if r.RequestSession? {
          var granted := store.IsAuthorized(r.target, r.requester);
          pc := if granted then Issuing else Replied(NotAuthorized);
        }
      case Issuing =>
        if r.RequestSession? {
          pc := Replied(SessionToken(r.requester, r.target));
          logged := [Issued(user, r.requester, r.target)];
        }
    }
    next := call.(pc := pc);
  }

  datatype PeerReply = BadRequest | NotFound | Found(publicKey: string, endpoint: Option<string>)

  /** `LookupPeer`: what the device table and the presence of the device say, to anyone who asks. */
  method LookupPeer(store: Store, device: DeviceId, presence: map<DeviceId, string>) returns (r: PeerReply)
    ensures r == BadRequest <==> device == []
    ensures r == NotFound <==> device != [] && device !in store.devices
    ensures r.Found? ==> r.publicKey == store.devices[device].publicKey
                         && r.endpoint == if device in presence then Some(presence[device]) else None
  {
    if device == [] {
      return BadRequest;
    }
    var row := store.GetDevice(device);
    if row.None? {
      return NotFound;
    }
    return Found(row.value.publicKey, if device in presence then Some(presence[device]) else None);
  }

  function Apply(s: State, a: Action): State
    requires Enabled(s, a)
  {
    match a
    case Begin(c, request, caller) => s.(calls := s.calls[c := Admitted(request, caller)])
    case Run(c) => Statement(s, c)
    case Break(c, applied) => Resume(if applied then Statement(s, c) else s, c, Replied(Internal))
  }

  predicate IsRun(s: State, acts: seq<Action>)
    decreases |acts|
  {
    acts == [] || (Enabled(s, acts[0]) && IsRun(Apply(s, acts[0]), acts[1..]))
  }

  function After(s: State, acts: seq<Action>): State
    requires IsRun(s, acts)
    decreases |acts|
  {
    if acts == [] then s else After(Apply(s, acts[0]), acts[1..])
  }

  // ----- ownership is fixed -----

  lemma StepExtends(s: State, a: Action)
    requires Enabled(s, a)
    ensures Extends(s.tables, Apply(s, a).tables) && s.log <= Apply(s, a).log
  {}

  /** From any state of a run on, owners stay, the access list only grows, and the log is only appended to. */
  lemma {:induction false} RunExtends(s: State, acts: seq<Action>)
    requires IsRun(s, acts)
    ensures Extends(s.tables, After(s, acts).tables) && s.log <= After(s, acts).log
    decreases |acts|
  {
    if acts != [] {
      StepExtends(s, acts[0]);
      RunExtends(Apply(s, acts[0]), acts[1..]);
    }
  }

  // ----- what every step keeps -----

  /** What an answer says about the call and, still true however others interleave, about the tables. */
  ghost predicate ReplyOk(t: Tables, call: Call, reply: Reply) {
    var r := call.request;
    match reply
    case Unauthenticated => call.caller.None?
    case InvalidArgument => call.caller.Some? && !WellFormed(r)
    case _ =>
      && call.caller.Some? && WellFormed(r)
      && match reply
         case Accepted =>
           && Owns(t, call.User(), Subject(r))
           && (match r
               case AuthorizeDevice(owner, allowed) => (owner, allowed) in t.grants
               case RequestSession(_, _) => false
               case _ => true)
         case NotAuthorized => r.RequestSession? && Owns(t, call.User(), Subject(r))
         case SessionToken(requester, target) =>
           r == RequestSession(requester, target) && Owns(t, call.User(), requester) && (target, requester) in t.grants
         case _ => true
  }

  /** What a call has already established. */
  ghost predicate CallOk(t: Tables, call: Call) {
    var r := call.request;
    && (!call.pc.Replied? ==> call.caller.Some? && WellFormed(r))
    && match call.pc
       case Upserting => r.RegisterDevice?
       case CheckingOwner => !r.RegisterDevice?
       case Beating => r.Heartbeat? && Owns(t, call.User(), r.device)
       case Inserting => r.AuthorizeDevice? && Owns(t, call.User(), r.owner)
       case CheckingGrant => r.RequestSession? && Owns(t, call.User(), r.requester)
       case Issuing => r.RequestSession? && Owns(t, call.User(), r.requester) && (r.target, r.requester) in t.grants
       case Replied(reply) => ReplyOk(t, call, reply)
  }

  /** Some owner of `owner` inserted the grant among the first `n` events. */
  ghost predicate GrantedByOwner(t: Tables, log: seq<Event>, n: nat, owner: DeviceId, allowed: DeviceId) {
    exists i :: 0 <= i < n <= |log| && log[i].Authorized? && log[i].owner == owner && log[i].allowed == allowed
                && Owns(t, log[i].user, owner)
  }

  /** The event was allowed: its user owns the device acted for, and a session was granted before. */
  ghost predicate EventOk(t: Tables, log: seq<Event>, i: nat)
    requires i < |log|
  {
    match log[i]
    case Registered(user, device, key) => WellFormed(RegisterDevice(device, key)) && Owns(t, user, device)
    case Authorized(user, owner, allowed) =>
      WellFormed(AuthorizeDevice(owner, allowed)) && Owns(t, user, owner) && (owner, allowed) in t.grants
    case Issued(user, requester, target) =>
      && WellFormed(RequestSession(requester, target))
      && Owns(t, user, requester) && GrantedByOwner(t, log, i, target, requester)
  }

  ghost predicate Inv(s: State) {
    && (forall c | c in s.calls :: CallOk(s.tables, s.calls[c]))
    && (forall i | 0 <= i < |s.log| :: EventOk(s.tables, s.log, i))
    && (forall g | g in s.tables.grants :: GrantedByOwner(s.tables, s.log, |s.log|, g.0, g.1))
  }

  lemma GrowthKeepsGrants(
      t: Tables, log: seq<Event>, n: nat, t': Tables, log': seq<Event>, n': nat, o: DeviceId, a: DeviceId)
    requires GrantedByOwner(t, log, n, o, a) && Extends(t, t') && log <= log' && n <= n' <= |log'|
    ensures GrantedByOwner(t', log', n', o, a)
  {
    var i :| 0 <= i < n <= |log| && log[i].Authorized? && log[i].owner == o && log[i].allowed == a
             && Owns(t, log[i].user, o);
    assert log'[i] == log[i];
  }

  lemma GrowthKeepsEvents(t: Tables, log: seq<Event>, t': Tables, log': seq<Event>, i: nat)
    requires i < |log| && EventOk(t, log, i) && Extends(t, t') && log <= log'
    ensures EventOk(t', log', i)
  {
    assert log'[i] == log[i];
    if log[i].Issued? {
      GrowthKeepsGrants(t, log, i, t', log', i, log[i].target, log[i].requester);
    }
  }

  /** A step logs at most one event, which is allowed, and adds at most the grant it logs. */
  lemma StatementOk(s: State, c: CallId)
    requires Inv(s) && c in s.calls && !s.calls[c].pc.Replied?
    ensures var s' := Statement(s, c);
            && s'.calls.Keys == s.calls.Keys && (forall k | k in s.calls && k != c :: s'.calls[k] == s.calls[k])
            && CallOk(s'.tables, s'.calls[c])
            && |s'.log| <= |s.log| + 1
            && (|s'.log| == |s.log| + 1 ==> EventOk(s'.tables, s'.log, |s.log|))
            && (forall g | g in s'.tables.grants && g !in s.tables.grants ::
                  GrantedByOwner(s'.tables, s'.log, |s'.log|, g.0, g.1))
  {
    var s', call := Statement(s, c), s.calls[c];
    assert CallOk(s.tables, call);
    match call.pc {
      case Inserting =>
        assert s'.log[|s.log|] == Authorized(call.User(), call.request.owner, call.request.allowed);
      case Issuing =>
        var r := call.request;
        GrowthKeepsGrants(s.tables, s.log, |s.log|, s'.tables, s'.log, |s.log|, r.target, r.requester);
      case _ =>
    }
  }

  lemma GrowthKeepsCall(t: Tables, t': Tables, call: Call)
    requires CallOk(t, call) && Extends(t, t')
    ensures CallOk(t', call)
  {}

  /** A step that is fine in itself keeps everything that held before it. */
  lemma GrowthKeepsInv(s: State, s': State, c: CallId)
    requires Inv(s) && Extends(s.tables, s'.tables) && s.log <= s'.log && |s'.log| <= |s.log| + 1
    requires s'.calls.Keys == s.calls.Keys + {c} && forall k | k in s.calls && k != c :: s'.calls[k] == s.calls[k]
    requires CallOk(s'.tables, s'.calls[c])
    requires |s'.log| == |s.log| + 1 ==> EventOk(s'.tables, s'.log, |s.log|)
    requires forall g | g in s'.tables.grants && g !in s.tables.grants ::
               GrantedByOwner(s'.tables, s'.log, |s'.log|, g.0, g.1)
    ensures Inv(s')
  {
    hide CallOk, EventOk, GrantedByOwner, Extends;
    forall k | k in s'.calls ensures CallOk(s'.tables, s'.calls[k]) {
      if k != c {
        GrowthKeepsCall(s.tables, s'.tables, s.calls[k]);
      }
    }
    forall i | 0 <= i < |s.log| ensures EventOk(s'.tables, s'.log, i) {
      GrowthKeepsEvents(s.tables, s.log, s'.tables, s'.log, i);
    }
    forall g | g in s.tables.grants ensures GrantedByOwner(s'.tables, s'.log, |s'.log|, g.0, g.1) {
      GrowthKeepsGrants(s.tables, s.log, |s.log|, s'.tables, s'.log, |s'.log|, g.0, g.1);
    }
  }

  lemma StepKeepsInv(s: State, a: Action)
    requires Inv(s) && Enabled(s, a)
    ensures Inv(Apply(s, a))
  {
    if a.Begin? {
      BeginKeepsInv(s, a);
    } else {
      StatementKeepsInv(s, a);
    }
    hide Inv, Apply;
  }

  lemma BeginKeepsInv(s: State, a: Action)
    requires Inv(s) && Enabled(s, a) && a.Begin?
    ensures Inv(Apply(s, a))
  {
    hide Inv, EventOk, GrantedByOwner;
    GrowthKeepsInv(s, Apply(s, a), a.c);
  }

  lemma StatementKeepsInv(s: State, a: Action)
    requires Inv(s) && Enabled(s, a) && !a.Begin?
    ensures Inv(Apply(s, a))
  {
    hide Inv, EventOk, GrantedByOwner, Extends;
    StepExtends(s, a);
    StatementOk(s, a.c);
    hide Statement;
    GrowthKeepsInv(s, Apply(s, a), a.c);
  }

  lemma {:induction false} RunKeepsInv(s: State, acts: seq<Action>)
    requires Inv(s) && IsRun(s, acts)
    ensures Inv(After(s, acts))
    decreases |acts|
  {
    if acts != [] {
      StepKeepsInv(s, acts[0]);
      RunKeepsInv(Apply(s, acts[0]), acts[1..]);
    }
  }

  // ----- the guarantees, from empty tables on -----

  /** Once a device has an owner, every later state of the run has the same owner for it. */
  lemma {:induction false} OwnerNeverChanges(acts: seq<Action>, more: seq<Action>, device: DeviceId)
    requires IsRun(INIT, acts) && IsRun(After(INIT, acts), more)
    requires device in After(INIT, acts).tables.devices
    ensures var now, later := After(INIT, acts).tables, After(After(INIT, acts), more).tables;
            device in later.devices && later.devices[device].owner == now.devices[device].owner
  {
    RunExtends(After(INIT, acts), more);
  }

  /** Every accepted registration of a device was made by the one account that owns it. */
  lemma {:induction false} RegisteredByOwner(acts: seq<Action>, i: nat)
    requires IsRun(INIT, acts) && i < |After(INIT, acts).log| && After(INIT, acts).log[i].Registered?
    ensures var s := After(INIT, acts);
            Owns(s.tables, s.log[i].user, s.log[i].device) && s.log[i].device != [] && s.log[i].publicKey != ""
  {
    RunKeepsInv(INIT, acts);
    assert EventOk(After(INIT, acts).tables, After(INIT, acts).log, i);
  }

  /** Every row of the access list was inserted by a call of the owner of the device it opens. */
  lemma {:induction false} GrantsComeFromOwners(acts: seq<Action>, owner: DeviceId, allowed: DeviceId)
    requires IsRun(INIT, acts) && (owner, allowed) in After(INIT, acts).tables.grants
    ensures var s := After(INIT, acts);
            exists i :: 0 <= i < |s.log| && s.log[i].Authorized?
                        && s.log[i].owner == owner && s.log[i].allowed == allowed
                        && Owns(s.tables, s.log[i].user, owner)
  {
    RunKeepsInv(INIT, acts);
    var s := After(INIT, acts);
    assert GrantedByOwner(s.tables, s.log, |s.log|, (owner, allowed).0, (owner, allowed).1);
  }

  /** Every session token went to the owner of the requester, after the owner of the target authorized it. */
  lemma {:induction false} TokensAreAuthorized(acts: seq<Action>, i: nat)
    requires IsRun(INIT, acts) && i < |After(INIT, acts).log| && After(INIT, acts).log[i].Issued?
    ensures var s := After(INIT, acts);
            var issued := s.log[i];
            && issued.requester != [] && issued.target != []
            && Owns(s.tables, issued.user, issued.requester)
            && exists j :: 0 <= j < i && s.log[j].Authorized?
                           && s.log[j].owner == issued.target && s.log[j].allowed == issued.requester
                           && Owns(s.tables, s.log[j].user, issued.target)
  {
    RunKeepsInv(INIT, acts);
    var s := After(INIT, acts);
    assert EventOk(s.tables, s.log, i);
  }

  /** A call that answers with a token answers its own request, for an owner, on a grant that stands. */
  lemma {:induction false} TokenRepliesAreAuthorized(acts: seq<Action>, c: CallId)
    requires IsRun(INIT, acts) && c in After(INIT, acts).calls
    requires After(INIT, acts).calls[c].pc.Replied? && After(INIT, acts).calls[c].pc.reply.SessionToken?
    ensures var s := After(INIT, acts);
            var call, token := s.calls[c], s.calls[c].pc.reply;
            && call.request == RequestSession(token.requester, token.target)
            && Owns(s.tables, call.User(), token.requester)
            && exists j :: 0 <= j < |s.log| && s.log[j].Authorized?
                           && s.log[j].owner == token.target && s.log[j].allowed == token.requester
                           && Owns(s.tables, s.log[j].user, token.target)
  {
    RunKeepsInv(INIT, acts);
    var s := After(INIT, acts);
    var token := s.calls[c].pc.reply;
    assert CallOk(s.tables, s.calls[c]);
    GrantsComeFromOwners(acts, token.target, token.requester);
  }

  /** The answer a call earns that may do what it asks. */
  function Deserved(r: Request): Reply {
    if r.RequestSession? then SessionToken(r.requester, r.target) else Accepted
  }

  /** The call is its subject's owner's, names what it must, and a session it asks for has been granted. */
  ghost predicate Deserving(t: Tables, call: Call) {
    var r := call.request;
    && call.caller.Some? && WellFormed(r) && Owns(t, call.User(), Subject(r))
    && (r.RequestSession? ==> (r.target, r.requester) in t.grants)
    && match call.pc
       case Upserting => r.RegisterDevice?
       case CheckingOwner => !r.RegisterDevice?
       case Beating => r.Heartbeat?
       case Inserting => r.AuthorizeDevice?
       case Replied(reply) => reply == Deserved(r)
       case _ => r.RequestSession?
  }

  /** A call of the owner, and for a session one that is granted, deserves its answer from its admission on. */
  lemma OwnersCallIsDeserving(s: State, c: CallId, r: Request, user: UserId)
    requires c !in s.calls && Owns(s.tables, user, Subject(r)) && WellFormed(r)
    requires r.RequestSession? ==> (r.target, r.requester) in s.tables.grants
    ensures Enabled(s, Begin(c, r, Some(user)))
    ensures var s' := Apply(s, Begin(c, r, Some(user)));
            c in s'.calls && s'.calls[c].request == r && Deserving(s'.tables, s'.calls[c])
  {}

  lemma StepKeepsDeserving(s: State, a: Action, c: CallId)
    requires Enabled(s, a) && c in s.calls && Deserving(s.tables, s.calls[c])
    requires !(a.Break? && a.c == c)
    ensures c in Apply(s, a).calls && Deserving(Apply(s, a).tables, Apply(s, a).calls[c])
  {
    if a.c == c {
      StatementKeepsDeserving(s, c);
    } else {
      StepExtends(s, a);
      OthersKeepCall(s, a, c);
      hide Apply;
    }
  }

  lemma StatementKeepsDeserving(s: State, c: CallId)
    requires c in s.calls && Deserving(s.tables, s.calls[c]) && !s.calls[c].pc.Replied?
    ensures c in Statement(s, c).calls && Deserving(Statement(s, c).tables, Statement(s, c).calls[c])
  {}

  lemma OthersKeepCall(s: State, a: Action, c: CallId)
    requires Enabled(s, a) && c in s.calls && a.c != c
    ensures c in Apply(s, a).calls && Apply(s, a).calls[c] == s.calls[c]
  {}

  /** How many more statements an undisturbed call runs at most. */
  function Left(call: Call): nat {
    match call.pc
    case CheckingOwner => if call.request.RequestSession? then 3 else 2
    case CheckingGrant => 2
    case Replied(_) => 0
    case _ => 1
  }

  /** How many statements of call `c` a list of steps runs. */
  function Runs(acts: seq<Action>, c: CallId): nat {
    if acts == [] then 0 else (if acts[0] == Run(c) then 1 else 0) + Runs(acts[1..], c)
  }

  lemma StepCountsDown(s: State, a: Action, c: CallId)
    requires Enabled(s, a) && c in s.calls && Deserving(s.tables, s.calls[c]) && !(a.Break? && a.c == c)
    ensures c in Apply(s, a).calls && Apply(s, a).calls[c].request == s.calls[c].request
    ensures Left(Apply(s, a).calls[c]) == Left(s.calls[c]) - if a == Run(c) then 1 else 0
  {
    if a.c != c {
      OthersKeepCall(s, a, c);
      hide Apply;
    }
  }

  /**
   An owner is served: an RPC of the owner of the device it acts for, and for a session one
   under a standing grant, is never refused whatever other calls do, unless the database
   fails.  It can always go on until it is answered, each of its own steps brings the
   answer nearer, at most three bring it, and the answer is the one it deserves.
   */
  lemma {:induction false} OwnerIsServed(s: State, acts: seq<Action>, c: CallId)
    requires IsRun(s, acts) && c in s.calls && Deserving(s.tables, s.calls[c])
    requires forall i | 0 <= i < |acts| :: !(acts[i].Break? && acts[i].c == c)
    ensures var s' := After(s, acts);
            && c in s'.calls && s'.calls[c].request == s.calls[c].request && Deserving(s'.tables, s'.calls[c])
            && Runs(acts, c) + Left(s'.calls[c]) == Left(s.calls[c]) <= 3
            && (Left(s'.calls[c]) > 0 ==> Enabled(s', Run(c)))
            && (Left(s'.calls[c]) == 0 ==>
                  var r := s.calls[c].request;
                  s'.calls[c].pc
                  == Replied(if r.RequestSession? then SessionToken(r.requester, r.target) else Accepted))
    decreases |acts|
  {
    if acts != [] {
      StepKeepsDeserving(s, acts[0], c);
      StepCountsDown(s, acts[0], c);
      hide Apply, Deserving;
      OwnerIsServed(Apply(s, acts[0]), acts[1..], c);
    }
  }

  /** A standing grant is honoured: the owner's session request ends in the token, in at most three of its own steps. */
  lemma {:induction false} GrantIsHonoured(s: State, acts: seq<Action>, c: CallId)
    requires IsRun(s, acts) && c in s.calls && Deserving(s.tables, s.calls[c]) && s.calls[c].request.RequestSession?
    requires forall i | 0 <= i < |acts| :: !(acts[i].Break? && acts[i].c == c)
    ensures var s' := After(s, acts);
            && c in s'.calls && Runs(acts, c) <= 3
            && (!s'.calls[c].pc.Replied? ==> Enabled(s', Run(c)) && Runs(acts, c) < 3)
            && (s'.calls[c].pc.Replied? ==>
                  s'.calls[c].pc == Replied(SessionToken(s.calls[c].request.requester, s.calls[c].request.target)))
  {
    OwnerIsServed(s, acts, c);
  }

  /** The key of the last accepted registration of a device. */
  function LatestKey(log: seq<Event>, device: DeviceId): Option<string> {
    if log == [] then None
    else
      var last := log[|log| - 1];
      if last.Registered? && last.device == device then Some(last.publicKey) else LatestKey(log[..|log| - 1], device)
  }

  ghost predicate KeysCurrent(s: State) {
    forall d :: LatestKey(s.log, d) == if d in s.tables.devices then Some(s.tables.devices[d].publicKey) else None
  }

  lemma StatementKeepsKeys(s: State, c: CallId)
    requires c in s.calls && !s.calls[c].pc.Replied? && KeysCurrent(s)
    ensures KeysCurrent(Statement(s, c)) && c in Statement(s, c).calls
  {
    var s' := Statement(s, c);
    assert s'.log == s.log || s'.log[..|s'.log| - 1] == s.log;
  }

  lemma StepKeepsKeys(s: State, a: Action)
    requires Enabled(s, a) && KeysCurrent(s)
    ensures KeysCurrent(Apply(s, a))
  {
    if !a.Begin? {
      StatementKeepsKeys(s, a.c);
    }
    hide Statement, LatestKey;
  }

  lemma {:induction false} RunKeepsKeys(s: State, acts: seq<Action>)
    requires IsRun(s, acts) && KeysCurrent(s)
    ensures KeysCurrent(After(s, acts))
    decreases |acts|
  {
    if acts != [] {
      StepKeepsKeys(s, acts[0]);
      RunKeepsKeys(Apply(s, acts[0]), acts[1..]);
    }
  }

  /** A device is in the table exactly when some registration of it was accepted, with the last accepted key. */
  lemma {:induction false} KeyIsLatestRegistered(acts: seq<Action>, device: DeviceId)
    requires IsRun(INIT, acts)
    ensures var s := After(INIT, acts);
            LatestKey(s.log, device)
            == if device in s.tables.devices then Some(s.tables.devices[device].publicKey) else None
  {
    RunKeepsKeys(INIT, acts);
  }
}
