/**
 What the RPCs of backend/internal/rendezvous/rendezvous.go answer, told from the run alone:
 who called with what, which of the call's statements ran, and what the tables said then.
 */
module RpcAnswers {
  import opened Prelude
  import opened Registry
  import opened Rendezvous

  /** Some id or key the RPC needs is empty. */
  predicate Missing(r: Request) {
    match r
    case RegisterDevice(device, publicKey) => device == [] || publicKey == ""
    case Heartbeat(device) => device == []
    case AuthorizeDevice(owner, allowed) => owner == [] || allowed == []
    case RequestSession(requester, target) => requester == [] || target == []
  }

  /** `PermissionDenied` unless the device is registered to the user. */
  function OwnerOnly(t: Tables, user: UserId, device: DeviceId): Option<Reply> {
    if device in t.devices && t.devices[device].owner == user then None else Some(PermissionDenied)
  }

  /** The answer that a call's statement gives after `ran` others of it, if it is not to go on. */
  function Verdict(t: Tables, r: Request, user: UserId, ran: nat): Option<Reply> {
    match r
    case RegisterDevice(device, _) =>
      Some(if device in t.devices && t.devices[device].owner != user then PermissionDenied else Accepted)
    case Heartbeat(device) => if ran == 0 then OwnerOnly(t, user, device) else Some(Accepted)
    case AuthorizeDevice(owner, _) => if ran == 0 then OwnerOnly(t, user, owner) else Some(Accepted)
    case RequestSession(requester, target) =>
      if ran == 0 then OwnerOnly(t, user, requester)
      else if ran == 1 then if (target, requester) in t.grants then None else Some(NotAuthorized)
      else Some(SessionToken(requester, target))
  }

  /** The answer a run gives to a call that has run `ran` statements: the first verdict, or `Internal` on a failure. */
  function Told(s: State, acts: seq<Action>, c: CallId, r: Request, user: UserId, ran: nat): Option<Reply>
    requires IsRun(s, acts)
    decreases |acts|
  {
    if acts == [] then None
    else
      var s1, rest := Apply(s, acts[0]), acts[1..];
      if acts[0] == Run(c) then
        var verdict := Verdict(s.tables, r, user, ran);
        if verdict.Some? then verdict else Told(s1, rest, c, r, user, ran + 1)
      else if acts[0].Break? && acts[0].c == c then Some(Internal)
      else Told(s1, rest, c, r, user, ran)
  }

  /** Where a call is that has run `ran` statements and is not answered. */
  predicate Stands(call: Call, r: Request, user: UserId, ran: nat) {
    && call.request == r && call.caller == Some(user)
    && match call.pc
       case Upserting => r.RegisterDevice? && ran == 0
       case CheckingOwner => !r.RegisterDevice? && ran == 0
       case Beating => r.Heartbeat? && ran == 1
       case Inserting => r.AuthorizeDevice? && ran == 1
       case CheckingGrant => r.RequestSession? && ran == 1
       case Issuing => r.RequestSession? && ran == 2
       case Replied(_) => false
  }

  lemma RunFollowsVerdict(s: State, c: CallId, r: Request, user: UserId, ran: nat)
    requires c in s.calls && Stands(s.calls[c], r, user, ran)
    ensures var s', verdict := Apply(s, Run(c)), Verdict(s.tables, r, user, ran);
            && c in s'.calls && s'.calls[c].request == r && s'.calls[c].caller == Some(user)
            && if verdict.Some? then s'.calls[c].pc == Replied(verdict.value) else Stands(s'.calls[c], r, user, ran + 1)
  {}

  lemma BreakAnswersInternal(s: State, c: CallId, applied: bool)
    requires Enabled(s, Break(c, applied))
    ensures var s' := Apply(s, Break(c, applied));
            c in s'.calls && s'.calls[c] == s.calls[c].(pc := Replied(Internal))
  {}

  lemma {:induction false} AnsweredStays(s: State, acts: seq<Action>, c: CallId)
    requires IsRun(s, acts) && c in s.calls && s.calls[c].pc.Replied?
    ensures c in After(s, acts).calls && After(s, acts).calls[c] == s.calls[c]
    decreases |acts|
  {
    if acts != [] {
      OthersKeepCall(s, acts[0], c);
      hide Apply, Enabled;
      AnsweredStays(Apply(s, acts[0]), acts[1..], c);
    }
  }

  /** The call asks what it asked, and is answered exactly what the run tells. */
  ghost predicate AnsweredAs(call: Call, r: Request, caller: Option<UserId>, told: Option<Reply>) {
    && call.request == r && call.caller == caller
    && if told.Some? then call.pc == Replied(told.value) else !call.pc.Replied?
  }

  lemma {:induction false} AnswersAsToldFrom(
      s: State, acts: seq<Action>, c: CallId, r: Request, user: UserId, ran: nat)
    requires IsRun(s, acts) && c in s.calls && Stands(s.calls[c], r, user, ran)
    ensures c in After(s, acts).calls
    ensures AnsweredAs(After(s, acts).calls[c], r, Some(user), Told(s, acts, c, r, user, ran))
    decreases |acts|
  {
    if acts != [] {
      var a, s1, rest := acts[0], Apply(s, acts[0]), acts[1..];
      if a == Run(c) {
        RunFollowsVerdict(s, c, r, user, ran);
        hide Apply, Stands, Verdict;
        if Verdict(s.tables, r, user, ran).Some? {
          AnsweredStays(s1, rest, c);
        } else {
          AnswersAsToldFrom(s1, rest, c, r, user, ran + 1);
        }
      } else if a.Break? && a.c == c {
        BreakAnswersInternal(s, c, a.applied);
        hide Apply, Enabled;
        AnsweredStays(s1, rest, c);
      } else {
        OthersKeepCall(s, a, c);
        hide Apply, Enabled, Stands;
        AnswersAsToldFrom(s1, rest, c, r, user, ran);
      }
    }
  }

  /** The answer a call is due that began with this request and caller, after the steps `rest`. */
  function Due(s: State, rest: seq<Action>, c: CallId, r: Request, caller: Option<UserId>): Option<Reply>
    requires IsRun(s, rest)
  {
    if caller.None? then Some(Unauthenticated)
    else if Missing(r) then Some(InvalidArgument)
    else Told(s, rest, c, r, caller.value, 0)
  }

  lemma {:induction false} AnswersAsDueFrom(
      s: State, acts: seq<Action>, j: nat, c: CallId, r: Request, caller: Option<UserId>)
    requires IsRun(s, acts) && j < |acts| && acts[j] == Begin(c, r, caller)
    ensures IsRun(s, acts[..j + 1]) && IsRun(After(s, acts[..j + 1]), acts[j + 1..])
    ensures c in After(s, acts).calls
    ensures AnsweredAs(After(s, acts).calls[c], r, caller, Due(After(s, acts[..j + 1]), acts[j + 1..], c, r, caller))
    decreases |acts|
  {
    var s1, rest := Apply(s, acts[0]), acts[1..];
    assert acts[..j + 1][0] == acts[0] && acts[..j + 1][1..] == rest[..j] && acts[j + 1..] == rest[j..];
    if j == 0 {
      if caller.Some? && !Missing(r) {
        AnswersAsToldFrom(s1, rest, c, r, caller.value, 0);
      } else {
        AnsweredStays(s1, rest, c);
      }
    } else {
      hide Apply, Enabled, AnsweredAs, Due;
      assert rest[..j - 1 + 1] == rest[..j];
      AnswersAsDueFrom(s1, rest, j - 1, c, r, caller);
    }
  }

  /**
   Every answer in every run is the one its call is due: Unauthenticated without a caller,
   InvalidArgument on a missing id, and otherwise what its own statements found, one after
   the other, in the tables as they were when each ran; Internal only if one failed.
   */
  lemma {:induction false} AnswersExactly(acts: seq<Action>, j: nat, c: CallId, r: Request, caller: Option<UserId>)
    requires IsRun(INIT, acts) && j < |acts| && acts[j] == Begin(c, r, caller)
    ensures IsRun(INIT, acts[..j + 1]) && IsRun(After(INIT, acts[..j + 1]), acts[j + 1..])
    ensures c in After(INIT, acts).calls
    ensures var began, rest, call := After(INIT, acts[..j + 1]), acts[j + 1..], After(INIT, acts).calls[c];
            && call.request == r && call.caller == caller
            && (caller.None? <==> call.pc == Replied(Unauthenticated))
            && (caller.Some? && Missing(r) <==> call.pc == Replied(InvalidArgument))
            && (caller.Some? && !Missing(r) ==>
                  var told := Told(began, rest, c, r, caller.value, 0);
                  forall reply :: call.pc == Replied(reply) <==> told == Some(reply))
  {
    AnswersAsDueFrom(INIT, acts, j, c, r, caller);
    if caller.Some? && !Missing(r) {
      ToldIsNoAdmission(After(INIT, acts[..j + 1]), acts[j + 1..], c, r, caller.value, 0);
    }
  }

  lemma {:induction false} ToldIsNoAdmission(
      s: State, acts: seq<Action>, c: CallId, r: Request, user: UserId, ran: nat)
    requires IsRun(s, acts)
    ensures Told(s, acts, c, r, user, ran) !in {Some(Unauthenticated), Some(InvalidArgument)}
    decreases |acts|
  {
    hide Apply, Enabled;
    if acts != [] {
      var s1 := Apply(s, acts[0]);
      if acts[0] == Run(c) {
        ToldIsNoAdmission(s1, acts[1..], c, r, user, ran + 1);
      } else {
        ToldIsNoAdmission(s1, acts[1..], c, r, user, ran);
      }
    }
  }

  /** An accepted call was authenticated and complete, its user owns its device, and the grant it asked for stands. */
  lemma {:induction false} AcceptedForOwnersOnly(acts: seq<Action>, c: CallId)
    requires IsRun(INIT, acts) && c in After(INIT, acts).calls
    requires After(INIT, acts).calls[c].pc == Replied(Accepted)
    ensures var t, call := After(INIT, acts).tables, After(INIT, acts).calls[c];
            && call.caller.Some? && !Missing(call.request)
            && match call.request
               case RegisterDevice(device, _) =>
                 device in t.devices && t.devices[device].owner == call.caller.value
               case Heartbeat(device) =>
                 device in t.devices && t.devices[device].owner == call.caller.value
               case AuthorizeDevice(owner, allowed) =>
                 && owner in t.devices && t.devices[owner].owner == call.caller.value
                 && (owner, allowed) in t.grants
               case RequestSession(_, _) => false
  {
    RunKeepsInv(INIT, acts);
    assert CallOk(After(INIT, acts).tables, After(INIT, acts).calls[c]);
  }

  /**
   What one step does to the tables: a registration writes its own row, whole, exactly if it
   is not refused, an authorization inserts its own pair, and no other step writes at all.
   A statement that reports a failure has done all of this or nothing.
   */
  lemma WritesOnlyWhatItAsks(s: State, a: Action)
    requires Inv(s) && Enabled(s, a)
    ensures a.Begin? || (a.Break? && !a.applied) ==> Apply(s, a).tables == s.tables
    ensures a.Run? || (a.Break? && a.applied) ==>
              var t, t', call := s.tables, Apply(s, a).tables, s.calls[a.c];
              match call.request
              case RegisterDevice(device, publicKey) =>
                if device in t.devices && t.devices[device].owner != call.User() then t' == t
                else t'.grants == t.grants && t'.devices == t.devices[device := Device(publicKey, call.User())]
              case AuthorizeDevice(owner, allowed) =>
                && t'.devices == t.devices
                && t'.grants == if call.pc.Inserting? then t.grants + {(owner, allowed)} else t.grants
              case _ => t' == t
  {
    if !a.Begin? {
      assert CallOk(s.tables, s.calls[a.c]);
    }
  }

  /** A call may come at any time, its statements run or fail until the answer; only issuing a token cannot fail. */
  lemma AnyStatementMayComeNext(s: State, c: CallId)
    ensures c !in s.calls ==> forall r, caller :: Enabled(s, Begin(c, r, caller))
    ensures c in s.calls ==> (Enabled(s, Run(c)) <==> !s.calls[c].pc.Replied?)
    ensures c in s.calls ==> forall applied ::
              Enabled(s, Break(c, applied)) <==> !s.calls[c].pc.Replied? && !s.calls[c].pc.Issuing?
  {}
}
