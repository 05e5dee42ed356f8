/**
 From the access list to the relay: a token that `RequestSession` issued, presented on
 two streams and verified on both, pairs streams of a session that was granted.
 */
module GrantedSessions {
  import opened Prelude
  import SessionToken
  import Rendezvous
  import Registry
  import opened RelayService
  import opened RelayPairing
  import opened RelayTheorems

  /** The relay's verifier is the issuer of the tokens: `Verify` at the instant of the step decides each outcome. */
  ghost predicate Faithful(s: State, acts: seq<Action>, issuer: SessionToken.Issuer, clock: nat -> int, now: nat)
    requires IsRun(s, acts)
    decreases |acts|
  {
    acts == [] ||
    (&& (acts[0].Validate? ==>
           (acts[0].verified <==> SessionToken.Verify(issuer, clock(now), s.streams[acts[0].h].Token()).Ok?))
     && Faithful(Apply(s, acts[0]), acts[1..], issuer, clock, now + 1))
  }

  lemma VerifyingStep(s: State, a: Action, h: StreamId)
    requires Enabled(s, a) && h in Apply(s, a).streams && Apply(s, a).streams[h].verified
    requires h in s.streams ==> !s.streams[h].verified
    ensures a.Validate? && a.h == h && a.verified && h in s.streams
  {}

  /** A stream marked verified was verified by one step of its handler, at that step's instant. */
  lemma {:induction false} VerifiedByStep(
      s: State, acts: seq<Action>, issuer: SessionToken.Issuer, clock: nat -> int, now: nat, h: StreamId)
    returns (j: nat)
    requires Inv(s) && IsRun(s, acts) && Faithful(s, acts, issuer, clock, now)
    requires h in After(s, acts).streams && After(s, acts).streams[h].verified
    requires h in s.streams ==> !s.streams[h].verified
    ensures j < |acts| && acts[j].Validate? && acts[j].h == h
    ensures SessionToken.Verify(issuer, clock(now + j), After(s, acts).streams[h].Token()).Ok?
    decreases |acts|
  {
    hide Inv, Enabled, Apply;
    var s1 := Apply(s, acts[0]);
    StepKeepsInv(s, acts[0]);
    if h in s1.streams && s1.streams[h].verified {
      VerifyingStep(s, acts[0], h);
      RunKeepsTokens(s, acts);
      j := 0;
    } else {
      j := VerifiedByStep(s1, acts[1..], issuer, clock, now + 1, h);
      j := j + 1;
    }
  }

  /** Some step of the handler of `h` verified the token, and so learned the claims. */
  ghost predicate VerifiedAs(acts: seq<Action>, issuer: SessionToken.Issuer, clock: nat -> int,
                             h: StreamId, token: Token, claims: SessionToken.Claims) {
    exists j :: 0 <= j < |acts| && acts[j].Validate? && acts[j].h == h
                && SessionToken.Verify(issuer, clock(j), token) == Ok(claims)
  }

  lemma {:induction false} PairedVerified(
      acts: seq<Action>, issuer: SessionToken.Issuer, clock: nat -> int, h: StreamId,
      issuedAt: int, requester: SessionToken.DeviceId, target: SessionToken.DeviceId)
    requires IsRun(INIT, acts) && Faithful(INIT, acts, issuer, clock, 0)
    requires h in After(INIT, acts).streams && After(INIT, acts).streams[h].verified
    requires SessionToken.IsTime(issuedAt + issuer.ttl)
    requires After(INIT, acts).streams[h].Token() == SessionToken.Issue(issuer, issuedAt, requester, target).0
    ensures var expiry := SessionToken.UnixSecond(issuedAt + issuer.ttl) * SECOND;
            VerifiedAs(acts, issuer, clock, h, After(INIT, acts).streams[h].Token(),
                       SessionToken.Claims(requester, target, expiry))
  {
    InitInv();
    hide Inv, IsRun, After, Faithful, SessionToken.Issue, SessionToken.Verify;
    var j := VerifiedByStep(INIT, acts, issuer, clock, 0, h);
    IssuedVerifies(issuer, issuedAt, requester, target, clock(j));
  }

  lemma IssuedVerifies(issuer: SessionToken.Issuer, issuedAt: int,
                       requester: SessionToken.DeviceId, target: SessionToken.DeviceId, later: int)
    requires SessionToken.IsTime(issuedAt + issuer.ttl)
    ensures var token := SessionToken.Issue(issuer, issuedAt, requester, target).0;
            var expiry := SessionToken.UnixSecond(issuedAt + issuer.ttl) * SECOND;
            SessionToken.Verify(issuer, later, token).Ok? ==>
              SessionToken.Verify(issuer, later, token) == Ok(SessionToken.Claims(requester, target, expiry))
  {
    SessionToken.VerifiesUntilExpiry(issuer, issuedAt, requester, target, later);
  }

  /** One token names one session: it is never issued for two different pairs of devices. */
  lemma TokenNamesOneSession(
      issuer: SessionToken.Issuer,
      at1: int, r1: SessionToken.DeviceId, t1: SessionToken.DeviceId,
      at2: int, r2: SessionToken.DeviceId, t2: SessionToken.DeviceId)
    requires SessionToken.IsTime(at1 + issuer.ttl) && SessionToken.IsTime(at2 + issuer.ttl)
    requires SessionToken.Issue(issuer, at1, r1, t1).0 == SessionToken.Issue(issuer, at2, r2, t2).0
    ensures r1 == r2 && t1 == t2
  {
    var expiry1 := SessionToken.UnixSecond(at1 + issuer.ttl) * SECOND;
    var expiry2 := SessionToken.UnixSecond(at2 + issuer.ttl) * SECOND;
    var early := Min(expiry1, expiry2);
    hide SessionToken.Verify, SessionToken.Seal, SessionToken.EncodePayload, SessionToken.UnixSecond;
    SessionToken.VerifiesUntilExpiry(issuer, at1, r1, t1, early);
    SessionToken.VerifiesUntilExpiry(issuer, at2, r2, t2, early);
  }

  /**
   In every run of the relay and every run of the RPCs: when two streams are paired under
   a token issued for a requester and a target, both handlers verified that token to just
   these devices before it expired, it was issued to the owner of the requester, and the
   owner of the target had authorized the requester before.
   */
  lemma {:induction false} PairedStreamsWereGranted(
      acts: seq<Action>, issuer: SessionToken.Issuer, clock: nat -> int, h: StreamId,
      rpcs: seq<Rendezvous.Action>, e: nat, issuedAt: int)
    requires IsRun(INIT, acts) && Faithful(INIT, acts, issuer, clock, 0)
    requires h in After(INIT, acts).streams && Partner(After(INIT, acts).streams[h]).Some?
    requires Rendezvous.IsRun(Rendezvous.INIT, rpcs)
    requires var log := Rendezvous.After(Rendezvous.INIT, rpcs).log;
             && e < |log| && log[e].Issued?
             && After(INIT, acts).streams[h].Token()
                == SessionToken.Issue(issuer, issuedAt, log[e].requester, log[e].target).0
    requires SessionToken.IsTime(issuedAt + issuer.ttl)
    ensures var relay, service := After(INIT, acts), Rendezvous.After(Rendezvous.INIT, rpcs);
            var token, p, issued := relay.streams[h].Token(), Partner(relay.streams[h]).value, service.log[e];
            var expiry := SessionToken.UnixSecond(issuedAt + issuer.ttl) * SECOND;
            var claims := SessionToken.Claims(issued.requester, issued.target, expiry);
            && p != h && p in relay.streams && relay.streams[p].Token() == token
            && VerifiedAs(acts, issuer, clock, h, token, claims) && VerifiedAs(acts, issuer, clock, p, token, claims)
            && Registry.Owns(service.tables, issued.user, issued.requester)
            && exists i :: 0 <= i < e && service.log[i].Authorized?
                           && service.log[i].owner == issued.target && service.log[i].allowed == issued.requester
                           && Registry.Owns(service.tables, service.log[i].user, issued.target)
  {
    PairedUnderOneToken(acts, h);
    Rendezvous.TokensAreAuthorized(rpcs, e);
    hide IsRun, After, Faithful, VerifiedAs, Rendezvous.IsRun, Rendezvous.After, SessionToken.Issue;
    var issued := Rendezvous.After(Rendezvous.INIT, rpcs).log[e];
    PairedVerified(acts, issuer, clock, h, issuedAt, issued.requester, issued.target);
    var p := Partner(After(INIT, acts).streams[h]).value;
    PairedVerified(acts, issuer, clock, p, issuedAt, issued.requester, issued.target);
  }
}
