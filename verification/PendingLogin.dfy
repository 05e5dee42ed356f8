/** The pending-login tokens of backend/internal/auth/pending_login.go, and their separation from session tokens. */
module PendingLogin {
  import opened Prelude
  import opened Text
  import opened SessionToken

  type UserId = seq<Byte>

  function EncodeLogin(user: UserId, expiresAt: int): string {
    Base64Url.Encode(user) + "|" + FormatInt(UnixSecond(expiresAt))
  }

  function IssueLogin(issuer: Issuer, now: int, user: UserId): (string, int) {
    var expiresAt := now + issuer.ttl;
    (Seal(issuer, EncodeLogin(user, expiresAt)), expiresAt)
  }

  function VerifyLogin(issuer: Issuer, now: int, token: string): Result<UserId, Refusal> {
    var payload := Unseal(issuer, token);
    if payload.Err? then Err(payload.error)
    else
      var parts := Split(payload.value, '|');
      if |parts| != 2 then Err(MalformedPayload)
      else
        var user, seconds := Base64Url.Decode(parts[0]), ParseInt(parts[1]);
        if user.None? || seconds.None? then Err(MalformedPayload)
        else if now > AtSecond(seconds.value) then Err(Expired)
        else Ok(user.value)
  }

  lemma {:induction false} LoginFields(user: UserId, expiresAt: int)
    ensures Split(EncodeLogin(user, expiresAt), '|') == [Base64Url.Encode(user), FormatInt(UnixSecond(expiresAt))]
    ensures '.' !in EncodeLogin(user, expiresAt)
  {
    FieldsHaveNoSeparators(user);
    FormatHasNoSeparators(UnixSecond(expiresAt));
    SplitUndoesJoin([Base64Url.Encode(user), FormatInt(UnixSecond(expiresAt))], '|');
  }

  /** An issued login token verifies to its user at exactly the instants up to its expiry second. */
  lemma LoginVerifiesUntilExpiry(issuer: Issuer, now: int, user: UserId, later: int)
    requires IsTime(now + issuer.ttl)
    ensures var (token, expiresAt) := IssueLogin(issuer, now, user);
            && expiresAt == now + issuer.ttl
            && VerifyLogin(issuer, later, token) ==
              if later <= UnixSecond(expiresAt) * SECOND then Ok(user) else Err(Expired)
  {
    var expiresAt := now + issuer.ttl;
    hide EncodeLogin, Seal, Unseal, Split;
    LoginFields(user, expiresAt);
    SealOpens(issuer, issuer, EncodeLogin(user, expiresAt));
    Base64Url.RoundTrip(user);
    ParseUndoesFormat(UnixSecond(expiresAt));
    AtSecondFloors(expiresAt);
  }

  /** Two fields: the user's id and the expiry second. */
  ghost predicate LoginOf(payload: string, a: string, b: string, user: UserId, expiresAt: int) {
    && payload == a + "|" + b && '|' !in a && '|' !in b
    && Base64Url.Decode(a) == Some(user) && ParseInt(b).Some? && expiresAt == AtSecond(ParseInt(b).value)
  }

  lemma {:induction false} TwoFields(payload: string, a: string, b: string)
    ensures payload == a + "|" + b && '|' !in a && '|' !in b <==> Split(payload, '|') == [a, b]
  {
    JoinUndoesSplit(payload, '|');
    SplitUndoesJoinOfTwo(a, b);
    if Split(payload, '|') == [a, b] {
      assert '|' !in Split(payload, '|')[0] && '|' !in Split(payload, '|')[1];
    }
  }

  lemma {:induction false} SplitUndoesJoinOfTwo(a: string, b: string)
    ensures Join([a, b], '|') == a + "|" + b
    ensures '|' !in a && '|' !in b ==> Split(a + "|" + b, '|') == [a, b]
  {
    assert [a, b][1..] == [b] && Join([b], '|') == b;
    if '|' !in a && '|' !in b {
      SplitUndoesJoin([a, b], '|');
    }
  }

  /**
   Of all strings, exactly those verify to a user that are a sealed payload of two fields,
   the user's id and an expiry second, up to that second.
   */
  lemma VerifiesLoginExactly(issuer: Issuer, now: int, token: string, user: UserId)
    ensures VerifyLogin(issuer, now, token) == Ok(user) <==>
              exists payload, text, a, b, expiresAt ::
                LoginSealed(issuer, now, token, user, payload, text, a, b, expiresAt)
  {
    hide Unseal, Sealed, Split;
    if VerifyLogin(issuer, now, token) == Ok(user) {
      var payload := Unseal(issuer, token).value;
      UnsealsExactly(issuer, token, payload);
      var text :| Sealed(issuer, token, payload, text);
      var parts := Split(payload, '|');
      assert parts == [parts[0], parts[1]];
      TwoFields(payload, parts[0], parts[1]);
      var expiresAt := AtSecond(ParseInt(parts[1]).value);
      assert LoginSealed(issuer, now, token, user, payload, text, parts[0], parts[1], expiresAt);
    }
    forall payload, text, a, b, expiresAt | LoginSealed(issuer, now, token, user, payload, text, a, b, expiresAt)
      ensures VerifyLogin(issuer, now, token) == Ok(user)
    {
      UnsealsExactly(issuer, token, payload);
      TwoFields(payload, a, b);
    }
  }

  ghost predicate LoginSealed(issuer: Issuer, now: int, token: string, user: UserId,
                              payload: string, text: string, a: string, b: string, expiresAt: int) {
    Sealed(issuer, token, payload, text) && LoginOf(payload, a, b, user, expiresAt) && now <= expiresAt
  }

  /** A login token issued under any key is accepted under another exactly on a MAC collision, up to its expiry. */
  lemma ForeignLoginNeedsCollision(forger: Issuer, issuer: Issuer, now: int, user: UserId, later: int)
    requires IsTime(now + forger.ttl)
    ensures var (token, expiresAt) := IssueLogin(forger, now, user);
            var payload := EncodeLogin(user, expiresAt);
            VerifyLogin(issuer, later, token) ==
              if forger.sign(payload) != issuer.sign(payload) then Err(SignatureMismatch)
              else if later <= UnixSecond(expiresAt) * SECOND then Ok(user) else Err(Expired)
  {
    var expiresAt := now + forger.ttl;
    hide EncodeLogin, Seal, Unseal, Split;
    LoginFields(user, expiresAt);
    SealOpens(forger, issuer, EncodeLogin(user, expiresAt));
    Base64Url.RoundTrip(user);
    ParseUndoesFormat(UnixSecond(expiresAt));
    AtSecondFloors(expiresAt);
  }

  /** What is refused for its form or its signature: no dot, an undecodable signature text, another signature. */
  lemma RefusesLoginExactly(issuer: Issuer, now: int, payload: string, text: string)
    requires '.' !in payload
    ensures VerifyLogin(issuer, now, payload) == Err(MalformedToken)
    ensures var r, signature := VerifyLogin(issuer, now, payload + "." + text), Base64Url.Decode(text);
            && (r == Err(MalformedSignature) <==> signature.None?)
            && (r == Err(SignatureMismatch) <==> signature.Some? && signature.value != issuer.sign(payload))
            && r != Err(MalformedToken)
  {
    CutAtFirst(payload, text, '.');
    CutPieces(payload, '.');
  }

  /** Whatever the keys, a login token is never accepted as a session token. */
  lemma LoginIsNoSession(login: Issuer, session: Issuer, now: int, user: UserId, later: int)
    ensures Verify(session, later, IssueLogin(login, now, user).0).Err?
    ensures login == session ==> Verify(session, later, IssueLogin(login, now, user).0) == Err(MalformedPayload)
  {
    hide EncodeLogin, Seal, Unseal, Split;
    LoginFields(user, now + login.ttl);
    SealOpens(login, session, EncodeLogin(user, now + login.ttl));
  }

  /** Nor is a session token ever accepted as a login token. */
  lemma SessionIsNoLogin(login: Issuer, session: Issuer, now: int, requester: DeviceId, target: DeviceId, later: int)
    ensures VerifyLogin(login, later, Issue(session, now, requester, target).0).Err?
    ensures login == session ==>
              VerifyLogin(login, later, Issue(session, now, requester, target).0) == Err(MalformedPayload)
  {
    hide EncodePayload, Seal, Unseal, Split;
    SessionFields(requester, target, now + session.ttl);
    SealOpens(session, login, EncodePayload(requester, target, now + session.ttl));
  }

  lemma SessionFields(requester: DeviceId, target: DeviceId, expiresAt: int)
    ensures |Split(EncodePayload(requester, target, expiresAt), '|')| == 3
    ensures '.' !in EncodePayload(requester, target, expiresAt)
  {
    var parts := [Base64Url.Encode(requester), Base64Url.Encode(target), FormatInt(UnixSecond(expiresAt))];
    FieldsHaveNoSeparators(requester);
    FieldsHaveNoSeparators(target);
    FormatHasNoSeparators(UnixSecond(expiresAt));
    SplitUndoesJoin(parts, '|');
    JoinHasOnly(parts, '|', '.');
  }
}
