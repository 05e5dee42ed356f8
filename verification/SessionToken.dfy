/**
 The session tokens of backend/internal/rendezvous/token.go.  Instants and durations are
 nanoseconds, instants counted from the Unix epoch.  The keyed MAC is a function value
 about which nothing is assumed.
 */
module SessionToken {
  import opened Prelude
  import opened Text
  import Base64Url

  /** Seconds between the year-1 origin of Go's `time.Time` and the Unix epoch. */
  const UNIX_OFFSET: int := 62_135_596_800

  type DeviceId = seq<Byte>
  type Signature = seq<Byte>

  /** `Time.Unix`: the second an instant lies in. */
  function UnixSecond(t: int): int { t / SECOND }

  /** `time.Unix(sec, 0)`, whose internal addition wraps at 64 bits. */
  function AtSecond(sec: int): int {
    ((sec + UNIX_OFFSET - MIN_INT64) % TWO_64 + MIN_INT64 - UNIX_OFFSET) * SECOND
  }

  /** The instants a `time.Time` holds whose Unix second is a 64-bit integer. */
  predicate IsTime(t: int) { MIN_INT64 <= UnixSecond(t) <= MAX_INT64 - UNIX_OFFSET }

  lemma AtSecondFloors(t: int)
    requires IsTime(t)
    ensures AtSecond(UnixSecond(t)) == UnixSecond(t) * SECOND
    ensures t - SECOND < AtSecond(UnixSecond(t)) <= t
  {}

  /** A second beyond what `time.Time` can count from its own origin wraps to one long past. */
  lemma AtSecondWraps(sec: int)
    requires MIN_INT64 <= sec <= MAX_INT64
    ensures AtSecond(sec) == (if sec <= MAX_INT64 - UNIX_OFFSET then sec else sec - TWO_64) * SECOND
  {}

  datatype Claims = Claims(requester: DeviceId, target: DeviceId, expiresAt: int)

  datatype Refusal = MalformedToken | MalformedSignature | SignatureMismatch | MalformedPayload | Expired

  datatype Issuer = Issuer(sign: string -> Signature, ttl: int)

  function EncodePayload(requester: DeviceId, target: DeviceId, expiresAt: int): string {
    Join([Base64Url.Encode(requester), Base64Url.Encode(target), FormatInt(UnixSecond(expiresAt))], '|')
  }

  function DecodePayload(payload: string): Option<Claims> {
    var parts := Split(payload, '|');
    if |parts| != 3 then None
    else
      var requester, target := Base64Url.Decode(parts[0]), Base64Url.Decode(parts[1]);
      var seconds := ParseInt(parts[2]);
      if requester.None? || target.None? || seconds.None? then None
      else Some(Claims(requester.value, target.value, AtSecond(seconds.value)))
  }

  /** Payload, a dot, and the MAC of the payload. */
  function Seal(issuer: Issuer, payload: string): string {
    payload + "." + Base64Url.Encode(issuer.sign(payload))
  }

  /** What was sealed, if the seal is intact. */
  function Unseal(issuer: Issuer, token: string): Result<string, Refusal> {
    var cut := Cut(token, '.');
    if cut.None? then Err(MalformedToken)
    else
      var (payload, text) := cut.value;
      var signature := Base64Url.Decode(text);
      if signature.None? then Err(MalformedSignature)
      else if signature.value != issuer.sign(payload) then Err(SignatureMismatch)
      else Ok(payload)
  }

  function Issue(issuer: Issuer, now: int, requester: DeviceId, target: DeviceId): (string, int) {
    var expiresAt := now + issuer.ttl;
    (Seal(issuer, EncodePayload(requester, target, expiresAt)), expiresAt)
  }

  function Verify(issuer: Issuer, now: int, token: string): Result<Claims, Refusal> {
    var payload := Unseal(issuer, token);
    if payload.Err? then Err(payload.error)
    else
      var claims := DecodePayload(payload.value);
      if claims.None? then Err(MalformedPayload)
      else if now > claims.value.expiresAt then Err(Expired)
      else Ok(claims.value)
  }

  /** A payload under a signature opens exactly for an issuer whose MAC of it is that signature. */
  lemma {:induction false} UnsealExactly(issuer: Issuer, payload: string, signature: Signature)
    requires '.' !in payload
    ensures Unseal(issuer, payload + "." + Base64Url.Encode(signature))
            == if signature == issuer.sign(payload) then Ok(payload) else Err(SignatureMismatch)
  {
    CutAtFirst(payload, Base64Url.Encode(signature), '.');
    Base64Url.RoundTrip(signature);
  }

  lemma SealOpens(sealer: Issuer, opener: Issuer, payload: string)
    requires '.' !in payload
    ensures Unseal(opener, Seal(sealer, payload))
            == if sealer.sign(payload) == opener.sign(payload) then Ok(payload) else Err(SignatureMismatch)
  {
    UnsealExactly(opener, payload, sealer.sign(payload));
  }

  lemma {:induction false} FieldsHaveNoSeparators(id: DeviceId)
    ensures '|' !in Base64Url.Encode(id) && '.' !in Base64Url.Encode(id)
  {
    Base64Url.EncodeStaysInAlphabet(id);
    Base64Url.AlphabetHasNoSeparators(Base64Url.Encode(id));
  }

  /** For all device ids, decoding a payload gives them back with the expiry cut to its second. */
  lemma PayloadRoundTrip(requester: DeviceId, target: DeviceId, expiresAt: int)
    requires IsTime(expiresAt)
    ensures DecodePayload(EncodePayload(requester, target, expiresAt))
            == Some(Claims(requester, target, UnixSecond(expiresAt) * SECOND))
    ensures '.' !in EncodePayload(requester, target, expiresAt)
  {
    var parts := [Base64Url.Encode(requester), Base64Url.Encode(target), FormatInt(UnixSecond(expiresAt))];
    FieldsHaveNoSeparators(requester);
    FieldsHaveNoSeparators(target);
    FormatHasNoSeparators(UnixSecond(expiresAt));
    SplitUndoesJoin(parts, '|');
    JoinHasOnly(parts, '|', '.');
    Base64Url.RoundTrip(requester);
    Base64Url.RoundTrip(target);
    ParseUndoesFormat(UnixSecond(expiresAt));
    AtSecondFloors(expiresAt);
  }

  /** Payloads agree only when ids and expiry second agree: nothing in an id can pass for a field break. */
  lemma PayloadDetermines(r1: DeviceId, t1: DeviceId, e1: int, r2: DeviceId, t2: DeviceId, e2: int)
    requires IsTime(e1) && IsTime(e2)
    ensures EncodePayload(r1, t1, e1) == EncodePayload(r2, t2, e2) <==>
              r1 == r2 && t1 == t2 && UnixSecond(e1) == UnixSecond(e2)
  {
    PayloadRoundTrip(r1, t1, e1);
    PayloadRoundTrip(r2, t2, e2);
  }

  /**
   An issued token verifies to the ids it was issued for, with the expiry cut to its
   second, at exactly the instants up to that second; after it, it has expired.
   */
  lemma VerifiesUntilExpiry(issuer: Issuer, now: int, requester: DeviceId, target: DeviceId, later: int)
    requires IsTime(now + issuer.ttl)
    ensures var (token, expiresAt) := Issue(issuer, now, requester, target);
            && expiresAt == now + issuer.ttl
            && Verify(issuer, later, token) ==
              if later <= UnixSecond(expiresAt) * SECOND
              then Ok(Claims(requester, target, UnixSecond(expiresAt) * SECOND)) else Err(Expired)
  {
    var expiresAt := now + issuer.ttl;
    hide EncodePayload, DecodePayload, Seal, Unseal;
    PayloadRoundTrip(requester, target, expiresAt);
    SealOpens(issuer, issuer, EncodePayload(requester, target, expiresAt));
  }

  /** The last instant a token verifies is less than a second short of its ttl, and never beyond it. */
  lemma LifetimeWithinSecondOfTtl(issuer: Issuer, now: int, requester: DeviceId, target: DeviceId, later: int)
    requires IsTime(now + issuer.ttl)
    ensures later - now <= issuer.ttl - SECOND + 1 ==>
              Verify(issuer, later, Issue(issuer, now, requester, target).0).Ok?
    ensures Verify(issuer, later, Issue(issuer, now, requester, target).0).Ok? ==> later - now <= issuer.ttl
  {
    VerifiesUntilExpiry(issuer, now, requester, target, later);
  }

  /** A payload decodes exactly when it is three fields: the ids, requester first, and the expiry second. */
  lemma DecodesPayloadExactly(payload: string, claims: Claims)
    ensures DecodePayload(payload) == Some(claims) <==>
              exists a, b, c :: PayloadOf(payload, a, b, c, claims)
  {
    JoinUndoesSplit(payload, '|');
    var parts := Split(payload, '|');
    if DecodePayload(payload) == Some(claims) {
      JoinsThree(parts[0], parts[1], parts[2]);
      assert parts == [parts[0], parts[1], parts[2]];
      assert PayloadOf(payload, parts[0], parts[1], parts[2], claims);
    }
    forall a, b, c | PayloadOf(payload, a, b, c, claims) ensures DecodePayload(payload) == Some(claims) {
      JoinsThree(a, b, c);
      SplitUndoesJoin([a, b, c], '|');
    }
  }

  ghost predicate PayloadOf(payload: string, a: string, b: string, c: string, claims: Claims) {
    && payload == a + "|" + b + "|" + c && '|' !in a && '|' !in b && '|' !in c
    && Base64Url.Decode(a) == Some(claims.requester) && Base64Url.Decode(b) == Some(claims.target)
    && ParseInt(c).Some? && claims.expiresAt == AtSecond(ParseInt(c).value)
  }

  lemma JoinsThree(a: string, b: string, c: string)
    ensures Join([a, b, c], '|') == a + "|" + b + "|" + c
  {
    assert [a, b, c][1..] == [b, c] && [b, c][1..] == [c] && Join([c], '|') == c;
    assert Join([b, c], '|') == b + "|" + c;
    assert Join([a, b, c], '|') == a + "|" + (b + "|" + c);
    assert a + "|" + (b + "|" + c) == a + "|" + b + "|" + c;
  }

  /** Why a token is refused: no dot, no signature text, another signature, no payload, or its time is over. */
  lemma RefusesExactly(issuer: Issuer, now: int, payload: string, text: string)
    requires '.' !in payload
    ensures Verify(issuer, now, payload) == Err(MalformedToken)
    ensures var r, signature, claims :=
              Verify(issuer, now, payload + "." + text), Base64Url.Decode(text), DecodePayload(payload);
            && (r == Err(MalformedSignature) <==> signature.None?)
            && (r == Err(SignatureMismatch) <==> signature.Some? && signature.value != issuer.sign(payload))
            && (r == Err(MalformedPayload) <==> signature == Some(issuer.sign(payload)) && claims.None?)
            && (r == Err(Expired) <==>
                  signature == Some(issuer.sign(payload)) && claims.Some? && now > claims.value.expiresAt)
            && r != Err(MalformedToken)
  {
    CutAtFirst(payload, text, '.');
    CutPieces(payload, '.');
  }

  /** A token is a payload without dots, a dot, and a text that decodes to the MAC of the payload. */
  ghost predicate Sealed(issuer: Issuer, token: string, payload: string, text: string) {
    && '.' !in payload && token == payload + "." + text
    && Base64Url.Decode(text) == Some(issuer.sign(payload))
  }

  lemma UnsealsExactly(issuer: Issuer, token: string, payload: string)
    ensures Unseal(issuer, token) == Ok(payload) <==> exists text :: Sealed(issuer, token, payload, text)
  {
    CutPieces(token, '.');
    var cut := Cut(token, '.');
    if Unseal(issuer, token) == Ok(payload) {
      assert Sealed(issuer, token, payload, cut.value.1);
    }
    forall text | Sealed(issuer, token, payload, text) ensures Unseal(issuer, token) == Ok(payload) {
      CutAtFirst(payload, text, '.');
    }
  }

  /**
   Of all strings, exactly those verify to given claims that are a sealed payload whose
   fields decode to the claims, up to the instant they expire.
   */
  lemma VerifiesExactly(issuer: Issuer, now: int, token: string, claims: Claims)
    ensures Verify(issuer, now, token) == Ok(claims) <==>
              now <= claims.expiresAt &&
              exists payload, text :: Sealed(issuer, token, payload, text) && DecodePayload(payload) == Some(claims)
  {
    hide Unseal, DecodePayload, Sealed;
    if Verify(issuer, now, token) == Ok(claims) {
      UnsealsExactly(issuer, token, Unseal(issuer, token).value);
    }
    forall payload, text | Sealed(issuer, token, payload, text) && DecodePayload(payload) == Some(claims)
      ensures now <= claims.expiresAt ==> Verify(issuer, now, token) == Ok(claims)
    {
      UnsealsExactly(issuer, token, payload);
    }
  }

  /** Another payload under an issued signature is accepted exactly on a MAC collision, if it is a payload in force. */
  lemma SwappedPayloadNeedsCollision(issuer: Issuer, payload: string, other: string, later: int)
    requires '.' !in other
    ensures Verify(issuer, later, other + "." + Base64Url.Encode(issuer.sign(payload))).Ok? <==>
              && issuer.sign(other) == issuer.sign(payload)
              && DecodePayload(other).Some? && later <= DecodePayload(other).value.expiresAt
  {
    UnsealExactly(issuer, other, issuer.sign(payload));
  }
}
