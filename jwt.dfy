/**
 * A symbolic stand-in for the jsonwebtoken library. A token is four
 * dot-separated decimal fields: the subject `uid`, the issued-at and expiry
 * instants (whole seconds, as the library writes `iat` and `exp`) and the
 * identity of the secret that signed it. Verification succeeds exactly for a
 * well-formed token carrying the verifying secret whose expiry is still ahead,
 * which is the contract the service relies on; the cryptography (HMAC-SHA256,
 * base64url) and unforgeability are not modelled.
 */
module Jwt {
  import opened Wrappers
  import Text

  /** Identity of a signing secret (the value of an environment variable). */
  type Key = nat

  /** A user id as it travels in a token payload. */
  type Uid = nat

  datatype Claims = Claims(uid: Uid, iat: nat, exp: nat)

  /** The errors jsonwebtoken throws, in the order its `verify` checks for them. */
  datatype JwtError =
    | NotProvided    // empty or absent token string
    | Malformed      // not a decodable token
    | SecretMissing  // no secret configured
    | BadSignature   // signed under another secret
    | Expired        // expiry instant reached

  /** The `message` of the error jsonwebtoken's `verify` throws. */
  function Message(e: JwtError): string {
    match e
    case NotProvided => "jwt must be provided"
    case Malformed => "jwt malformed"
    case SecretMissing => "secret or public key must be provided"
    case BadSignature => "invalid signature"
    case Expired => "jwt expired"
  }

  /** `Math.floor(Date.now() / 1000)`: the library's clock in whole seconds. */
  function Seconds(nowMs: nat): nat {
    nowMs / 1000
  }

  function Encode(c: Claims, key: Key): string {
    Text.Join([Text.NatToString(c.uid), Text.NatToString(c.iat), Text.NatToString(c.exp), Text.NatToString(key)], '.')
  }

  function Decode(token: string): Option<(Claims, Key)> {
    var f := Text.Split(token, '.');
    if |f| != 4 then None
    else
      match (Text.ParseNat(f[0]), Text.ParseNat(f[1]), Text.ParseNat(f[2]), Text.ParseNat(f[3]))
      case (Some(u), Some(i), Some(e), Some(k)) => Some((Claims(u, i, e), k))
      case _ => None
  }

  /** Decoding an encoded token gives back its claims and its key. */
  lemma DecodeEncode(c: Claims, key: Key)
    ensures Decode(Encode(c, key)) == Some((c, key))
  {
    var f := [Text.NatToString(c.uid), Text.NatToString(c.iat), Text.NatToString(c.exp), Text.NatToString(key)];
    forall i | 0 <= i < |f| ensures '.' !in f[i] {
      Text.DigitsHaveNo(f[i], '.');
    }
    Text.SplitJoin(f, '.');
    Text.ParseNatToString(c.uid);
    Text.ParseNatToString(c.iat);
    Text.ParseNatToString(c.exp);
    Text.ParseNatToString(key);
  }

  /** A token never contains a space, so it survives being put after a scheme word in a header. */
  lemma EncodeHasNoSpace(c: Claims, key: Key)
    ensures ' ' !in Encode(c, key)
  {
    var f := [Text.NatToString(c.uid), Text.NatToString(c.iat), Text.NatToString(c.exp), Text.NatToString(key)];
    forall i | 0 <= i < |f| ensures ' ' !in f[i] {
      Text.DigitsHaveNo(f[i], ' ');
    }
    Text.JoinAvoids(f, '.', ' ');
  }

  /** `jwt.sign({ uid }, secret, { expiresIn })` at `nowMs`; a missing secret makes it throw. */
  function Sign(secret: Option<Key>, uid: Uid, expiresIn: nat, nowMs: nat): Result<string, JwtError> {
    if secret.None? then Failure(SecretMissing)
    else
      var iat := Seconds(nowMs);
      Success(Encode(Claims(uid, iat, iat + expiresIn), secret.value))
  }

  /** `jwt.verify(token, secret)` at `nowMs`: the payload's `uid`, or the error it throws. */
  function Verify(secret: Option<Key>, token: Option<string>, nowMs: nat): Result<Uid, JwtError> {
    if token.None? || token.value == [] then Failure(NotProvided)
    else
      match Decode(token.value)
      case None => Failure(Malformed)
      case Some(d) =>
        if secret.None? then Failure(SecretMissing)
        else if d.1 != secret.value then Failure(BadSignature)
        else if Seconds(nowMs) >= d.0.exp then Failure(Expired)
        else Success(d.0.uid)
  }

  /**
   * Round trip: a token signed under a secret verifies under that secret to
   * the signed uid, exactly while its expiry (issue second plus lifetime) is
   * ahead, and reports expiry afterwards.
   */
  lemma SignThenVerify(key: Key, uid: Uid, expiresIn: nat, signedAt: nat, nowMs: nat)
    ensures Sign(Some(key), uid, expiresIn, signedAt).Success?
    ensures Verify(Some(key), Some(Sign(Some(key), uid, expiresIn, signedAt).value), nowMs)
         == if Seconds(nowMs) < Seconds(signedAt) + expiresIn then Success(uid) else Failure(Expired)
  {
    DecodeEncode(Claims(uid, Seconds(signedAt), Seconds(signedAt) + expiresIn), key);
  }

  /** A token signed under one secret is rejected under any other, whatever the time. */
  lemma OtherSecretRejects(signer: Key, verifier: Key, uid: Uid, expiresIn: nat, signedAt: nat, nowMs: nat)
    requires signer != verifier
    ensures Sign(Some(signer), uid, expiresIn, signedAt).Success?
    ensures Verify(Some(verifier), Some(Sign(Some(signer), uid, expiresIn, signedAt).value), nowMs)
         == Failure(BadSignature)
  {
    DecodeEncode(Claims(uid, Seconds(signedAt), Seconds(signedAt) + expiresIn), signer);
  }

  /** A signed token has no space in it. */
  lemma SignedHasNoSpace(key: Key, uid: Uid, expiresIn: nat, signedAt: nat)
    ensures Sign(Some(key), uid, expiresIn, signedAt).Success?
    ensures ' ' !in Sign(Some(key), uid, expiresIn, signedAt).value
         && Sign(Some(key), uid, expiresIn, signedAt).value != []
  {
    var c := Claims(uid, Seconds(signedAt), Seconds(signedAt) + expiresIn);
    EncodeHasNoSpace(c, key);
    DecodeEncode(c, key);
    assert Text.Split([], '.') == [[]];
  }
}
