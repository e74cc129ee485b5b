/**
 Nested access tokens (packages/crypto/src/tokens.ts) over ideal primitives: a signature verifies
 under a point exactly if that point's private half made it, and a ciphertext opens with exactly
 the key it was sealed with. Times are milliseconds; claims carry seconds.
 */
module Tokens {
  import opened Text
  import opened KeyLoading
  import opened KeyLifecycle
  import opened KeyRegistry

  datatype Claims = Claims(
    sub: Option<string>, tid: Option<string>, roles: Option<seq<string>>, permissions: Option<seq<string>>,
    iss: Option<string>, aud: Option<string>, iat: Option<int>, exp: Option<int>, nbf: Option<int>)

  datatype JwsHeader = JwsHeader(alg: string, typ: Option<string>, kid: Option<string>)

  datatype Jws = Jws(header: JwsHeader, claims: Claims, signer: Point)

  datatype JweHeader = JweHeader(alg: string, enc: string, cty: Option<string>, typ: Option<string>, kid: Option<string>, zip: bool)

  /** A compact JWE: its header, the key it was sealed with, and the JWS inside, if that is what is inside. */
  datatype Token = Token(header: JweHeader, sealedWith: string, plaintext: Option<Jws>)

  datatype Policy = Policy(issuer: string, audience: string, ttl: int, tolerance: int)

  const JWS_ALG := "ES256"
  const JWE_ALG := "A256KW"
  const JWE_ENC := "A256GCM"
  const TOKEN_TYP := "crbk-at+jwt"
  const NESTED_CTY := "JWT"

  function Seconds(ms: int): int {
    ms / 1000
  }

  // ---------------------------------------------------------------- issuing

  predicate MaterialOk(m: Material) {
    |m.encryptionKey| == ENCRYPTION_KEY_BYTES && m.signingKid != "" && m.encryptionKid != "" && m.signingKid != m.encryptionKid
  }

  function Stamped(claims: Claims, policy: Policy, now: int): Claims {
    claims.(iss := Some(policy.issuer), aud := Some(policy.audience), iat := Some(Seconds(now)), exp := Some(Seconds(now) + policy.ttl))
  }

  /** A token's claims are the caller's own, every one of them, under this issuer, for this audience and this lifetime. */
  predicate Carries(c: Claims, claims: Claims, policy: Policy, issuedAt: int) {
    && c.sub == claims.sub && c.tid == claims.tid && c.roles == claims.roles && c.permissions == claims.permissions && c.nbf == claims.nbf
    && c.iss == Some(policy.issuer) && c.aud == Some(policy.audience)
    && c.iat == Some(issuedAt / 1000) && c.exp == Some(issuedAt / 1000 + policy.ttl)
  }

  datatype Issue = Issued(token: Token) | Refused

  /** `issueNestedToken`; `signer` is the point of the signing key. */
  function IssueNestedToken(claims: Claims, m: Material, signer: Point, policy: Policy, now: int): (r: Issue)
    ensures r.Issued? <==> |m.encryptionKey| == 32 && m.signingKid != "" && m.encryptionKid != "" && m.signingKid != m.encryptionKid
  {
    if !MaterialOk(m) then Refused
    else
      var jws := Jws(JwsHeader(JWS_ALG, Some(TOKEN_TYP), Some(m.signingKid)), Stamped(claims, policy, now), signer);
      Issued(Token(JweHeader(JWE_ALG, JWE_ENC, Some(NESTED_CTY), Some(TOKEN_TYP), Some(m.encryptionKid), false), m.encryptionKey, Some(jws)))
  }

  // ---------------------------------------------------------------- verifying

  datatype Verification = Accepted(claims: Claims, outer: JweHeader, inner: JwsHeader) | Rejected(reason: string)

  predicate HasKid(kid: Option<string>) {
    kid.Some? && kid.value != ""
  }

  function CompactDecrypt(token: Token, encryption: string -> Option<string>): Option<Option<Jws>> {
    if !HasKid(token.header.kid) then None
    else
      var key := encryption(token.header.kid.value);
      if key.None? then None
      else if token.header.alg != JWE_ALG || token.header.enc != JWE_ENC || token.header.zip then None
      else if key.value != token.sealedWith then None
      else Some(token.plaintext)
  }

  predicate ClaimsHold(c: Claims, policy: Policy, now: int) {
    && c.sub.Some? && c.tid.Some? && c.roles.Some? && c.permissions.Some? && c.iat.Some? && c.exp.Some?
    && c.iss == Some(policy.issuer) && c.aud == Some(policy.audience)
    && (c.nbf.Some? ==> c.nbf.value <= Seconds(now) + policy.tolerance)
    && c.exp.value > Seconds(now) - policy.tolerance
  }

  predicate JwtVerify(jws: Jws, signing: string -> Option<Point>, policy: Policy, now: int) {
    if !HasKid(jws.header.kid) then false
    else
      var key := signing(jws.header.kid.value);
      && key == Some(jws.signer)
      && jws.header.alg == JWS_ALG && jws.header.typ == Some(TOKEN_TYP)
      && ClaimsHold(jws.claims, policy, now)
  }

  function VerifyNestedToken(token: Token, signing: string -> Option<Point>, encryption: string -> Option<string>, policy: Policy, now: int): Verification {
    var plain := CompactDecrypt(token, encryption);
    if plain.None? then Rejected("decryption failed")
    else if token.header.cty != Some(NESTED_CTY) then Rejected("outer header is not a nested JWT")
    else if plain.value.None? || !JwtVerify(plain.value.value, signing, policy, now) then Rejected("signature or claims invalid")
    else Accepted(plain.value.value.claims, token.header, plain.value.value.header)
  }

  /** The claims a caller has to supply. */
  predicate Complete(c: Claims) {
    c.sub.Some? && c.tid.Some? && c.roles.Some? && c.permissions.Some? && c.nbf.None?
  }

  /**
   The round trip, exactly: an issued token is accepted, with the claims it was issued for, if and
   only if both its kids resolve to its own keys and its lifetime plus tolerance is not over.
   */
  lemma IssuedTokenVerifiesExactly(claims: Claims, m: Material, signer: Point, policy: Policy, issuedAt: int,
                                   signing: string -> Option<Point>, encryption: string -> Option<string>, now: int)
    requires Complete(claims) && MaterialOk(m)
    ensures var token := IssueNestedToken(claims, m, signer, policy, issuedAt).token;
            var v := VerifyNestedToken(token, signing, encryption, policy, now);
            && (v.Accepted? <==>
                  && signing(m.signingKid) == Some(signer) && encryption(m.encryptionKid) == Some(m.encryptionKey)
                  && Seconds(now) < Seconds(issuedAt) + policy.ttl + policy.tolerance)
            && (v.Accepted? ==> Carries(v.claims, claims, policy, issuedAt))
  {
    var token := IssueNestedToken(claims, m, signer, policy, issuedAt).token;
    assert token.header.cty == Some(NESTED_CTY);
  }

  /** What is on the outside of a token: how it is sealed and with which key, and nothing of its claims; and what is inside. */
  lemma IssuedTokenSays(claims: Claims, m: Material, signer: Point, policy: Policy, issuedAt: int)
    requires MaterialOk(m)
    ensures var token := IssueNestedToken(claims, m, signer, policy, issuedAt).token;
            && token.header == JweHeader("A256KW", "A256GCM", Some("JWT"), Some("crbk-at+jwt"), Some(m.encryptionKid), false)
            && token.sealedWith == m.encryptionKey && token.plaintext.Some?
            && token.plaintext.value.header == JwsHeader("ES256", Some("crbk-at+jwt"), Some(m.signingKid))
            && token.plaintext.value.signer == signer
            && Carries(token.plaintext.value.claims, claims, policy, issuedAt)
  {
  }

  /** Every claim that has to be there is there, for this issuer and audience, and the token's time has come and is not over. */
  predicate InForce(c: Claims, policy: Policy, now: int) {
    && c.sub != None && c.tid != None && c.roles != None && c.permissions != None && c.iat != None
    && c.iss == Some(policy.issuer) && c.aud == Some(policy.audience)
    && (c.nbf.Some? ==> c.nbf.value - policy.tolerance <= now / 1000)
    && c.exp.Some? && now < (c.exp.value + policy.tolerance) * 1000
  }

  /** The outer layer opens with the key its kid names, under the only algorithms allowed, as a nested token. */
  predicate SealedRight(token: Token, encryption: string -> Option<string>) {
    && token.header.kid.Some? && token.header.kid.value != "" && encryption(token.header.kid.value) == Some(token.sealedWith)
    && token.header.alg == "A256KW" && token.header.enc == "A256GCM" && !token.header.zip && token.header.cty == Some("JWT")
  }

  /** The inner layer is signed by the private half of the key its kid names. */
  predicate SignedRight(jws: Jws, signing: string -> Option<Point>) {
    && jws.header.kid.Some? && jws.header.kid.value != "" && signing(jws.header.kid.value) == Some(jws.signer)
    && jws.header.alg == "ES256" && jws.header.typ == Some("crbk-at+jwt")
  }

  /**
   Both layers count: a token, whoever made it, is accepted if and only if it is sealed with the
   key its outer kid resolves to, signed by the private half of the key its inner kid resolves to,
   and its claims are in force. What is then reported is what it carries.
   */
  lemma AcceptedIff(token: Token, signing: string -> Option<Point>, encryption: string -> Option<string>, policy: Policy, now: int)
    ensures var v := VerifyNestedToken(token, signing, encryption, policy, now);
            && (v.Accepted? <==>
                  && SealedRight(token, encryption) && token.plaintext.Some?
                  && SignedRight(token.plaintext.value, signing) && InForce(token.plaintext.value.claims, policy, now))
            && (v.Accepted? ==> v.claims == token.plaintext.value.claims && v.outer == token.header && v.inner == token.plaintext.value.header)
  {
    if token.plaintext.Some? {
      InForceIff(token.plaintext.value.claims, policy, now);
    }
    hide InForce, ClaimsHold;
  }

  lemma InForceIff(c: Claims, policy: Policy, now: int)
    ensures ClaimsHold(c, policy, now) <==> InForce(c, policy, now)
  {
  }

  // ---------------------------------------------------------------- lifetimes across rotations

  /** Verification by an instance holding snapshot `s`, at `now`. */
  function VerifyWith(s: Snapshot, token: Token, policy: Policy, now: int): Verification {
    VerifyNestedToken(token, kid => ResolveSigning(s, kid, now), kid => ResolveEncryption(s, kid, now), policy, now)
  }

  /** A row's key is not over at `now`. */
  predicate Open(row: KeyRow, now: int) {
    row.notAfter.Some? ==> now < row.notAfter.value
  }

  /** How the service reads the same variables: invalid values keep it from starting. */
  function ConfigNumber(e: Env, fallback: int, least: int): Option<int> {
    match e
    case Unset => Some(fallback)
    case Finite(n) => if n >= least then Some(n) else None
    case NotFinite => None
  }

  /** Whatever the environment, if the service starts, the overlap of a rotation is the lifetime plus tolerance of its tokens. */
  lemma OverlapIsTheTokenLifetime(ttl: Env, tolerance: Env)
    requires ConfigNumber(ttl, 900, 1).Some? && ConfigNumber(tolerance, 5, 0).Some?
    ensures OverlapSeconds(ttl, tolerance) == ConfigNumber(ttl, 900, 1).value + ConfigNumber(tolerance, 5, 0).value
  {
  }

  /** What loading reads of a row does not change while the row is not revoked. */
  lemma LoadingSurvives(provider: KeyProvider, kid: string, a: KeyRow, b: KeyRow)
    requires RowForward(a, b) && b.state != Revoked
    ensures LoadStoredKey(provider, kid, a) == LoadStoredKey(provider, kid, b)
  {
  }

  /** The keys of `m` are the ones rows `a` and `b` load to. */
  ghost predicate Made(provider: KeyProvider, m: Material, signer: Point, a: KeyRow, b: KeyRow) {
    var x, y := LoadStoredKey(provider, m.signingKid, a), LoadStoredKey(provider, m.encryptionKid, b);
    && x.Ok? && x.value.SigningKey? && x.value.publicKey == signer
    && y.Ok? && y.value == EncryptionKey(m.encryptionKid, m.encryptionKey)
  }

  /** The active material of a snapshot is made of two active rows of its table, and is fit to issue with if the kids are. */
  lemma ActiveMaterialIsMade(provider: KeyProvider, keys: Keys, rows: seq<Named>) returns (signer: Point)
    requires Inv(keys) && Answers(keys, rows) && TheActiveMaterial(Build(provider, rows)).Available?
    ensures var m := TheActiveMaterial(Build(provider, rows)).material;
            && IsActive(keys, TokenSigning, m.signingKid) && IsActive(keys, TokenEncryption, m.encryptionKid)
            && provider.publicHalf(m.signingKey) == Some(signer)
            && Made(provider, m, signer, keys[m.signingKid], keys[m.encryptionKid])
            && m.signingKid != m.encryptionKid && |m.encryptionKey| == ENCRYPTION_KEY_BYTES
  {
    var s := Build(provider, rows);
    var m := TheActiveMaterial(s).material;
    ActiveMaterialResolves(provider, keys, rows);
    signer := ResolveSigning(s, m.signingKid, 0).value;
    hide Build;
    assert ResolveEncryption(s, m.encryptionKid, 0) == Some(m.encryptionKey);
    SnapshotIsExact(provider, keys, rows, m.signingKid);
    SnapshotIsExact(provider, keys, rows, m.encryptionKid);
    LoadedKid(provider, m.encryptionKid, keys[m.encryptionKid]);
    SecretLength(provider, m.encryptionKid, keys[m.encryptionKid]);
    hide LoadStoredKey;
  }

  lemma SecretLength(provider: KeyProvider, kid: string, row: KeyRow)
    ensures var loaded := LoadStoredKey(provider, kid, row);
            loaded.Ok? && loaded.value.EncryptionKey? ==> |loaded.value.secret| == ENCRYPTION_KEY_BYTES
  {
  }

  /**
   With a snapshot of a table that still offers both rows, a token is accepted exactly until the
   first of three instants: the end of either key, and its own expiry plus the tolerance.
   */
  lemma TokenIsAcceptedUntil(provider: KeyProvider, keys: Keys, rows: seq<Named>, claims: Claims, m: Material, signer: Point, policy: Policy, issuedAt: int, now: int)
    requires Answers(keys, rows) && Offered(keys, m.signingKid) && Offered(keys, m.encryptionKid)
    requires Made(provider, m, signer, keys[m.signingKid], keys[m.encryptionKid])
    requires Complete(claims) && MaterialOk(m)
    ensures var token := IssueNestedToken(claims, m, signer, policy, issuedAt).token;
            var v := VerifyWith(Build(provider, rows), token, policy, now);
            && (v.Accepted? <==>
                  && Open(keys[m.signingKid], now) && Open(keys[m.encryptionKid], now)
                  && now < (Seconds(issuedAt) + policy.ttl + policy.tolerance) * 1000)
            && (v.Accepted? ==> Carries(v.claims, claims, policy, issuedAt))
  {
    hide Build, LoadStoredKey, VerifyNestedToken, IssueNestedToken;
    var s := Build(provider, rows);
    SnapshotIsExact(provider, keys, rows, m.signingKid);
    SnapshotIsExact(provider, keys, rows, m.encryptionKid);
    IssuedTokenVerifiesExactly(claims, m, signer, policy, issuedAt, kid => ResolveSigning(s, kid, now), kid => ResolveEncryption(s, kid, now), now);
  }

  // ---------------------------------------------------------------- tokens issued anywhere in a run

  /** How long after the clock of its key's retirement the token was issued; 0 if the key has no end. */
  function Late(row: KeyRow, issuedAt: int, overlap: int): int {
    if row.notAfter.None? then 0 else issuedAt - ReadAt(row, overlap)
  }

  function Max(a: int, b: int): int {
    if a < b then b else a
  }

  /** What a token loses of its lifetime plus tolerance: how late it was for either key, or the fraction of a second `iat` drops. */
  function Lost(signing: KeyRow, encryption: KeyRow, issuedAt: int, overlap: int): int {
    Max(Max(Late(signing, issuedAt, overlap), Late(encryption, issuedAt, overlap)), issuedAt % 1000)
  }

  lemma EndsInOne(signing: KeyRow, encryption: KeyRow, issuedAt: int, overlap: int, now: int)
    ensures (Open(signing, now) && Open(encryption, now) && now < (Seconds(issuedAt) + overlap) * 1000)
            <==> now < issuedAt + overlap * 1000 - Lost(signing, encryption, issuedAt, overlap)
  {
    SecondsAndFraction(issuedAt, overlap);
  }

  lemma SecondsAndFraction(ms: int, overlap: int)
    ensures (Seconds(ms) + overlap) * 1000 == ms + overlap * 1000 - ms % 1000
  {
  }

  /** The token made from the active material of a snapshot, at `issuedAt`. */
  ghost function TokenFrom(provider: KeyProvider, rows: seq<Named>, claims: Claims, policy: Policy, issuedAt: int): Token
    requires CanIssue(provider, rows)
  {
    var m := TheActiveMaterial(Build(provider, rows)).material;
    IssueNestedToken(claims, m, provider.publicHalf(m.signingKey).value, policy, issuedAt).token
  }

  /** The snapshot of `rows` has material that `issueNestedToken` takes. */
  ghost predicate CanIssue(provider: KeyProvider, rows: seq<Named>) {
    var active := TheActiveMaterial(Build(provider, rows));
    active.Available? && MaterialOk(active.material) && provider.publicHalf(active.material.signingKey).Some?
  }

  ghost function SigningKid(provider: KeyProvider, rows: seq<Named>): string
    requires CanIssue(provider, rows)
  {
    TheActiveMaterial(Build(provider, rows)).material.signingKid
  }

  ghost function EncryptionKid(provider: KeyProvider, rows: seq<Named>): string
    requires CanIssue(provider, rows)
  {
    TheActiveMaterial(Build(provider, rows)).material.encryptionKid
  }

  /** An instance took its snapshot from `issuing` at `r`; the run that follows revokes neither of its active keys. */
  ghost predicate Issuer(provider: KeyProvider, r: Registry, issuing: seq<Named>, steps: seq<Step>) {
    && Sound(r) && Answers(r.keys, issuing) && CanIssue(provider, issuing)
    && Spares(steps, SigningKid(provider, issuing)) && Spares(steps, EncryptionKid(provider, issuing))
  }

  /** After the run: both keys offered, with their material, and good since the snapshot. */
  lemma IssuerKeysServe(provider: KeyProvider, r: Registry, issuing: seq<Named>, steps: seq<Step>, overlap: int)
    requires Issuer(provider, r, issuing, steps)
    ensures var r', a, b := Run(r, steps, overlap), SigningKid(provider, issuing), EncryptionKid(provider, issuing);
            var m := TheActiveMaterial(Build(provider, issuing)).material;
            && IsActive(r.keys, TokenSigning, a) && IsActive(r.keys, TokenEncryption, b)
            && Offered(r'.keys, a) && Offered(r'.keys, b)
            && GoodFor(r'.keys[a], Since(r, TokenSigning), r'.now, overlap) && GoodFor(r'.keys[b], Since(r, TokenEncryption), r'.now, overlap)
            && Made(provider, m, provider.publicHalf(m.signingKey).value, r'.keys[a], r'.keys[b])
  {
    hide Build, LoadStoredKey, Run, Answers, TheActiveMaterial, RowOk, RowForward, AtMostOneActive, Spares;
    var signer := ActiveMaterialIsMade(provider, r.keys, issuing);
    var m, keys := TheActiveMaterial(Build(provider, issuing)).material, Run(r, steps, overlap).keys;
    KeyServes(r, steps, overlap, m.signingKid, TokenSigning);
    KeyServes(r, steps, overlap, m.encryptionKid, TokenEncryption);
    LoadingSurvives(provider, m.signingKid, r.keys[m.signingKid], keys[m.signingKid]);
    LoadingSurvives(provider, m.encryptionKid, r.keys[m.encryptionKid], keys[m.encryptionKid]);
  }

  /** An active key after a run that spares it: offered, with the same material, and good since now. */
  lemma KeyServes(r: Registry, steps: seq<Step>, overlap: int, kid: string, purpose: Purpose)
    requires Sound(r) && IsActive(r.keys, purpose, kid) && Spares(steps, kid)
    ensures var r' := Run(r, steps, overlap);
            && Offered(r'.keys, kid) && RowForward(r.keys[kid], r'.keys[kid])
            && GoodFor(r'.keys[kid], Since(r, purpose), r'.now, overlap)
  {
    assert RowOk(r.keys[kid]);
    RunKeepsSound(r, steps, overlap);
    ActiveKeyOutlivesRotations(r, steps, overlap, kid, Since(r, purpose));
    hide Run;
  }

  /**
   A token issued at any time from a snapshot of any age. After any run that revokes neither key,
   an instance whose snapshot is of the table then accepts it exactly for its lifetime plus
   tolerance, less how late it was for the earlier of its two keys' retirements, or less the
   fraction of a second its `iat` drops if that is more.
   */
  lemma TokenIsAcceptedExactlyUntil(
      provider: KeyProvider, r: Registry, issuing: seq<Named>, steps: seq<Step>, rows: seq<Named>,
      claims: Claims, policy: Policy, issuedAt: int, now: int)
    requires Issuer(provider, r, issuing, steps) && Complete(claims)
    requires Answers(Run(r, steps, policy.ttl + policy.tolerance).keys, rows)
    ensures var overlap := policy.ttl + policy.tolerance;
            var r', a, b := Run(r, steps, overlap), SigningKid(provider, issuing), EncryptionKid(provider, issuing);
            var v := VerifyWith(Build(provider, rows), TokenFrom(provider, issuing, claims, policy, issuedAt), policy, now);
            && a in r'.keys && b in r'.keys
            && GoodFor(r'.keys[a], Since(r, TokenSigning), r'.now, overlap) && GoodFor(r'.keys[b], Since(r, TokenEncryption), r'.now, overlap)
            && (v.Accepted? <==> now < issuedAt + overlap * 1000 - Lost(r'.keys[a], r'.keys[b], issuedAt, overlap))
            && (v.Accepted? ==> Carries(v.claims, claims, policy, issuedAt))
  {
    hide Build, LoadStoredKey, VerifyWith, IssueNestedToken, Run, Answers, TheActiveMaterial, Sound, Spares, GoodFor, Lost, Made, Open;
    var m, overlap := TheActiveMaterial(Build(provider, issuing)).material, policy.ttl + policy.tolerance;
    var keys, signer := Run(r, steps, overlap).keys, provider.publicHalf(m.signingKey).value;
    IssuerKeysServe(provider, r, issuing, steps, overlap);
    TokenIsAcceptedUntil(provider, keys, rows, claims, m, signer, policy, issuedAt, now);
    EndsInOne(keys[m.signingKid], keys[m.encryptionKid], issuedAt, overlap, now);
  }

  /** `end` is where acceptance stops. */
  lemma BoundedByEnd(end: int, bound: int, accepted: int -> bool)
    requires forall now :: accepted(now) <==> now < end
    ensures (forall now :: now < bound ==> accepted(now)) <==> bound <= end
  {
    if end < bound {
      assert !accepted(end);
    }
  }

  /**
   Such a token lives its whole life, up to its expiry plus the tolerance, if and only if each of
   its keys that has been retired was retired by an activation that read the clock no more than
   the token's fraction of a second before the token was issued. In particular not every token
   issued while its keys were active does: `activate` reads the clock before it commits.
   */
  lemma TokenLivesItsWholeLifeIff(
      provider: KeyProvider, r: Registry, issuing: seq<Named>, steps: seq<Step>, rows: seq<Named>,
      claims: Claims, policy: Policy, issuedAt: int)
    requires Issuer(provider, r, issuing, steps) && Complete(claims)
    requires Answers(Run(r, steps, policy.ttl + policy.tolerance).keys, rows)
    ensures var overlap := policy.ttl + policy.tolerance;
            var keys, a, b := Run(r, steps, overlap).keys, SigningKid(provider, issuing), EncryptionKid(provider, issuing);
            var token := TokenFrom(provider, issuing, claims, policy, issuedAt);
            && a in keys && b in keys
            && ((forall now :: now < (Seconds(issuedAt) + overlap) * 1000 ==> VerifyWith(Build(provider, rows), token, policy, now).Accepted?)
                <==>
                && (keys[a].notAfter.Some? ==> issuedAt - ReadAt(keys[a], overlap) <= issuedAt % 1000)
                && (keys[b].notAfter.Some? ==> issuedAt - ReadAt(keys[b], overlap) <= issuedAt % 1000))
  {
    hide Build, VerifyWith, Run, Answers, Sound, Spares, TokenFrom, SigningKid, EncryptionKid, GoodFor, CanIssue;
    var overlap := policy.ttl + policy.tolerance;
    var s, token := Build(provider, rows), TokenFrom(provider, issuing, claims, policy, issuedAt);
    var keys, a, b := Run(r, steps, overlap).keys, SigningKid(provider, issuing), EncryptionKid(provider, issuing);
    TokenIsAcceptedExactlyUntil(provider, r, issuing, steps, rows, claims, policy, issuedAt, 0);
    var end := issuedAt + overlap * 1000 - Lost(keys[a], keys[b], issuedAt, overlap);
    forall now ensures VerifyWith(s, token, policy, now).Accepted? <==> now < end {
      TokenIsAcceptedExactlyUntil(provider, r, issuing, steps, rows, claims, policy, issuedAt, now);
    }
    BoundedByEnd(end, (Seconds(issuedAt) + overlap) * 1000, now => VerifyWith(s, token, policy, now).Accepted?);
    SecondsAndFraction(issuedAt, overlap);
  }

  /**
   The plain promise, "at least the lifetime plus tolerance, less d for a token issued d late",
   holds if and only if d is at least the fraction of a second `iat` drops.
   */
  lemma PlainLateBoundHoldsIff(
      provider: KeyProvider, r: Registry, issuing: seq<Named>, steps: seq<Step>, rows: seq<Named>,
      claims: Claims, policy: Policy, issuedAt: int)
    requires Issuer(provider, r, issuing, steps) && Complete(claims)
    requires Answers(Run(r, steps, policy.ttl + policy.tolerance).keys, rows)
    ensures var overlap := policy.ttl + policy.tolerance;
            var keys, a, b := Run(r, steps, overlap).keys, SigningKid(provider, issuing), EncryptionKid(provider, issuing);
            var token := TokenFrom(provider, issuing, claims, policy, issuedAt);
            && a in keys && b in keys
            && var d := Max(Late(keys[a], issuedAt, overlap), Late(keys[b], issuedAt, overlap));
               (forall now :: now < issuedAt + overlap * 1000 - d ==> VerifyWith(Build(provider, rows), token, policy, now).Accepted?)
               <==> d >= issuedAt % 1000
  {
    hide Build, VerifyWith, Run, Answers, Sound, Spares, TokenFrom, SigningKid, EncryptionKid, GoodFor, CanIssue, Late;
    var overlap := policy.ttl + policy.tolerance;
    var s, token := Build(provider, rows), TokenFrom(provider, issuing, claims, policy, issuedAt);
    var keys, a, b := Run(r, steps, overlap).keys, SigningKid(provider, issuing), EncryptionKid(provider, issuing);
    TokenIsAcceptedExactlyUntil(provider, r, issuing, steps, rows, claims, policy, issuedAt, 0);
    var d, end := Max(Late(keys[a], issuedAt, overlap), Late(keys[b], issuedAt, overlap)), issuedAt + overlap * 1000 - Lost(keys[a], keys[b], issuedAt, overlap);
    forall now ensures VerifyWith(s, token, policy, now).Accepted? <==> now < end {
      TokenIsAcceptedExactlyUntil(provider, r, issuing, steps, rows, claims, policy, issuedAt, now);
    }
    BoundedByEnd(end, issuedAt + overlap * 1000 - d, now => VerifyWith(s, token, policy, now).Accepted?);
  }

  /**
   A token issued at moment i of a run, while its keys are active and no activation of their
   purposes has read the clock yet, or none earlier than the second of the issue, is accepted up to
   its expiry plus the tolerance by every instance that took its snapshot at any moment j since
   the issuing snapshot, before or after the issue, whatever is rotated, unless a key is revoked.
   */
  lemma TokenLivesItsWholeLife(
      provider: KeyProvider, r: Registry, issuing: seq<Named>, steps: seq<Step>, i: nat, j: nat, rows: seq<Named>,
      claims: Claims, policy: Policy, now: int)
    requires Issuer(provider, r, issuing, steps) && Complete(claims) && i <= |steps| && j <= |steps|
    requires var at := Run(r, steps[..i], policy.ttl + policy.tolerance);
             && IsActive(at.keys, TokenSigning, SigningKid(provider, issuing)) && IsActive(at.keys, TokenEncryption, EncryptionKid(provider, issuing))
             && Seconds(at.now) * 1000 <= Since(at, TokenSigning) && Seconds(at.now) * 1000 <= Since(at, TokenEncryption)
             && now < (Seconds(at.now) + policy.ttl + policy.tolerance) * 1000
    requires Answers(Run(r, steps[..j], policy.ttl + policy.tolerance).keys, rows)
    ensures var issuedAt := Run(r, steps[..i], policy.ttl + policy.tolerance).now;
            var v := VerifyWith(Build(provider, rows), TokenFrom(provider, issuing, claims, policy, issuedAt), policy, now);
            v.Accepted? && Carries(v.claims, claims, policy, issuedAt)
  {
    hide Build, VerifyWith, Run, Answers, TokenFrom, SigningKid, EncryptionKid, CanIssue, Sound, IsActive;
    var overlap := policy.ttl + policy.tolerance;
    var a, b := SigningKid(provider, issuing), EncryptionKid(provider, issuing);
    var at, keys := Run(r, steps[..i], overlap), Run(r, steps[..j], overlap).keys;
    assert Issuer(provider, r, issuing, steps[..j]);
    TokenIsAcceptedExactlyUntil(provider, r, issuing, steps[..j], rows, claims, policy, at.now, now);
    IssuerKeysServe(provider, r, issuing, steps[..j], overlap);
    NotLateFor(r, steps, i, j, overlap, a, TokenSigning);
    NotLateFor(r, steps, i, j, overlap, b, TokenEncryption);
    SecondsAndFraction(at.now, overlap);
  }

  /** A token issued at moment i is not late for a key active then, whichever moment j its row is looked at. */
  lemma NotLateFor(r: Registry, steps: seq<Step>, i: nat, j: nat, overlap: int, kid: string, purpose: Purpose)
    requires Sound(r) && i <= |steps| && j <= |steps| && Spares(steps, kid)
    requires IsActive(r.keys, purpose, kid) && IsActive(Run(r, steps[..i], overlap).keys, purpose, kid)
    requires Seconds(Run(r, steps[..i], overlap).now) * 1000 <= Since(Run(r, steps[..i], overlap), purpose)
    ensures var at, keys := Run(r, steps[..i], overlap), Run(r, steps[..j], overlap).keys;
            kid in keys && Late(keys[kid], at.now, overlap) <= at.now % 1000
  {
    hide Run, AtMostOneActive;
    var at, later := Run(r, steps[..i], overlap), Run(r, steps[..j], overlap);
    RunKeepsSound(r, steps[..i], overlap);
    RunKeepsSound(r, steps[..j], overlap);
    if j <= i {
      assert steps[..i] == steps[..j] + steps[j..i];
      RunSplits(r, steps[..j], steps[j..i], overlap);
      RunKeepsSound(later, steps[j..i], overlap);
      assert RowForward(r.keys[kid], later.keys[kid]) && RowForward(later.keys[kid], at.keys[kid]);
      assert RowOk(later.keys[kid]);
    } else {
      assert steps[..j] == steps[..i] + steps[i..j];
      RunSplits(r, steps[..i], steps[i..j], overlap);
      KeyServes(at, steps[i..j], overlap, kid, purpose);
    }
    SecondsAndFraction(at.now, overlap);
  }

  // ---------------------------------------------------------------- two concrete runs

  const SECRET := "0123456789abcdef0123456789abcdef"

  /** A provider whose wrapping does nothing and whose private key is its own public half. */
  function PlainProvider(): KeyProvider {
    KeyProvider("kek", (wrapped, purpose, kid) => Some(wrapped), key => Some(Point("EC", "P-256", key, "")), point => true)
  }

  function SigningRow(kid: string, state: State): KeyRow {
    KeyRow(TokenSigning, ES256, state, Some(kid), "kek", Some(Jwk(Point("EC", "P-256", kid, ""), Some(kid), Some("ES256"), Some("sig"), {})), None, None, None, None, None)
  }

  function SecretRow(): KeyRow {
    KeyRow(TokenEncryption, A256KW, Active, Some(SECRET), "kek", None, None, None, None, None, None)
  }

  /** Signing key "s" and encryption key "e" are active, and "n" waits to replace "s". */
  function ExampleRegistry(now: int): Registry {
    Registry(now, map["s" := SigningRow("s", Active), "e" := SecretRow(), "n" := SigningRow("n", Pending)], None)
  }

  function ExampleRows(): seq<Named> {
    [Named("s", SigningRow("s", Active)), Named("e", SecretRow())]
  }

  /** `activate` reads the clock, takes `toCommit` milliseconds, and commits. */
  function ExampleSteps(toCommit: nat): seq<Step> {
    [ReadClock(TokenSigning, "n"), Wait(toCommit), Commit]
  }

  lemma ExampleLoads()
    ensures var p := PlainProvider();
            && LoadStoredKey(p, "s", SigningRow("s", Active)) == Ok(SigningKey("s", "s", Point("EC", "P-256", "s", ""), SigningRow("s", Active).publicJwk.value))
            && LoadStoredKey(p, "e", SecretRow()) == Ok(EncryptionKey("e", SECRET))
  {
    assert |SECRET| == 32;
    assert {} * PRIVATE_MEMBERS == {};
  }

  lemma ExampleMaterial()
    ensures var p := PlainProvider();
            && CanIssue(p, ExampleRows()) && SigningKid(p, ExampleRows()) == "s" && EncryptionKid(p, ExampleRows()) == "e"
  {
    hide LoadStoredKey, SigningRow, SecretRow;
    var p, rows := PlainProvider(), ExampleRows();
    ExampleLoads();
    ExampleStates();
    assert rows[..1] == [rows[0]] && rows[..1][..0] == [];
    BuildStep(p, rows[..1]);
    BuildStep(p, rows);
    assert Build(p, []) == EMPTY;
    assert "s" != "e" && |SECRET| == 32;
  }

  lemma ExampleStates()
    ensures SigningRow("s", Active).state == Active && SecretRow().state == Active
  {
  }

  lemma ExampleIsSound(now: int)
    ensures Sound(ExampleRegistry(now)) && Answers(ExampleRegistry(now).keys, ExampleRows())
    ensures ActiveKid(ExampleRegistry(now).keys, TokenSigning) == Some("s")
  {
    var keys, rows := ExampleRegistry(now).keys, ExampleRows();
    assert "s" != "e" && "s" != "n" && "e" != "n";
    assert IsActive(keys, TokenSigning, "s");
    assert rows[0].kid == "s" && rows[1].kid == "e";
    forall kid | Offered(keys, kid) ensures Named(kid, keys[kid]) in rows {
      assert kid == "s" || kid == "e";
    }
  }

  /** What the run leaves: "s" ends one overlap after the clock was read, "e" is as it was, and before the commit both are active. */
  lemma ExampleRun(now: int, toCommit: nat, overlap: int)
    ensures var r := ExampleRegistry(now);
            var mid, end := Run(r, ExampleSteps(toCommit)[..2], overlap), Run(r, ExampleSteps(toCommit), overlap);
            && mid.now == now + toCommit && mid.keys == r.keys
            && end.now == now + toCommit && "s" in end.keys && "e" in end.keys
            && end.keys["s"].notAfter == Some(now + overlap * 1000) && end.keys["e"].notAfter == None
  {
    hide Run, Do, ActivateTx;
    var r, steps := ExampleRegistry(now), ExampleSteps(toCommit);
    ExampleIsSound(now);
    assert steps[..2] == [steps[0], steps[1]];
    RunTwo(r, steps[0], steps[1], overlap);
    RunThree(r, steps[0], steps[1], steps[2], overlap);
    ExampleDoes(now, toCommit, overlap);
  }

  lemma ExampleDoes(now: int, toCommit: nat, overlap: int)
    ensures var r := ExampleRegistry(now);
            var mid := Do(Do(r, ReadClock(TokenSigning, "n"), overlap), Wait(toCommit), overlap);
            && mid == Registry(now + toCommit, r.keys, Some(Activation(TokenSigning, "n", now)))
            && var end := Do(mid, Commit, overlap);
               && end.now == mid.now && "s" in end.keys && "e" in end.keys
               && end.keys["s"].notAfter == Some(now + overlap * 1000) && end.keys["e"].notAfter == None
  {
    ExampleIsSound(now);
    assert "s" != "e" && "s" != "n" && "e" != "n";
  }

  /**
   A clock read at 1 s, a token issued at 3 s with both keys still active in the table, the commit
   then: the token is rejected at 906 s, two seconds before its expiry plus the tolerance.
   */
  lemma TokenIssuedBeforeTheCommitDiesEarly(rows: seq<Named>, claims: Claims)
    requires Complete(claims) && Answers(Run(ExampleRegistry(1000), ExampleSteps(2000), 905).keys, rows)
    ensures var p, policy := PlainProvider(), Policy("iss", "aud", 900, 5);
            var mid := Run(ExampleRegistry(1000), ExampleSteps(2000)[..2], 905);
            && mid.now == 3000 && IsActive(mid.keys, TokenSigning, "s") && IsActive(mid.keys, TokenEncryption, "e")
            && CanIssue(p, ExampleRows())
            && 906_000 < (Seconds(3000) + 905) * 1000
            && !VerifyWith(Build(p, rows), TokenFrom(p, ExampleRows(), claims, policy, 3000), policy, 906_000).Accepted?
  {
    ExampleTokenEnds(1000, 2000, rows, claims, 3000, 906_000);
    ExampleActive(1000);
    ExampleRun(1000, 2000, 905);
  }

  /**
   A clock read at 1.998 s and a token issued 1 ms later from the snapshot before it: the token is
   rejected at 906 s, although 905 s less 1 ms after its issue is 906.998 s.
   */
  lemma PlainLateBoundFails(rows: seq<Named>, claims: Claims)
    requires Complete(claims) && Answers(Run(ExampleRegistry(1998), ExampleSteps(0), 905).keys, rows)
    ensures var p, policy := PlainProvider(), Policy("iss", "aud", 900, 5);
            && CanIssue(p, ExampleRows())
            && 906_000 < 1999 + 905_000 - 1
            && !VerifyWith(Build(p, rows), TokenFrom(p, ExampleRows(), claims, policy, 1999), policy, 906_000).Accepted?
  {
    ExampleTokenEnds(1998, 0, rows, claims, 1999, 906_000);
  }

  lemma ExampleActive(now: int)
    ensures IsActive(ExampleRegistry(now).keys, TokenSigning, "s") && IsActive(ExampleRegistry(now).keys, TokenEncryption, "e")
  {
    assert "s" != "e" && "s" != "n" && "e" != "n";
  }

  lemma ExampleTokenEnds(readAt: int, toCommit: nat, rows: seq<Named>, claims: Claims, issuedAt: int, now: int)
    requires Complete(claims) && Answers(Run(ExampleRegistry(readAt), ExampleSteps(toCommit), 905).keys, rows)
    ensures var p, policy := PlainProvider(), Policy("iss", "aud", 900, 5);
            && CanIssue(p, ExampleRows())
            && (VerifyWith(Build(p, rows), TokenFrom(p, ExampleRows(), claims, policy, issuedAt), policy, now).Accepted? <==>
                  now < issuedAt + 905_000 - Max(Max(issuedAt - readAt, 0), issuedAt % 1000))
  {
    hide Run, Build, VerifyWith, TokenFrom, SigningKid, EncryptionKid, CanIssue, Answers, Sound, GoodFor, ExampleRegistry, ExampleRows;
    var p, r, steps := PlainProvider(), ExampleRegistry(readAt), ExampleSteps(toCommit);
    ExampleMaterial();
    ExampleIsSound(readAt);
    ExampleRun(readAt, toCommit, 905);
    assert Issuer(p, r, ExampleRows(), steps);
    TokenIsAcceptedExactlyUntil(p, r, ExampleRows(), steps, rows, claims, Policy("iss", "aud", 900, 5), issuedAt, now);
  }

  /** Once a snapshot has loaded a retirement, it and every later one refuse the key from its end on. */
  lemma NothingResolvesPastItsEnd(provider: KeyProvider, retired: Keys, later: Keys, rows: seq<Named>, kid: string, now: int)
    requires kid in retired && retired[kid].notAfter.Some? && Forward(retired, later) && Answers(later, rows)
    requires now >= retired[kid].notAfter.value
    ensures ResolveSigning(Build(provider, rows), kid, now) == None && ResolveEncryption(Build(provider, rows), kid, now) == None
  {
    hide Build, LoadStoredKey, Answers;
    SnapshotIsExact(provider, later, rows, kid);
    assert RowForward(retired[kid], later[kid]);
  }
}
