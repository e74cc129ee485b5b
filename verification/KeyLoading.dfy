/**
 Turning a stored `config_keys` row into a key the codec may use
 (packages/crypto/src/key-loading.ts, packages/crypto/src/key-material.ts).

 A provider's unwrap and the public point of a private key are plain partial functions; nothing
 is assumed of them except where a lemma says so.
 */
module KeyLoading {
  import opened Text

  datatype Purpose = TokenSigning | TokenEncryption | OtherPurpose(name: string)

  datatype Algorithm = ES256 | A256KW

  datatype State = Pending | Active | Retiring | Revoked

  /** The key material of a JWK. */
  datatype Point = Point(kty: string, crv: string, x: string, y: string)

  /** A JWK as stored: its material, its metadata, and the names of every other member. */
  datatype Jwk = Jwk(point: Point, kid: Option<string>, alg: Option<string>, use: Option<string>, others: set<string>)

  /** A row of `config_keys`; `kid` is the primary key and is kept outside. Times are milliseconds. */
  datatype KeyRow = KeyRow(
    purpose: Purpose, algorithm: Algorithm, state: State, wrappedKey: Option<string>, kekId: string,
    publicJwk: Option<Jwk>,
    activatedAt: Option<int>, retiringAt: Option<int>, notAfter: Option<int>, revokedAt: Option<int>, revokedReason: Option<string>)

  /** `unwrap` binds the purpose and the kid; `None` is a throw. `publicHalf` derives a PKCS#8 key's point. */
  datatype KeyProvider = KeyProvider(
    id: string,
    unwrap: (string, Purpose, string) -> Option<string>,
    publicHalf: string -> Option<Point>,
    importable: Point -> bool)

  datatype LoadedKey =
    | SigningKey(kid: string, privateKey: string, publicKey: Point, publicJwk: Jwk)
    | EncryptionKey(kid: string, secret: string)

  datatype Reason =
    | NoMaterial | WrongKek | WrongAlgorithm | UnwrapFailed | NotAPrivateKey | NoPublicJwk | NotItsPublicHalf
    | WrongKid | WrongAlg | WrongUse | PrivateMembers | NotImportable | WrongLength | UnknownPurpose

  datatype Result<+T> = Ok(value: T) | Err(reason: Reason)

  const PRIVATE_MEMBERS := {"d", "p", "q", "dp", "dq", "qi", "oth", "k"}
  const ENCRYPTION_KEY_BYTES := 32

  function TrustedPublicJwk(kid: string, stored: Option<Jwk>, derived: Point): Result<Jwk> {
    if stored.None? then Err(NoPublicJwk)
    else
      var jwk := stored.value;
      if jwk.point != derived then Err(NotItsPublicHalf)
      else if jwk.kid != Some(kid) then Err(WrongKid)
      else if jwk.alg.Some? && jwk.alg.value != "ES256" then Err(WrongAlg)
      else if jwk.use.Some? && jwk.use.value != "sig" then Err(WrongUse)
      else if jwk.others * PRIVATE_MEMBERS != {} then Err(PrivateMembers)
      else Ok(Jwk(derived, Some(kid), Some("ES256"), Some("sig"), {}))
  }

  function LoadStoredKey(provider: KeyProvider, kid: string, row: KeyRow): Result<LoadedKey> {
    if row.wrappedKey.None? then Err(NoMaterial)
    else if row.kekId != provider.id then Err(WrongKek)
    else
      match row.purpose
      case TokenSigning =>
        if row.algorithm != ES256 then Err(WrongAlgorithm)
        else
          var material := provider.unwrap(row.wrappedKey.value, row.purpose, kid);
          if material.None? then Err(UnwrapFailed)
          else
            var derived := provider.publicHalf(material.value);
            if derived.None? then Err(NotAPrivateKey)
            else
              var jwk := TrustedPublicJwk(kid, row.publicJwk, derived.value);
              if jwk.Err? then Err(jwk.reason)
              else if !provider.importable(derived.value) then Err(NotImportable)
              else Ok(SigningKey(kid, material.value, derived.value, jwk.value))
      case TokenEncryption =>
        if row.algorithm != A256KW then Err(WrongAlgorithm)
        else
          var secret := provider.unwrap(row.wrappedKey.value, row.purpose, kid);
          if secret.None? then Err(UnwrapFailed)
          else if |secret.value| != ENCRYPTION_KEY_BYTES then Err(WrongLength)
          else Ok(EncryptionKey(kid, secret.value))
      case OtherPurpose(_) => Err(UnknownPurpose)
  }

  function IsKeyUsable(state: State, notAfter: Option<int>, now: int): (usable: bool)
    ensures usable <==> (state.Active? || state.Retiring?) && (notAfter.Some? ==> now < notAfter.value)
  {
    if state == Revoked || state == Pending then false
    else if notAfter.Some? && notAfter.value <= now then false
    else true
  }

  /**
   Whatever is stored in the clear, a key that loads is the one the wrapped material determines:
   rows that agree on the wrapped key load to the same key, if they load. In particular nothing
   written into `public_jwk` can change what verifies or what is published.
   */
  lemma LoadedKeyFollowsWrappedMaterial(provider: KeyProvider, kid: string, row: KeyRow, other: KeyRow)
    requires row.wrappedKey == other.wrappedKey && row.purpose == other.purpose
    requires LoadStoredKey(provider, kid, row).Ok? && LoadStoredKey(provider, kid, other).Ok?
    ensures LoadStoredKey(provider, kid, row) == LoadStoredKey(provider, kid, other)
  {
  }

  /** What a signing row's stored JWK has to say: its own public half and kid, no other use, nothing private. */
  ghost predicate SpeaksFor(jwk: Jwk, point: Point, kid: string) {
    && jwk.point == point && jwk.kid == Some(kid)
    && (jwk.alg.Some? ==> jwk.alg.value == "ES256") && (jwk.use.Some? ==> jwk.use.value == "sig")
    && (forall m :: m in PRIVATE_MEMBERS ==> m !in jwk.others)
  }

  lemma TrustedIffSpeaksFor(kid: string, stored: Option<Jwk>, derived: Point)
    ensures TrustedPublicJwk(kid, stored, derived).Ok? <==> stored.Some? && SpeaksFor(stored.value, derived, kid)
  {
    if stored.Some? {
      var leaked := stored.value.others * PRIVATE_MEMBERS;
      assert forall m :: m in leaked <==> m in stored.value.others && m in PRIVATE_MEMBERS;
      assert leaked != {} ==> exists m :: m in leaked;
    }
  }

  ghost predicate UnwrapsToSpokenFor(provider: KeyProvider, kid: string, wrapped: string, jwk: Jwk) {
    exists key, point ::
      && provider.unwrap(wrapped, TokenSigning, kid) == Some(key) && provider.publicHalf(key) == Some(point)
      && provider.importable(point) && SpeaksFor(jwk, point, kid)
  }

  /** A signing row loads if and only if it unwraps to a private key that its stored JWK speaks for. */
  lemma SigningRowLoadsIff(provider: KeyProvider, kid: string, row: KeyRow)
    requires row.purpose == TokenSigning
    ensures LoadStoredKey(provider, kid, row).Ok? <==>
              && row.wrappedKey.Some? && row.kekId == provider.id && row.algorithm == ES256 && row.publicJwk.Some?
              && UnwrapsToSpokenFor(provider, kid, row.wrappedKey.value, row.publicJwk.value)
  {
    hide TrustedPublicJwk, SpeaksFor;
    forall point ensures TrustedPublicJwk(kid, row.publicJwk, point).Ok? <==> row.publicJwk.Some? && SpeaksFor(row.publicJwk.value, point, kid) {
      TrustedIffSpeaksFor(kid, row.publicJwk, point);
    }
  }

  /** And then it is the unwrapped private key, its own public half, and a JWK made of that and the row's kid. */
  lemma SigningRowLoadsTo(provider: KeyProvider, kid: string, row: KeyRow)
    requires row.purpose == TokenSigning && LoadStoredKey(provider, kid, row).Ok?
    ensures var key := LoadStoredKey(provider, kid, row).value;
            && key.SigningKey? && key.kid == kid
            && provider.unwrap(row.wrappedKey.value, TokenSigning, kid) == Some(key.privateKey)
            && provider.publicHalf(key.privateKey) == Some(key.publicKey)
            && key.publicJwk == Jwk(key.publicKey, Some(kid), Some("ES256"), Some("sig"), {})
  {
  }

  /** An encryption row loads if and only if it unwraps, under its own purpose and kid, to 32 bytes: those. */
  lemma EncryptionRowLoadsIff(provider: KeyProvider, kid: string, row: KeyRow, secret: string)
    requires row.purpose == TokenEncryption
    ensures LoadStoredKey(provider, kid, row) == Ok(EncryptionKey(kid, secret)) <==>
              && row.wrappedKey.Some? && row.kekId == provider.id && row.algorithm == A256KW
              && provider.unwrap(row.wrappedKey.value, TokenEncryption, kid) == Some(secret) && |secret| == 32
    ensures LoadStoredKey(provider, kid, row).Ok? ==>
              exists s :: LoadStoredKey(provider, kid, row) == Ok(EncryptionKey(kid, s))
  {
    if LoadStoredKey(provider, kid, row).Ok? {
      var s := provider.unwrap(row.wrappedKey.value, TokenEncryption, kid).value;
      assert LoadStoredKey(provider, kid, row) == Ok(EncryptionKey(kid, s));
    }
  }

  /** The reason that is logged names the first thing wrong with the row. */
  lemma WhyARowDoesNotLoad(provider: KeyProvider, kid: string, row: KeyRow)
    ensures var loaded := LoadStoredKey(provider, kid, row);
            && (loaded == Err(NoMaterial) <==> row.wrappedKey == None)
            && (loaded == Err(WrongKek) <==> row.wrappedKey != None && row.kekId != provider.id)
            && (row.wrappedKey.Some? && row.kekId == provider.id ==>
                  && (loaded == Err(UnknownPurpose) <==> row.purpose.OtherPurpose?)
                  && (loaded == Err(WrongAlgorithm) <==>
                        (row.purpose == TokenSigning && row.algorithm == A256KW) || (row.purpose == TokenEncryption && row.algorithm == ES256))
                  && (loaded in {Err(WrongLength)} ==> row.purpose == TokenEncryption)
                  && (loaded in {Err(NotAPrivateKey), Err(NoPublicJwk), Err(NotItsPublicHalf), Err(WrongKid), Err(WrongAlg), Err(WrongUse), Err(PrivateMembers), Err(NotImportable)}
                      ==> row.purpose == TokenSigning))
  {
  }

  /** And for a stored public JWK, the first thing that disagrees with the row. */
  lemma WhyAJwkIsNotTrusted(kid: string, stored: Option<Jwk>, derived: Point)
    ensures var trusted := TrustedPublicJwk(kid, stored, derived);
            && (trusted == Err(NoPublicJwk) <==> stored == None)
            && (stored.Some? ==>
                  && (trusted == Err(NotItsPublicHalf) <==> stored.value.point != derived)
                  && (trusted == Err(WrongKid) <==> stored.value.point == derived && stored.value.kid != Some(kid))
                  && (trusted == Err(WrongAlg) ==> stored.value.alg !in {None, Some("ES256")})
                  && (trusted == Err(WrongUse) ==> stored.value.use !in {None, Some("sig")})
                  && (trusted == Err(PrivateMembers) ==> exists m :: m in stored.value.others && m in PRIVATE_MEMBERS))
  {
    if stored.Some? {
      var leaked := stored.value.others * PRIVATE_MEMBERS;
      if leaked != {} {
        var m :| m in leaked;
        assert m in stored.value.others && m in PRIVATE_MEMBERS;
      }
    }
  }

  /** No other row loads. */
  lemma OtherPurposesDoNotLoad(provider: KeyProvider, kid: string, row: KeyRow)
    requires row.purpose.OtherPurpose?
    ensures LoadStoredKey(provider, kid, row).Err?
  {
  }

  /** What may be published of a loaded signing key: its own kid, the one use, and no private member. */
  lemma LoadedSigningKeyIsPublishable(provider: KeyProvider, kid: string, row: KeyRow)
    requires LoadStoredKey(provider, kid, row).Ok? && LoadStoredKey(provider, kid, row).value.SigningKey?
    ensures var key := LoadStoredKey(provider, kid, row).value;
            && key.kid == kid && Some(key.publicKey) == provider.publicHalf(key.privateKey)
            && key.publicJwk == Jwk(key.publicKey, Some(kid), Some("ES256"), Some("sig"), {})
  {
  }
}
