/** Minting an access token's secrets and opening the payload with the parsed token. */
module AccessTokenCrypto {
  import opened Wrappers
  import opened Uuids
  import opened Base64
  import opened EncStrings
  import opened SymmetricKeys
  import opened KeyStores
  import opened AccessTokens

  const DERIVE_NAME: string := "accesstoken"

  datatype AccessTokenError = InvalidPayload | InvalidOrgKey | Crypto(error: CryptoError)

  /** The primitives that are not modelled here: ciphers, key derivation, text encoding, JSON reading. */
  datatype Suite = Suite(
    derive: (Seed, string, string) -> seq<byte>,
    encrypt: (SymmetricKey, seq<byte>, nat) -> EncString,
    decrypt: (SymmetricKey, EncString) -> Option<seq<byte>>,
    utf8: string -> seq<byte>,
    readPayload: seq<byte> -> Option<string>,
    cose: CoseCodec)
  {
    /** Decrypting undoes encrypting, whatever the nonce; a written payload is read back. */
    ghost predicate Lawful() {
      && cose.Lawful()
      && (forall seed, name, info :: |derive(seed, name, info)| == 64)
      && (forall k: SymmetricKey, m, nonce :: k.CanEncrypt() ==>
            && decrypt(k, encrypt(k, m, nonce)) == Some(m)
            && encrypt(k, m, nonce).Sized() && !encrypt(k, m, nonce).Unparseable?)
      && (forall b :: readPayload(utf8(PayloadJson(Encode(BASE64, b)))) == Some(Encode(BASE64, b)))
    }
  }

  /** The payload document, as compact JSON; base64 text needs no escaping. */
  function PayloadJson(keyB64: string): string {
    "{\"encryptionKey\":\"" + keyB64 + "\"}"
  }

  /** The key that a seed stands for, under one purpose. */
  function DeriveKey(suite: Suite, seed: Seed, purpose: string): SymmetricKey {
    Aes256CbcHmacKey(suite.derive(seed, DERIVE_NAME, purpose))
  }

  function KeyText(suite: Suite, k: SymmetricKey): string {
    Encode(BASE64, ToEncoded(suite.cose, k))
  }

  /** Why a key cannot encrypt: its algorithm never does, or it is not allowed to. */
  function EncryptError(k: SymmetricKey): CryptoError
    requires !k.CanEncrypt()
  {
    if k.CoseKey? && k.algorithm != Aes256Gcm then KeyOperationNotSupported else OperationNotSupported
  }

  datatype Secrets = Secrets(encryptedPayload: EncString, key: EncString, seed: Seed, kind: Kind)

  /** The secrets minted for an organization key. */
  function Minted(suite: Suite, orgKey: SymmetricKey, kind: Kind, seed: Seed, n1: nat, n2: nat): Secrets {
    var derived := DeriveKey(suite, seed, Purpose(kind));
    Secrets(suite.encrypt(derived, suite.utf8(PayloadJson(KeyText(suite, orgKey))), n1),
            suite.encrypt(orgKey, suite.utf8(KeyText(suite, derived)), n2),
            seed, kind)
  }

  /** The organization key that an encrypted payload carries for `key`. */
  function OpenedKey(suite: Suite, key: SymmetricKey, encryptedPayload: string): Result<SymmetricKey, AccessTokenError> {
    match suite.decrypt(key, FromStr(encryptedPayload))
    case None => Err(InvalidPayload)
    case Some(decrypted) =>
      match suite.readPayload(decrypted)
      case None => Err(InvalidPayload)
      case Some(keyB64) =>
        match Decode(Standard, keyB64)
        case None => Err(InvalidPayload)
        case Some(keyBytes) =>
          match FromEncoded(suite.cose, keyBytes)
          case None => Err(InvalidOrgKey)
          case Some(k) => Ok(k)
  }

  /** Mints secrets with the organization key in slot `org`; `seed` and the nonces are drawn at random. */
  method MakeAccessTokenSecrets(
    ctx: KeyStoreContext, suite: Suite, org: Slot, kind: Kind, seed: Seed, n1: nat, n2: nat)
    returns (r: Result<Secrets, AccessTokenError>)
    requires ctx.Valid() && (org.Local? ==> org.id < ctx.nextLocal)
    modifies ctx
    ensures ctx.Valid() && ctx.global == old(ctx.global)
    ensures ctx.local == old(ctx.local)[old(ctx.nextLocal) := DeriveKey(suite, seed, Purpose(kind))]
    ensures var orgKey := old(ctx.GetSymmetricKey(org));
            r == if orgKey.None? then Err(Crypto(MissingKeyId))
                 else if !orgKey.value.CanEncrypt() then Err(Crypto(EncryptError(orgKey.value)))
                 else Ok(Minted(suite, orgKey.value, kind, seed, n1, n2))
  {
    var derivedKey := DeriveKey(suite, seed, Purpose(kind));
    var derivedSlot := ctx.AddLocalSymmetricKey(derivedKey);
    var orgKey := ctx.GetSymmetricKey(org);
    if orgKey.None? {
      return Err(Crypto(MissingKeyId));
    }
    var payload := PayloadJson(KeyText(suite, orgKey.value));
    var encryptedPayload := suite.encrypt(derivedKey, suite.utf8(payload), n1);
    if !orgKey.value.CanEncrypt() {
      return Err(Crypto(EncryptError(orgKey.value)));
    }
    var key := suite.encrypt(orgKey.value, suite.utf8(KeyText(suite, derivedKey)), n2);
    r := Ok(Secrets(encryptedPayload, key, seed, kind));
  }

  /** Decrypts the payload and installs the organization key it carries; failure touches no global slot. */
  method OpenPayload(ctx: KeyStoreContext, suite: Suite, key: SymmetricKey, encryptedPayload: string, to: Slot)
    returns (r: Result<(), AccessTokenError>)
    requires ctx.Valid()
    modifies ctx
    ensures ctx.Valid()
    ensures r.Ok? <==> OpenedKey(suite, key, encryptedPayload).Ok? && to.Global? && ctx.writable
    ensures r.Ok? ==>
              && ctx.global == old(ctx.global)[to.id := OpenedKey(suite, key, encryptedPayload).value]
              && ctx.local == old(ctx.local)
    ensures r.Err? ==> ctx.global == old(ctx.global)
    ensures r.Err? ==> forall i :: i in old(ctx.local) ==> i in ctx.local && ctx.local[i] == old(ctx.local)[i]
    ensures OpenedKey(suite, key, encryptedPayload).Err? ==>
              r == Err(OpenedKey(suite, key, encryptedPayload).error) && ctx.local == old(ctx.local)
  {
    var enc := FromStr(encryptedPayload);
    var decrypted := suite.decrypt(key, enc);
    if decrypted.None? {
      return Err(InvalidPayload);
    }
    var keyB64 := suite.readPayload(decrypted.value);
    if keyB64.None? {
      return Err(InvalidPayload);
    }
    var keyBytes := Decode(Standard, keyB64.value);
    if keyBytes.None? {
      return Err(InvalidPayload);
    }
    var k := FromEncoded(suite.cose, keyBytes.value);
    if k.None? {
      return Err(InvalidOrgKey);
    }
    var slot := ctx.AddLocalSymmetricKey(k.value);
    assert ctx.local - {slot.id} == old(ctx.local);
    var persisted := ctx.PersistSymmetricKey(slot, to);
    if persisted.Err? {
      return Err(Crypto(persisted.error));
    }
    return Ok(());
  }

  /** The key derivation a token parser uses. */
  function Derivation(suite: Suite): (Seed, string) -> SymmetricKey {
    (seed: Seed, purpose: string) => DeriveKey(suite, seed, purpose)
  }

  /** Mint, print, parse and open give back the organization key. */
  lemma {:induction false} MintParseOpen(
    suite: Suite, orgKey: SymmetricKey, kind: Kind, id: Uuid, secret: string, seed: Seed, n1: nat, n2: nat)
    requires suite.Lawful() && orgKey.Sized() && orgKey.CanEncrypt()
    requires '.' !in secret && ':' !in secret
    ensures var minted := Minted(suite, orgKey, kind, seed, n1, n2);
            var parsed := AccessTokens.Parse(Derivation(suite), IntoToken(kind, id, secret, seed), kind);
            && parsed.Ok?
            && OpenedKey(suite, parsed.value.key, EncStrings.ToString(minted.encryptedPayload)) == Ok(orgKey)
            && suite.decrypt(orgKey, minted.key) == Some(suite.utf8(KeyText(suite, parsed.value.key)))
  {
    var minted := Minted(suite, orgKey, kind, seed, n1, n2);
    ParseAssembled(Derivation(suite), kind, id, secret, seed);
    var derived := DeriveKey(suite, seed, Purpose(kind));
    var payload := minted.encryptedPayload;
    ParsePrinted(payload);
    assert FromStr(EncStrings.ToString(payload)) == payload;
    DecodeEncode(BASE64, ToEncoded(suite.cose, orgKey));
    KeyRoundTrip(suite.cose, orgKey);
  }

  /** An issuer mints a token, a holder parses it and opens the payload into its own store. */
  method IssueAndOpen(
    issuer: KeyStoreContext, holder: KeyStoreContext, suite: Suite, org: Slot, to: Slot,
    kind: Kind, id: Uuid, secret: string, seed: Seed, n1: nat, n2: nat)
    returns (r: Result<(), AccessTokenError>)
    requires issuer != holder && issuer.Valid() && holder.Valid() && suite.Lawful()
    requires org.Global? && org.id in issuer.global
    requires issuer.global[org.id].Sized() && issuer.global[org.id].CanEncrypt()
    requires to.Global? && holder.writable
    requires '.' !in secret && ':' !in secret
    modifies issuer, holder
    ensures r.Ok? && issuer.global == old(issuer.global)
    ensures holder.global == old(holder.global)[to.id := old(issuer.global)[org.id]]
    ensures holder.local == old(holder.local)
  {
    MintParseOpen(suite, issuer.global[org.id], kind, id, secret, seed, n1, n2);
    var secrets := MakeAccessTokenSecrets(issuer, suite, org, kind, seed, n1, n2);
    var text := EncStrings.ToString(secrets.value.encryptedPayload);
    var token := AccessTokens.Parse(Derivation(suite), IntoToken(secrets.value.kind, id, secret, secrets.value.seed), kind);
    r := OpenPayload(holder, suite, token.value.key, text, to);
  }

  /** The minted secrets, written out: what is encrypted, and under which key. */
  lemma {:induction false} MintedText(suite: Suite, orgKey: SymmetricKey, kind: Kind, seed: Seed, n1: nat, n2: nat)
    ensures var info := if kind.AccessConnector? then "access-connector" else "sm-access-token";
            var derived := Aes256CbcHmacKey(suite.derive(seed, "accesstoken", info));
            var minted := Minted(suite, orgKey, kind, seed, n1, n2);
            && minted.encryptedPayload ==
               suite.encrypt(derived, suite.utf8("{\"encryptionKey\":\"" + Encode(BASE64, ToEncoded(suite.cose, orgKey)) + "\"}"), n1)
            && minted.key == suite.encrypt(orgKey, suite.utf8(Encode(BASE64, suite.derive(seed, "accesstoken", info))), n2)
            && minted.seed == seed && minted.kind == kind
  {
  }

  /** Why a payload does not open, and why an organization key cannot mint. */
  lemma {:induction false} CryptoErrors(suite: Suite, key: SymmetricKey, text: string)
    ensures suite.decrypt(key, FromStr(text)).None? ==> OpenedKey(suite, key, text) == Err(InvalidPayload)
    ensures suite.decrypt(key, FromStr(text)).Some? ==>
              var read := suite.readPayload(suite.decrypt(key, FromStr(text)).value);
              && (read.None? || Decode(Standard, read.value).None? ==> OpenedKey(suite, key, text) == Err(InvalidPayload))
              && (read.Some? && Decode(Standard, read.value).Some? ==>
                    var org := FromEncoded(suite.cose, Decode(Standard, read.value).value);
                    OpenedKey(suite, key, text) == if org.Some? then Ok(org.value) else Err(InvalidOrgKey))
    ensures !key.CanEncrypt() ==>
              (EncryptError(key) == KeyOperationNotSupported <==>
               key.CoseKey? && (key.algorithm == XChaCha20Poly1305 || key.algorithm == XAes256Gcm))
    ensures !key.CanEncrypt() ==> EncryptError(key) in {KeyOperationNotSupported, OperationNotSupported}
  {
  }

  // ---------------------------------------------------------------- the laws can be met

  function Flag(op: KeyOperation, ops: set<KeyOperation>): byte {
    if op in ops then 1 else 0
  }

  function WriteCose(k: SymmetricKey): seq<byte> {
    match k
    case CoseKey(a, id, key, ops) =>
      [match a case XChaCha20Poly1305 => 0 case Aes256Gcm => 1 case XAes256Gcm => 2]
      + [Flag(EncryptOp, ops), Flag(DecryptOp, ops), Flag(WrapKeyOp, ops), Flag(UnwrapKeyOp, ops)] + id + key
    case _ => []
  }

  function ReadCose(b: seq<byte>): Option<SymmetricKey> {
    if |b| != 53 then None
    else
      Some(CoseKey(if b[0] == 0 then XChaCha20Poly1305 else if b[0] == 1 then Aes256Gcm else XAes256Gcm,
                   b[5..21], b[21..],
                   (if b[1] == 1 then {EncryptOp} else {}) + (if b[2] == 1 then {DecryptOp} else {})
                   + (if b[3] == 1 then {WrapKeyOp} else {}) + (if b[4] == 1 then {UnwrapKeyOp} else {})))
  }

  function LowBytes(s: string): seq<byte> {
    seq(|s|, i requires 0 <= i < |s| => s[i] as int % 256)
  }

  /** The text between the fixed parts of the payload document. */
  function ReadBetween(b: seq<byte>): Option<string> {
    if |b| < 20 then None else Some(seq(|b| - 20, i requires 0 <= i < |b| - 20 => (b[18 + i] as int) as char))
  }

  lemma {:induction false} ReadWritten(k: SymmetricKey)
    requires k.CoseKey? && k.Sized()
    ensures ReadCose(WriteCose(k)) == Some(k)
  {
    var b := WriteCose(k);
    assert b[5..21] == k.keyId && b[21..] == k.encKey;
    assert ReadCose(b).value.operations == k.operations by {
      forall op ensures op in ReadCose(b).value.operations <==> op in k.operations {
        match op
        case EncryptOp =>
        case DecryptOp =>
        case WrapKeyOp =>
        case UnwrapKeyOp =>
      }
    }
  }

  lemma {:induction false} ReadPayloadText(t: string)
    requires forall i :: 0 <= i < |t| ==> t[i] as int < 256
    ensures ReadBetween(LowBytes(PayloadJson(t))) == Some(t)
  {
    var bytes := LowBytes(PayloadJson(t));
    var read := ReadBetween(bytes).value;
    assert |read| == |t|;
    forall i | 0 <= i < |t| ensures read[i] == t[i] {
      assert PayloadJson(t)[18 + i] == t[i];
    }
    assert read == t;
  }

  lemma {:induction false} EncodedLow(b: seq<byte>, i: nat)
    requires i < |Encode(BASE64, b)|
    ensures Encode(BASE64, b)[i] as int < 256
  {
  }

  /** A suite with all the laws exists, so what is proved from them is not empty. */
  lemma {:induction false} LawfulSuiteExists() returns (suite: Suite)
    ensures suite.Lawful()
  {
    suite := Suite(
      (seed: Seed, name: string, info: string) => seq(64, i => 0),
      (k: SymmetricKey, m: seq<byte>, nonce: nat) => CoseEncrypt0(m),
      (k: SymmetricKey, e: EncString) => if e.CoseEncrypt0? then Some(e.data) else None,
      LowBytes, ReadBetween, CoseCodec(WriteCose, ReadCose));
    forall k: SymmetricKey | k.CoseKey? && k.Sized() ensures suite.cose.read(suite.cose.write(k)) == Some(k) {
      ReadWritten(k);
    }
    forall b ensures suite.readPayload(suite.utf8(PayloadJson(Encode(BASE64, b)))) == Some(Encode(BASE64, b)) {
      forall i | 0 <= i < |Encode(BASE64, b)| ensures Encode(BASE64, b)[i] as int < 256 {
        EncodedLow(b, i);
      }
      ReadPayloadText(Encode(BASE64, b));
    }
  }
}
