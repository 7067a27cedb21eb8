/** Passkeys and the stored credential views they are kept in. */
module Fido {
  import opened Wrappers
  import opened Uuids
  import opened Base64
  import opened Decimals

  /** The credential extension a passkey may carry. */
  datatype StoredHmacSecret = StoredHmacSecret(credWithUv: seq<byte>, credWithoutUv: Option<seq<byte>>)

  datatype Passkey<K> = Passkey(
    key: K, credentialId: seq<byte>, rpId: string, userHandle: Option<seq<byte>>, counter: Option<nat>,
    hmacSecret: Option<StoredHmacSecret>)
  {
    /** The counter is a 32-bit number. */
    predicate Sized() { counter.Some? ==> counter.value <= U32_MAX }
  }

  /** What a credential view contributes beside the passkey. */
  datatype CredentialView =
    CredentialView(rpName: Option<string>, userName: Option<string>, userDisplayName: Option<string>, creationDate: int)

  datatype CredentialFullView = CredentialFullView(
    credentialId: string, keyType: string, keyAlgorithm: string, keyCurve: string, keyValue: string,
    rpId: string, rpName: Option<string>, userHandle: Option<string>, counter: string,
    userName: Option<string>, userDisplayName: Option<string>, discoverable: string, creationDate: int)

  datatype FillError = InvalidInputLength | CoseKeyToPkcs8

  datatype FidoError = InvalidCounter | NotB64Url | PrivateKeyFromSecretKey | InvalidGuid

  /** Key serialization, which reads back a key or some other one. */
  datatype KeyCodec<!K> = KeyCodec(toPkcs8: K -> Option<seq<byte>>, fromPkcs8: seq<byte> -> Option<K>)

  /** The conversion reads back this key exactly. */
  predicate ReadsBack<K(==)>(codec: KeyCodec<K>, k: K) {
    codec.toPkcs8(k).Some? && codec.fromPkcs8(codec.toPkcs8(k).value) == Some(k)
  }

  function B64Url(b: seq<byte>): string {
    Encode(BASE64URL_NOPAD, b)
  }

  function GuidBytesToString(source: seq<byte>): Option<string> {
    if |source| != 16 then None else Some(Format(source))
  }

  /** Drops every leading occurrence of `p`. */
  function TrimStart(s: string, p: string): string
    requires p != ""
    decreases |s|
  {
    if p <= s then TrimStart(s[|p|..], p) else s
  }

  function StringToGuidBytes(source: string): Option<seq<byte>> {
    if "b64." <= source then Decode(UrlSafe, TrimStart(source, "b64."))
    else
      match Parse(source)
      case Some(u) => Some(u)
      case None => None
  }

  function FillWithCredential<K>(codec: KeyCodec<K>, view: CredentialView, value: Passkey<K>): Result<CredentialFullView, FillError> {
    var userHandle := if value.userHandle.Some? then Some(B64Url(value.userHandle.value)) else None;
    match codec.toPkcs8(value.key)
    case None => Err(CoseKeyToPkcs8)
    case Some(pkcs8) =>
      match GuidBytesToString(value.credentialId)
      case None => Err(InvalidInputLength)
      case Some(credentialId) =>
        Ok(CredentialFullView(
             credentialId, "public-key", "ECDSA", "P-256", B64Url(pkcs8), value.rpId, view.rpName, userHandle,
             ToDecimal(if value.counter.Some? then value.counter.value else 0),
             view.userName, view.userDisplayName, "true", view.creationDate))
  }

  /** Decodes an optional handle; the outer result tells whether that worked. */
  function DecodeHandle(h: Option<string>): Option<Option<seq<byte>>> {
    match h
    case None => Some(None)
    case Some(text) =>
      match Decode(UrlSafe, text)
      case None => None
      case Some(b) => Some(Some(b))
  }

  function TryFromCredentialFullView<K>(codec: KeyCodec<K>, value: CredentialFullView): Result<Passkey<K>, FidoError> {
    match ParseU32(value.counter)
    case None => Err(InvalidCounter)
    case Some(counter) =>
      match Decode(UrlSafe, value.keyValue)
      case None => Err(NotB64Url)
      case Some(keyBytes) =>
        match DecodeHandle(value.userHandle)
        case None => Err(NotB64Url)
        case Some(userHandle) =>
          match codec.fromPkcs8(keyBytes)
          case None => Err(PrivateKeyFromSecretKey)
          case Some(key) =>
            match StringToGuidBytes(value.credentialId)
            case None => Err(InvalidGuid)
            case Some(id) =>
              Ok(Passkey(key, id, value.rpId, userHandle, if counter != 0 then Some(counter) else None, None))
  }

  /** UUID text is never taken for the base64 form, and it is read back. */
  lemma {:induction false} GuidRoundTrip(source: seq<byte>)
    ensures GuidBytesToString(source).Some? <==> |source| == 16
    ensures |source| == 16 ==> StringToGuidBytes(GuidBytesToString(source).value) == Some(source)
  {
    if |source| == 16 {
      FormatCharacters(source, '.');
      ParseFormat(source);
      var text := Format(source);
      assert text[3] in text && "b64."[3] == '.';
    }
  }

  lemma {:induction false} HandleRoundTrip(h: Option<seq<byte>>)
    ensures DecodeHandle(if h.Some? then Some(B64Url(h.value)) else None) == Some(h)
  {
    if h.Some? {
      DecodeEncode(BASE64URL_NOPAD, h.value);
    }
  }

  /** A passkey can be stored exactly when its key can be written and its id has 16 bytes; then it is read back
      with the key the conversion gives, a zero counter read as none, and without its hmac secret. */
  lemma {:induction false} PasskeyRoundTrip<K>(codec: KeyCodec<K>, view: CredentialView, p: Passkey<K>)
    requires p.Sized()
    ensures FillWithCredential(codec, view, p).Ok? <==> codec.toPkcs8(p.key).Some? && |p.credentialId| == 16
    ensures FillWithCredential(codec, view, p).Ok? ==>
              TryFromCredentialFullView(codec, FillWithCredential(codec, view, p).value) ==
              match codec.fromPkcs8(codec.toPkcs8(p.key).value)
              case None => Err(PrivateKeyFromSecretKey)
              case Some(k) => Ok(p.(key := k, counter := if p.counter == Some(0) then None else p.counter, hmacSecret := None))
  {
    GuidRoundTrip(p.credentialId);
    HandleRoundTrip(p.userHandle);
    ParseToDecimal(if p.counter.Some? then p.counter.value else 0);
    if codec.toPkcs8(p.key).Some? {
      DecodeEncode(BASE64URL_NOPAD, codec.toPkcs8(p.key).value);
    }
  }

  /** Storing and reading give back the same passkey exactly when its key is read back, its counter is not an
      explicit zero and it carries no hmac secret. */
  lemma {:induction false} PasskeyUnchangedIff<K>(codec: KeyCodec<K>, view: CredentialView, p: Passkey<K>)
    requires p.Sized() && FillWithCredential(codec, view, p).Ok?
    ensures TryFromCredentialFullView(codec, FillWithCredential(codec, view, p).value) == Ok(p) <==>
            ReadsBack(codec, p.key) && p.counter != Some(0) && p.hmacSecret.None?
  {
    PasskeyRoundTrip(codec, view, p);
  }

  /** Passkeys that differ only in what is not stored give the same stored credential. */
  lemma {:induction false} UnstoredPartsLost<K>(codec: KeyCodec<K>, view: CredentialView, p: Passkey<K>, secret: StoredHmacSecret)
    requires FillWithCredential(codec, view, p).Ok? && ReadsBack(codec, p.key)
    ensures var kept, zero := p.(counter := None, hmacSecret := None), p.(counter := Some(0), hmacSecret := None);
            var secretive := p.(counter := None, hmacSecret := Some(secret));
            && FillWithCredential(codec, view, secretive) == FillWithCredential(codec, view, kept)
            && FillWithCredential(codec, view, zero) == FillWithCredential(codec, view, kept)
            && FillWithCredential(codec, view, kept).Ok?
            && TryFromCredentialFullView(codec, FillWithCredential(codec, view, kept).value) == Ok(kept)
            && kept != secretive && kept != zero
  {
    PasskeyRoundTrip(codec, view, p.(counter := None, hmacSecret := None));
  }

  lemma {:induction false} ReadSized<K>(codec: KeyCodec<K>, v: CredentialFullView)
    requires TryFromCredentialFullView(codec, v).Ok?
    ensures TryFromCredentialFullView(codec, v).value.Sized()
    ensures TryFromCredentialFullView(codec, v).value.counter != Some(0)
    ensures TryFromCredentialFullView(codec, v).value.hmacSecret.None?
  {
  }

  /** A stored credential whose key the conversion reads back reads as the same passkey from then on. */
  lemma {:induction false} StoredCredentialStable<K>(codec: KeyCodec<K>, view: CredentialView, v: CredentialFullView)
    requires TryFromCredentialFullView(codec, v).Ok?
    ensures var p := TryFromCredentialFullView(codec, v).value;
            ReadsBack(codec, p.key) && FillWithCredential(codec, view, p).Ok? ==>
            TryFromCredentialFullView(codec, FillWithCredential(codec, view, p).value) == Ok(p)
  {
    ReadSized(codec, v);
    PasskeyRoundTrip(codec, view, TryFromCredentialFullView(codec, v).value);
  }

  /** Repeating the base64 marker changes nothing: all of them are dropped. */
  lemma {:induction false} MarkerRepeats(s: string)
    requires "b64." <= s
    ensures StringToGuidBytes("b64." + s) == StringToGuidBytes(s)
  {
    assert ("b64." + s)[|"b64."|..] == s;
  }

  /** What is stored of a passkey and a view, field by field. */
  lemma {:induction false} StoredFields<K>(codec: KeyCodec<K>, view: CredentialView, p: Passkey<K>)
    requires FillWithCredential(codec, view, p).Ok?
    ensures var v := FillWithCredential(codec, view, p).value;
            && v.rpName == view.rpName && v.userName == view.userName && v.userDisplayName == view.userDisplayName
            && v.creationDate == view.creationDate && v.rpId == p.rpId
            && v.keyType == "public-key" && v.keyAlgorithm == "ECDSA" && v.keyCurve == "P-256" && v.discoverable == "true"
            && Some(v.credentialId) == GuidBytesToString(p.credentialId)
            && Decode(UrlSafe, v.keyValue) == codec.toPkcs8(p.key) && '=' !in v.keyValue
            && (v.userHandle.Some? <==> p.userHandle.Some?)
            && (v.userHandle.Some? ==> Decode(UrlSafe, v.userHandle.value) == p.userHandle && '=' !in v.userHandle.value)
            && FromDigits(v.counter) == if p.counter.Some? then p.counter.value else 0
  {
    DecodeEncode(BASE64URL_NOPAD, codec.toPkcs8(p.key).value);
    UrlTextUnpadded(codec.toPkcs8(p.key).value);
    if p.userHandle.Some? {
      DecodeEncode(BASE64URL_NOPAD, p.userHandle.value);
      UrlTextUnpadded(p.userHandle.value);
    }
    FromToDecimal(if p.counter.Some? then p.counter.value else 0);
  }

  /** Why a passkey cannot be stored: its key first, then its id. */
  lemma {:induction false} FillErrors<K>(codec: KeyCodec<K>, view: CredentialView, p: Passkey<K>)
    ensures codec.toPkcs8(p.key).None? ==> FillWithCredential(codec, view, p) == Err(CoseKeyToPkcs8)
    ensures codec.toPkcs8(p.key).Some? && |p.credentialId| != 16 ==>
              FillWithCredential(codec, view, p) == Err(InvalidInputLength)
  {
  }

  /** Bytes of any length that were stored under the base64 marker are read back. */
  lemma {:induction false} MarkedBytesRead(b: seq<byte>)
    ensures StringToGuidBytes("b64." + Encode(BASE64URL_NOPAD, b)) == Some(b)
  {
    var t := Encode(BASE64URL_NOPAD, b);
    var s := "b64." + t;
    assert "b64." <= s && s[|"b64."|..] == t;
    EncodeCharacters(BASE64URL_NOPAD, b, '.');
    assert !("b64." <= t) by {
      assert "b64."[3] == '.';
      assert |t| >= 4 ==> t[3] in t;
    }
    assert TrimStart(s, "b64.") == TrimStart(t, "b64.") == t;
    DecodeEncode(BASE64URL_NOPAD, b);
  }

  /** Why a stored credential cannot be read: counter, texts, key and id, in this order. */
  lemma {:induction false} ReadErrors<K>(codec: KeyCodec<K>, v: CredentialFullView)
    ensures ParseU32(v.counter).None? ==> TryFromCredentialFullView(codec, v) == Err(InvalidCounter)
    ensures ParseU32(v.counter).Some? ==>
              var key := Decode(UrlSafe, v.keyValue);
              var badHandle := v.userHandle.Some? && Decode(UrlSafe, v.userHandle.value).None?;
              && (key.None? || badHandle ==> TryFromCredentialFullView(codec, v) == Err(NotB64Url))
              && (key.Some? && !badHandle && codec.fromPkcs8(key.value).None? ==>
                    TryFromCredentialFullView(codec, v) == Err(PrivateKeyFromSecretKey))
              && (key.Some? && !badHandle && codec.fromPkcs8(key.value).Some? && StringToGuidBytes(v.credentialId).None? ==>
                    TryFromCredentialFullView(codec, v) == Err(InvalidGuid))
  {
  }
}
