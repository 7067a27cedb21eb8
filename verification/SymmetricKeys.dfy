/** Symmetric keys and the byte form that tells their kinds apart by length. */
module SymmetricKeys {
  import opened Wrappers

  datatype CoseAlgorithm = XChaCha20Poly1305 | Aes256Gcm | XAes256Gcm

  datatype KeyOperation = EncryptOp | DecryptOp | WrapKeyOp | UnwrapKeyOp

  datatype SymmetricKey =
    | Aes256CbcKey(encKey: seq<byte>)
    | Aes256CbcHmacKey(composite: seq<byte>)
    | CoseKey(algorithm: CoseAlgorithm, keyId: seq<byte>, encKey: seq<byte>, operations: set<KeyOperation>)
  {
    predicate Sized() {
      match this
      case Aes256CbcKey(k) => |k| == 32
      case Aes256CbcHmacKey(k) => |k| == 64
      case CoseKey(_, id, k, _) => |id| == 16 && |k| == 32
    }

    /** Content can be encrypted with this key. */
    predicate CanEncrypt() {
      match this
      case Aes256CbcKey(_) => false
      case Aes256CbcHmacKey(_) => true
      case CoseKey(a, _, _, ops) => a != Aes256Gcm && EncryptOp in ops
    }
  }

  /** COSE key serialization, with the law that reading undoes writing. */
  datatype CoseCodec = CoseCodec(write: SymmetricKey -> seq<byte>, read: seq<byte> -> Option<SymmetricKey>) {
    ghost predicate Lawful() {
      forall k: SymmetricKey :: k.CoseKey? && k.Sized() ==> read(write(k)) == Some(k)
    }
  }

  // ---------------------------------------------------------------- padding

  function PaddingNeeded(n: nat, minLength: nat): nat {
    if minLength > n then minLength - n else 1
  }

  /** Fills up to a minimum length; every padding byte holds the number of padding bytes. */
  function PadBytes(b: seq<byte>, minLength: nat): Option<seq<byte>> {
    var pad := PaddingNeeded(|b|, minLength);
    if pad > 255 then None else Some(b + seq(pad, i => pad))
  }

  /** Only the last byte is looked at. */
  function UnpadBytes(b: seq<byte>): Option<seq<byte>> {
    if b == [] then None
    else
      var pad := b[|b| - 1];
      if pad == 0 || pad > |b| then None else Some(b[..|b| - pad])
  }

  /** Padding is possible exactly when at most 255 bytes are missing, and then it is undone. */
  lemma {:induction false} UnpadPadded(b: seq<byte>, minLength: nat)
    ensures PadBytes(b, minLength).Some? <==> minLength <= |b| + 255
    ensures PadBytes(b, minLength).Some? ==>
              && UnpadBytes(PadBytes(b, minLength).value) == Some(b)
              && |PadBytes(b, minLength).value| == (if minLength > |b| then minLength else |b| + 1)
              && b <= PadBytes(b, minLength).value
              && forall i :: |b| <= i < |PadBytes(b, minLength).value| ==>
                   PadBytes(b, minLength).value[i] == |PadBytes(b, minLength).value| - |b|
  {
    var pad := PaddingNeeded(|b|, minLength);
    if pad <= 255 {
      var p := b + seq(pad, i => pad);
      assert p[|p| - 1] == pad;
      assert p[..|p| - pad] == b;
    }
  }

  // ---------------------------------------------------------------- encoding

  const AES256_CBC_KEY_LEN: nat := 32
  const AES256_CBC_HMAC_KEY_LEN: nat := 64

  function ToEncoded(cose: CoseCodec, k: SymmetricKey): seq<byte> {
    match k
    case Aes256CbcKey(b) => b
    case Aes256CbcHmacKey(b) => b
    case CoseKey(_, _, _, _) =>
      UnpadPadded(cose.write(k), AES256_CBC_HMAC_KEY_LEN + 1);
      PadBytes(cose.write(k), AES256_CBC_HMAC_KEY_LEN + 1).value
  }

  function FromEncoded(cose: CoseCodec, b: seq<byte>): Option<SymmetricKey> {
    if |b| == AES256_CBC_KEY_LEN then Some(Aes256CbcKey(b))
    else if |b| == AES256_CBC_HMAC_KEY_LEN then Some(Aes256CbcHmacKey(b))
    else if |b| > AES256_CBC_HMAC_KEY_LEN then
      match UnpadBytes(b)
      case Some(key) => cose.read(key)
      case None => None
    else None
  }

  /** Legacy keys are their own bytes; a COSE key is its serialization, then padding. */
  lemma {:induction false} EncodedBytes(cose: CoseCodec, k: SymmetricKey)
    ensures k.Aes256CbcKey? ==> ToEncoded(cose, k) == k.encKey
    ensures k.Aes256CbcHmacKey? ==> ToEncoded(cose, k) == k.composite
    ensures k.CoseKey? ==> cose.write(k) <= ToEncoded(cose, k) && UnpadBytes(ToEncoded(cose, k)) == Some(cose.write(k))
  {
    if k.CoseKey? {
      UnpadPadded(cose.write(k), 65);
    }
  }

  /** The length of the byte form tells the kind of key. */
  lemma {:induction false} EncodedLength(cose: CoseCodec, k: SymmetricKey)
    requires k.Sized()
    ensures k.Aes256CbcKey? <==> |ToEncoded(cose, k)| == 32
    ensures k.Aes256CbcHmacKey? <==> |ToEncoded(cose, k)| == 64
    ensures k.CoseKey? <==> |ToEncoded(cose, k)| >= 65
  {
    if k.CoseKey? {
      UnpadPadded(cose.write(k), 65);
    }
  }

  /** Every key is read back from its byte form. */
  lemma {:induction false} KeyRoundTrip(cose: CoseCodec, k: SymmetricKey)
    requires cose.Lawful() && k.Sized()
    ensures FromEncoded(cose, ToEncoded(cose, k)) == Some(k)
  {
    EncodedLength(cose, k);
    if k.CoseKey? {
      UnpadPadded(cose.write(k), 65);
    }
  }

  /** Which keys encrypt content: the composite key always, and a COSE key of two algorithms when it may. */
  lemma {:induction false} CanEncryptText(k: SymmetricKey)
    ensures k.Aes256CbcKey? || (k.CoseKey? && k.algorithm == Aes256Gcm) ==> !k.CanEncrypt()
    ensures k.Aes256CbcHmacKey? ==> k.CanEncrypt()
    ensures k.CoseKey? && (k.algorithm == XChaCha20Poly1305 || k.algorithm == XAes256Gcm) ==>
              (k.CanEncrypt() <==> EncryptOp in k.operations)
  {
  }
}
