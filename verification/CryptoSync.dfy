/** Key management work on every sync: what is stored, and which syncs are refused. */
module CryptoSync {
  import opened Wrappers

  datatype Kdf = Pbkdf2(iterations: nat) | Argon2id(iterations: nat, memory: nat, parallelism: nat)

  datatype UnlockData = UnlockData(kdf: Kdf, wrappedUserKey: string, salt: string)

  datatype PrfOption = PrfOption(wrappedPrivateKey: string, wrappedUserKey: string)

  datatype UpgradeToken = UpgradeToken(wrappedUserKey1: string, wrappedUserKey2: string)

  datatype AccountState =
    | V1(privateKey: string)
    | V2(privateKey: string, signedPublicKey: string, signingKey: string, securityState: string)

  /** The user key held in memory or in client state, by its algorithm. */
  datatype UserKey = V1Key(bytes: seq<byte>) | V2Key(bytes: seq<byte>) | OtherKey(bytes: seq<byte>)

  datatype UserDecryption = UserDecryption(
    masterPasswordUnlock: Option<UnlockData>, v2UpgradeToken: Option<UpgradeToken>,
    webAuthnPrfOptions: Option<seq<PrfOption>>, userKeyId: Option<string>)

  datatype SyncData = SyncData(userDecryption: Option<UserDecryption>, accountState: Option<AccountState>)

  /** Which bindings the client is built for. */
  datatype Features = Plain | Uniffi | Wasm

  /** Unwrapping a token's V2 key with a V1 key, and checking a V2 state against a V2 key. */
  datatype Crypto = Crypto(unwrapV2: (UpgradeToken, seq<byte>) -> Option<seq<byte>>, opens: (AccountState, seq<byte>) -> bool)

  /** Everything the sync work can write. */
  datatype Stored = Stored(
    unlockData: Option<UnlockData>, kdf: Option<Kdf>, upgradeToken: Option<UpgradeToken>,
    prf: Option<seq<PrfOption>>, userKeyId: Option<string>, account: Option<AccountState>,
    storedUserKey: Option<UserKey>, memoryKey: Option<UserKey>)

  // ---------------------------------------------------------------- specification

  predicate IsDowngrade(local: AccountState, incoming: AccountState) {
    local.V2? && incoming.V1?
  }

  /** The sync would take a stored V2 account back to V1. */
  predicate Refused(s: Stored, d: SyncData) {
    d.accountState.Some? && s.account.Some? && IsDowngrade(s.account.value, d.accountState.value)
  }

  function WithDecryption(s: Stored, d: SyncData): Stored {
    match d.userDecryption
    case None => s
    case Some(u) =>
      s.(unlockData := u.masterPasswordUnlock,
         kdf := if u.masterPasswordUnlock.Some? then Some(u.masterPasswordUnlock.value.kdf) else s.kdf,
         upgradeToken := u.v2UpgradeToken,
         prf := if u.webAuthnPrfOptions.Some? && u.webAuthnPrfOptions.value != [] then u.webAuthnPrfOptions else None,
         userKeyId := u.userKeyId)
  }

  function WithAccount(s: Stored, d: SyncData): Stored {
    match d.accountState
    case None => s
    case Some(a) => s.(account := Some(a))
  }

  /** The V2 key an unlocked V1 client moves to, if the sync brings a usable token and V2 state. */
  function UpgradedKey(c: Crypto, s: Stored, d: SyncData): Option<UserKey> {
    if d.accountState.Some? && d.accountState.value.V2?
       && d.userDecryption.Some? && d.userDecryption.value.v2UpgradeToken.Some?
       && s.memoryKey.Some? && s.memoryKey.value.V1Key?
    then
      match c.unwrapV2(d.userDecryption.value.v2UpgradeToken.value, s.memoryKey.value.bytes)
      case None => None
      case Some(k) => if c.opens(d.accountState.value, k) then Some(V2Key(k)) else None
    else None
  }

  function WithUpgrade(f: Features, c: Crypto, s: Stored, d: SyncData): Stored {
    if f.Plain? || UpgradedKey(c, s, d).None? then s
    else
      var k := UpgradedKey(c, s, d);
      s.(memoryKey := k,
         upgradeToken := d.userDecryption.value.v2UpgradeToken,
         storedUserKey := if f.Wasm? then k else s.storedUserKey)
  }

  /** One sync on a client with a registered bridge. */
  function Step(f: Features, c: Crypto, s: Stored, d: SyncData): Stored {
    if Refused(s, d) then s else WithUpgrade(f, c, WithAccount(WithDecryption(s, d), d), d)
  }

  // ---------------------------------------------------------------- the handlers

  class Client {
    const features: Features
    const crypto: Crypto
    const bridgeRegistered: bool
    var unlockData: Option<UnlockData>
    var kdf: Option<Kdf>
    var upgradeToken: Option<UpgradeToken>
    var prf: Option<seq<PrfOption>>
    var userKeyId: Option<string>
    var account: Option<AccountState>
    var storedUserKey: Option<UserKey>
    var memoryKey: Option<UserKey>

    constructor (features: Features, crypto: Crypto, bridgeRegistered: bool, s: Stored)
      ensures this.features == features && this.crypto == crypto && this.bridgeRegistered == bridgeRegistered
      ensures State() == s
    {
      this.features, this.crypto, this.bridgeRegistered := features, crypto, bridgeRegistered;
      unlockData, kdf, upgradeToken, prf := s.unlockData, s.kdf, s.upgradeToken, s.prf;
      userKeyId, account, storedUserKey, memoryKey := s.userKeyId, s.account, s.storedUserKey, s.memoryKey;
    }

    function State(): Stored
      reads this
    {
      Stored(unlockData, kdf, upgradeToken, prf, userKeyId, account, storedUserKey, memoryKey)
    }

    method HandleUserDecryptionOptions(d: SyncData)
      modifies this
      ensures State() == if bridgeRegistered then WithDecryption(old(State()), d) else old(State())
    {
      if d.userDecryption.None? || !bridgeRegistered {
        return;
      }
      var u := d.userDecryption.value;
      if u.masterPasswordUnlock.Some? {
        unlockData := u.masterPasswordUnlock;
        kdf := Some(u.masterPasswordUnlock.value.kdf);
      } else {
        unlockData := None;
      }
      upgradeToken := u.v2UpgradeToken;
      if u.webAuthnPrfOptions.Some? && u.webAuthnPrfOptions.value != [] {
        prf := u.webAuthnPrfOptions;
      } else {
        prf := None;
      }
      userKeyId := u.userKeyId;
    }

    method HandleAccountCryptographicState(d: SyncData)
      modifies this
      ensures State() == if bridgeRegistered then WithAccount(old(State()), d) else old(State())
    {
      if d.accountState.Some? && bridgeRegistered {
        account := d.accountState;
      }
    }

    /** Swaps an unlocked client's V1 key for the V2 key of the token; every failure leaves things as they are. */
    method HandleV2Upgrade(d: SyncData)
      modifies this
      ensures State() == if bridgeRegistered then WithUpgrade(features, crypto, old(State()), d) else old(State())
    {
      if features.Plain? || d.accountState.None? || d.userDecryption.None? {
        return;
      }
      var token := d.userDecryption.value.v2UpgradeToken;
      if token.None? || !d.accountState.value.V2? || !bridgeRegistered || memoryKey.None? {
        return;
      }
      if !memoryKey.value.V1Key? {
        return;
      }
      var v2 := crypto.unwrapV2(token.value, memoryKey.value.bytes);
      if v2.None? || !crypto.opens(d.accountState.value, v2.value) {
        return;
      }
      memoryKey := Some(V2Key(v2.value));
      upgradeToken := token;
      if features.Wasm? && storedUserKey != memoryKey {
        storedUserKey := memoryKey;
      }
    }

    /** Runs the work of one sync; `completed` is false where reading from a missing bridge panics. */
    method HandleCryptoSync(d: SyncData) returns (completed: bool)
      modifies this
      ensures completed <==> bridgeRegistered || d.accountState.None?
      ensures State() == if bridgeRegistered then Step(features, crypto, old(State()), d) else old(State())
    {
      if d.accountState.Some? {
        if !bridgeRegistered {
          return false;
        }
        if account.Some? && IsDowngrade(account.value, d.accountState.value) {
          return true;
        }
      }
      HandleUserDecryptionOptions(d);
      HandleAccountCryptographicState(d);
      HandleV2Upgrade(d);
      completed := true;
    }

    /** Any number of syncs, one after the other. */
    method HandleSyncs(ds: seq<SyncData>)
      requires bridgeRegistered
      modifies this
      ensures State() == Run(features, crypto, old(State()), ds)
    {
      for i := 0 to |ds|
        invariant Run(features, crypto, State(), ds[i..]) == Run(features, crypto, old(State()), ds)
      {
        assert ds[i..][1..] == ds[i + 1..];
        var completed := HandleCryptoSync(ds[i]);
      }
    }
  }

  // ---------------------------------------------------------------- whole runs

  function Run(f: Features, c: Crypto, s: Stored, ds: seq<SyncData>): Stored
    decreases ds
  {
    if ds == [] then s else Run(f, c, Step(f, c, s, ds[0]), ds[1..])
  }

  /** The syncs of a run that were not refused when their turn came. */
  function Accepted(f: Features, c: Crypto, s: Stored, ds: seq<SyncData>): seq<SyncData>
    decreases ds
  {
    if ds == [] then []
    else (if Refused(s, ds[0]) then [] else [ds[0]]) + Accepted(f, c, Step(f, c, s, ds[0]), ds[1..])
  }

  /** A stored V2 account stays V2, whatever the server sends. */
  lemma {:induction false} V2Stays(f: Features, c: Crypto, s: Stored, ds: seq<SyncData>)
    requires s.account.Some? && s.account.value.V2?
    ensures Run(f, c, s, ds).account.Some? && Run(f, c, s, ds).account.value.V2?
    decreases ds
  {
    if ds != [] {
      V2Stays(f, c, Step(f, c, s, ds[0]), ds[1..]);
    }
  }

  /** Refused syncs leave no trace: dropping them from the run gives the same state. */
  lemma {:induction false} RefusedLeaveNoTrace(f: Features, c: Crypto, s: Stored, ds: seq<SyncData>)
    ensures Run(f, c, s, Accepted(f, c, s, ds)) == Run(f, c, s, ds)
    ensures Accepted(f, c, s, Accepted(f, c, s, ds)) == Accepted(f, c, s, ds)
    decreases ds
  {
    if ds != [] {
      var s' := Step(f, c, s, ds[0]);
      var rest := Accepted(f, c, s', ds[1..]);
      RefusedLeaveNoTrace(f, c, s', ds[1..]);
      if Refused(s, ds[0]) {
        assert Accepted(f, c, s, ds) == rest;
      } else {
        assert Accepted(f, c, s, ds)[1..] == rest;
      }
    }
  }

  /** Stored unlock data carries the stored KDF, and a stored PRF list is never empty. */
  predicate Coherent(s: Stored) {
    && (s.unlockData.Some? ==> s.kdf == Some(s.unlockData.value.kdf))
    && s.prf != Some([])
  }

  lemma {:induction false} CoherenceKept(f: Features, c: Crypto, s: Stored, ds: seq<SyncData>)
    requires Coherent(s)
    ensures Coherent(Run(f, c, s, ds))
    decreases ds
  {
    if ds != [] {
      CoherenceKept(f, c, Step(f, c, s, ds[0]), ds[1..]);
    }
  }

  /** One sync with user decryption options that is not refused makes any state coherent. */
  lemma {:induction false} CoherenceReached(f: Features, c: Crypto, s: Stored, d: SyncData)
    requires !Refused(s, d) && d.userDecryption.Some?
    ensures Coherent(Step(f, c, s, d))
  {
  }

  lemma {:induction false} RunConcat(f: Features, c: Crypto, s: Stored, ds: seq<SyncData>, es: seq<SyncData>)
    ensures Run(f, c, s, ds + es) == Run(f, c, Run(f, c, s, ds), es)
    decreases ds
  {
    if ds == [] {
      assert ds + es == es;
    } else {
      assert (ds + es)[1..] == ds[1..] + es;
      RunConcat(f, c, Step(f, c, s, ds[0]), ds[1..], es);
    }
  }

  /** From any state, once a sync with user decryption options was accepted, the state stays coherent. */
  lemma {:induction false} CoherentOnceSynced(f: Features, c: Crypto, s: Stored, ds: seq<SyncData>, i: nat)
    requires i < |ds| && ds[i].userDecryption.Some? && !Refused(Run(f, c, s, ds[..i]), ds[i])
    ensures Coherent(Run(f, c, s, ds))
  {
    var before := Run(f, c, s, ds[..i]);
    assert ds == ds[..i] + ([ds[i]] + ds[i + 1..]);
    RunConcat(f, c, s, ds[..i], [ds[i]] + ds[i + 1..]);
    assert ([ds[i]] + ds[i + 1..])[1..] == ds[i + 1..];
    CoherenceReached(f, c, before, ds[i]);
    CoherenceKept(f, c, Step(f, c, before, ds[i]), ds[i + 1..]);
  }

  /** Handling the same sync twice is handling it once. */
  lemma {:induction false} StepIdempotent(f: Features, c: Crypto, s: Stored, d: SyncData)
    ensures Step(f, c, Step(f, c, s, d), d) == Step(f, c, s, d)
  {
  }

  // ---------------------------------------------------------------- what a run ends with

  /** The last account state of one version that a run brought. */
  function LastState(ds: seq<SyncData>, v2: bool): Option<AccountState> {
    if ds == [] then None
    else
      var d := ds[|ds| - 1];
      if d.accountState.Some? && d.accountState.value.V2? == v2 then d.accountState
      else LastState(ds[..|ds| - 1], v2)
  }

  /** The newest V2 state wins; without one, the newest V1 state. */
  function FinalAccount(start: Option<AccountState>, ds: seq<SyncData>): Option<AccountState> {
    if LastState(ds, true).Some? then LastState(ds, true)
    else if start.Some? && start.value.V2? then start
    else if LastState(ds, false).Some? then LastState(ds, false)
    else start
  }

  lemma {:induction false} RunSplit(f: Features, c: Crypto, s: Stored, ds: seq<SyncData>, d: SyncData)
    ensures Run(f, c, s, ds + [d]) == Step(f, c, Run(f, c, s, ds), d)
  {
    RunConcat(f, c, s, ds, [d]);
    assert [d][1..] == [];
  }

  lemma {:induction false} LastStateVersion(ds: seq<SyncData>, v2: bool)
    ensures LastState(ds, v2).Some? ==> LastState(ds, v2).value.V2? == v2
  {
    if ds != [] {
      LastStateVersion(ds[..|ds| - 1], v2);
    }
  }

  /** The account state after a run, without following the run. */
  lemma {:induction false} AccountAfterRun(f: Features, c: Crypto, s: Stored, ds: seq<SyncData>)
    ensures Run(f, c, s, ds).account == FinalAccount(s.account, ds)
    decreases |ds|
  {
    if ds != [] {
      var n := |ds| - 1;
      assert ds == ds[..n] + [ds[n]];
      AccountAfterRun(f, c, s, ds[..n]);
      RunSplit(f, c, s, ds[..n], ds[n]);
      LastStateVersion(ds[..n], true);
      LastStateVersion(ds[..n], false);
    }
  }

  /** Sync `i` is the last of the run that carried user decryption options and was not refused. */
  ghost predicate LastOptions(f: Features, c: Crypto, s: Stored, ds: seq<SyncData>, i: nat) {
    && i < |ds| && ds[i].userDecryption.Some? && !Refused(Run(f, c, s, ds[..i]), ds[i])
    && forall j :: i < j < |ds| ==> ds[j].userDecryption.None? || Refused(Run(f, c, s, ds[..j]), ds[j])
  }

  /** Unlock data, token, PRF options and key id always come from one and the same sync. */
  lemma {:induction false} OptionsFromOneSync(f: Features, c: Crypto, s: Stored, ds: seq<SyncData>, i: nat)
    requires LastOptions(f, c, s, ds, i)
    ensures var r, u := Run(f, c, s, ds), ds[i].userDecryption.value;
            && r.unlockData == u.masterPasswordUnlock && r.upgradeToken == u.v2UpgradeToken && r.userKeyId == u.userKeyId
            && r.prf == (if u.webAuthnPrfOptions.Some? && u.webAuthnPrfOptions.value != [] then u.webAuthnPrfOptions else None)
    decreases |ds|
  {
    var n := |ds| - 1;
    assert ds == ds[..n] + [ds[n]];
    RunSplit(f, c, s, ds[..n], ds[n]);
    if i < n {
      forall j | 0 <= j <= n ensures ds[..n][..j] == ds[..j] { }
      assert LastOptions(f, c, s, ds[..n], i);
      OptionsFromOneSync(f, c, s, ds[..n], i);
    }
  }

  predicate CarriesUnlock(d: SyncData) {
    d.userDecryption.Some? && d.userDecryption.value.masterPasswordUnlock.Some?
  }

  /** Sync `i` is the last of the run that carried unlock data and was not refused. */
  ghost predicate LastUnlock(f: Features, c: Crypto, s: Stored, ds: seq<SyncData>, i: nat) {
    && i < |ds| && CarriesUnlock(ds[i]) && !Refused(Run(f, c, s, ds[..i]), ds[i])
    && forall j :: i < j < |ds| ==> !CarriesUnlock(ds[j]) || Refused(Run(f, c, s, ds[..j]), ds[j])
  }

  /** The stored KDF is that of the last unlock data, even after the unlock data itself was cleared. */
  lemma {:induction false} KdfFromLastUnlock(f: Features, c: Crypto, s: Stored, ds: seq<SyncData>, i: nat)
    requires LastUnlock(f, c, s, ds, i)
    ensures Run(f, c, s, ds).kdf == Some(ds[i].userDecryption.value.masterPasswordUnlock.value.kdf)
    decreases |ds|
  {
    var n := |ds| - 1;
    assert ds == ds[..n] + [ds[n]];
    RunSplit(f, c, s, ds[..n], ds[n]);
    if i < n {
      forall j | 0 <= j <= n ensures ds[..n][..j] == ds[..j] { }
      assert LastUnlock(f, c, s, ds[..n], i);
      KdfFromLastUnlock(f, c, s, ds[..n], i);
    }
  }

  /** Without such a sync they stay what they were. */
  lemma {:induction false} OptionsUntouched(f: Features, c: Crypto, s: Stored, ds: seq<SyncData>)
    requires forall j :: 0 <= j < |ds| ==> ds[j].userDecryption.None? || Refused(Run(f, c, s, ds[..j]), ds[j])
    ensures var r := Run(f, c, s, ds);
            && r.unlockData == s.unlockData && r.kdf == s.kdf && r.upgradeToken == s.upgradeToken
            && r.prf == s.prf && r.userKeyId == s.userKeyId
    decreases |ds|
  {
    if ds != [] {
      var n := |ds| - 1;
      assert ds == ds[..n] + [ds[n]];
      RunSplit(f, c, s, ds[..n], ds[n]);
      forall j | 0 <= j <= n ensures ds[..n][..j] == ds[..j] { }
      OptionsUntouched(f, c, s, ds[..n]);
    }
  }

  // ---------------------------------------------------------------- the user key

  /** The key in memory never moves away from V2, and a locked client stays locked. */
  lemma {:induction false} MemoryKeyOnlyUpgrades(f: Features, c: Crypto, s: Stored, ds: seq<SyncData>)
    ensures var r := Run(f, c, s, ds);
            r.memoryKey == s.memoryKey ||
            (s.memoryKey.Some? && s.memoryKey.value.V1Key? && r.memoryKey.Some? && r.memoryKey.value.V2Key?)
    decreases ds
  {
    if ds != [] {
      MemoryKeyOnlyUpgrades(f, c, Step(f, c, s, ds[0]), ds[1..]);
    }
  }

  lemma {:induction false} StoredKeyStays(f: Features, c: Crypto, s: Stored, ds: seq<SyncData>)
    requires s.memoryKey.Some? && s.memoryKey.value.V2Key?
    ensures Run(f, c, s, ds).memoryKey == s.memoryKey && Run(f, c, s, ds).storedUserKey == s.storedUserKey
    decreases ds
  {
    if ds != [] {
      StoredKeyStays(f, c, Step(f, c, s, ds[0]), ds[1..]);
    }
  }

  /** A sync with a V2 state and a token whose V2 key, unwrapped with a V1 key, opens that state. */
  predicate Usable(c: Crypto, v1: seq<byte>, d: SyncData, v2: seq<byte>) {
    && d.accountState.Some? && d.accountState.value.V2?
    && d.userDecryption.Some? && d.userDecryption.value.v2UpgradeToken.Some?
    && c.unwrapV2(d.userDecryption.value.v2UpgradeToken.value, v1) == Some(v2)
    && c.opens(d.accountState.value, v2)
  }

  /** One step with a usable token moves an unlocked V1 client to the token's key, in memory and on wasm in state. */
  lemma {:induction false} UsableStep(f: Features, c: Crypto, s: Stored, d: SyncData, v2: seq<byte>)
    requires !f.Plain? && s.memoryKey.Some? && s.memoryKey.value.V1Key? && Usable(c, s.memoryKey.value.bytes, d, v2)
    ensures Step(f, c, s, d).memoryKey == Some(V2Key(v2))
    ensures Step(f, c, s, d).storedUserKey == if f.Wasm? then Some(V2Key(v2)) else s.storedUserKey
  {
  }

  lemma {:induction false} UnusableStep(f: Features, c: Crypto, s: Stored, d: SyncData)
    requires f.Plain? || s.memoryKey.None? || !s.memoryKey.value.V1Key? || forall k :: !Usable(c, s.memoryKey.value.bytes, d, k)
    ensures Step(f, c, s, d).memoryKey == s.memoryKey
  {
    if s.memoryKey.Some? && d.accountState.Some? && d.userDecryption.Some? && d.userDecryption.value.v2UpgradeToken.Some? {
      var k := c.unwrapV2(d.userDecryption.value.v2UpgradeToken.value, s.memoryKey.value.bytes);
      if k.Some? {
        assert s.memoryKey.value.V1Key? && !f.Plain? ==> !Usable(c, s.memoryKey.value.bytes, d, k.value);
      }
    }
  }

  /** The first usable token of a run decides the key in memory. */
  lemma {:induction false} MemoryKeyAfterRun(f: Features, c: Crypto, s: Stored, ds: seq<SyncData>, i: nat, v2: seq<byte>)
    requires !f.Plain? && s.memoryKey.Some? && s.memoryKey.value.V1Key?
    requires i < |ds| && Usable(c, s.memoryKey.value.bytes, ds[i], v2)
    requires forall j, k :: 0 <= j < i ==> !Usable(c, s.memoryKey.value.bytes, ds[j], k)
    ensures Run(f, c, s, ds).memoryKey == Some(V2Key(v2))
    decreases ds
  {
    var s' := Step(f, c, s, ds[0]);
    if i == 0 {
      UsableStep(f, c, s, ds[0], v2);
      StoredKeyStays(f, c, s', ds[1..]);
    } else {
      UnusableStep(f, c, s, ds[0]);
      assert forall j :: 0 <= j < |ds| - 1 ==> ds[1..][j] == ds[j + 1];
      MemoryKeyAfterRun(f, c, s', ds[1..], i - 1, v2);
    }
  }

  /** The key in memory is unchanged exactly when the client cannot upgrade or no sync brings a usable token. */
  lemma {:induction false} MemoryKeyKeptIff(f: Features, c: Crypto, s: Stored, ds: seq<SyncData>)
    ensures Run(f, c, s, ds).memoryKey == s.memoryKey <==>
            || f.Plain? || s.memoryKey.None? || !s.memoryKey.value.V1Key?
            || forall i, k :: 0 <= i < |ds| ==> !Usable(c, s.memoryKey.value.bytes, ds[i], k)
    decreases ds
  {
    if ds != [] {
      var s' := Step(f, c, s, ds[0]);
      if !f.Plain? && s.memoryKey.Some? && s.memoryKey.value.V1Key? {
        if k :| Usable(c, s.memoryKey.value.bytes, ds[0], k) {
          MemoryKeyAfterRun(f, c, s, ds, 0, k);
        } else {
          UnusableStep(f, c, s, ds[0]);
          MemoryKeyKeptIff(f, c, s', ds[1..]);
          assert forall j :: 0 <= j < |ds| - 1 ==> ds[1..][j] == ds[j + 1];
          assert forall j :: 1 <= j < |ds| ==> ds[j] == ds[1..][j - 1];
        }
      } else {
        UnusableStep(f, c, s, ds[0]);
        MemoryKeyKeptIff(f, c, s', ds[1..]);
      }
    }
  }

  /** After an upgrade the account stored is V2 and, on wasm, the new key is the stored one. */
  lemma {:induction false} UpgradeIsStored(f: Features, c: Crypto, s: Stored, ds: seq<SyncData>)
    requires Run(f, c, s, ds).memoryKey != s.memoryKey
    ensures var r := Run(f, c, s, ds);
            && r.account.Some? && r.account.value.V2?
            && (f.Wasm? ==> r.storedUserKey == r.memoryKey)
    decreases ds
  {
    var s' := Step(f, c, s, ds[0]);
    if s'.memoryKey == s.memoryKey {
      UpgradeIsStored(f, c, s', ds[1..]);
    } else {
      V2Stays(f, c, s', ds[1..]);
      StoredKeyStays(f, c, s', ds[1..]);
    }
  }
}
