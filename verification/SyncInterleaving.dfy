/** Syncs in flight at the same time: every bridge call is a step, and steps of different syncs interleave. */
module SyncInterleaving {
  import opened Wrappers
  import opened CryptoSync

  /** The next bridge call of a sync; the whole of `Reinit` happens in memory. */
  datatype Pc = Check | Unlock | SetKdf | Token | Prf | KeyId | Account | Reinit | TokenAgain | CopyKey | Done

  datatype Sync = Sync(pc: Pc, data: SyncData)

  datatype World = World(stored: Stored, syncs: seq<Sync>)

  /** How many calls a sync may still make. */
  function Rank(pc: Pc): nat {
    match pc
    case Check => 10
    case Unlock => 9
    case SetKdf => 8
    case Token => 7
    case Prf => 6
    case KeyId => 5
    case Account => 4
    case Reinit => 3
    case TokenAgain => 2
    case CopyKey => 1
    case Done => 0
  }

  /** A sync only reaches the option writes with options, and the key writes with a token. */
  predicate Placed(t: Sync) {
    && (t.pc in {Unlock, SetKdf, Token, Prf, KeyId} ==> t.data.userDecryption.Some?)
    && (t.pc == SetKdf ==> t.data.userDecryption.value.masterPasswordUnlock.Some?)
    && (t.pc in {TokenAgain, CopyKey} ==> t.data.userDecryption.Some?)
  }

  /** What one call does to the stored state. */
  function Effect(f: Features, c: Crypto, s: Stored, t: Sync): Stored
    requires Placed(t)
  {
    var d := t.data;
    match t.pc
    case Unlock => s.(unlockData := d.userDecryption.value.masterPasswordUnlock)
    case SetKdf => s.(kdf := Some(d.userDecryption.value.masterPasswordUnlock.value.kdf))
    case Token => s.(upgradeToken := d.userDecryption.value.v2UpgradeToken)
    case Prf =>
      var prf := d.userDecryption.value.webAuthnPrfOptions;
      s.(prf := if prf.Some? && prf.value != [] then prf else None)
    case KeyId => s.(userKeyId := d.userDecryption.value.userKeyId)
    case Account => WithAccount(s, d)
    case Reinit => if f.Plain? || UpgradedKey(c, s, d).None? then s else s.(memoryKey := UpgradedKey(c, s, d))
    case TokenAgain => s.(upgradeToken := d.userDecryption.value.v2UpgradeToken)
    case CopyKey => if f.Wasm? then s.(storedUserKey := s.memoryKey) else s
    case _ => s
  }

  /** Where a sync goes after one call. */
  function Next(f: Features, c: Crypto, s: Stored, t: Sync): (r: Sync)
    requires Placed(t)
    ensures Placed(r) && r.data == t.data && (t.pc != Done ==> Rank(r.pc) < Rank(t.pc))
  {
    var d := t.data;
    t.(pc := match t.pc
             case Check => if Refused(s, d) then Done else if d.userDecryption.Some? then Unlock else Account
             case Unlock => if d.userDecryption.value.masterPasswordUnlock.Some? then SetKdf else Token
             case SetKdf => Token
             case Token => Prf
             case Prf => KeyId
             case KeyId => Account
             case Account => Reinit
             case Reinit => if f.Plain? || UpgradedKey(c, s, d).None? then Done else TokenAgain
             case TokenAgain => CopyKey
             case CopyKey => Done
             case Done => Done)
  }

  ghost predicate AllPlaced(w: World) {
    forall i :: 0 <= i < |w.syncs| ==> Placed(w.syncs[i])
  }

  /** Sync `i` makes its next call. */
  function Turn(f: Features, c: Crypto, w: World, i: nat): (r: World)
    requires AllPlaced(w)
    ensures AllPlaced(r) && |r.syncs| == |w.syncs|
    ensures forall k :: 0 <= k < |w.syncs| ==> r.syncs[k].data == w.syncs[k].data
  {
    if i >= |w.syncs| then w
    else World(Effect(f, c, w.stored, w.syncs[i]), w.syncs[i := Next(f, c, w.stored, w.syncs[i])])
  }

  /** The world after a schedule of turns. */
  function Play(f: Features, c: Crypto, w: World, schedule: seq<nat>): (r: World)
    requires AllPlaced(w)
    ensures AllPlaced(r) && |r.syncs| == |w.syncs|
    decreases schedule
  {
    if schedule == [] then w else Play(f, c, Turn(f, c, w, schedule[0]), schedule[1..])
  }

  // ---------------------------------------------------------------- one sync on its own

  /** A sync whose remaining calls nobody interrupts. */
  function Finish(f: Features, c: Crypto, s: Stored, t: Sync): Stored
    requires Placed(t)
    decreases Rank(t.pc)
  {
    if t.pc == Done then s else Finish(f, c, Effect(f, c, s, t), Next(f, c, s, t))
  }

  lemma {:induction false} FinishUpgrade(f: Features, c: Crypto, s: Stored, d: SyncData)
    ensures Finish(f, c, s, Sync(Reinit, d)) == WithUpgrade(f, c, s, d)
  {
    if !f.Plain? && UpgradedKey(c, s, d).Some? {
      var s1 := Effect(f, c, s, Sync(Reinit, d));
      var s2 := Effect(f, c, s1, Sync(TokenAgain, d));
      var s3 := Effect(f, c, s2, Sync(CopyKey, d));
      assert Finish(f, c, s3, Sync(Done, d)) == s3;
      assert Finish(f, c, s2, Sync(CopyKey, d)) == s3;
      assert Finish(f, c, s1, Sync(TokenAgain, d)) == s3;
    } else {
      assert Finish(f, c, s, Sync(Done, d)) == s;
    }
  }

  lemma {:induction false} FinishOptions(f: Features, c: Crypto, s: Stored, d: SyncData)
    requires d.userDecryption.Some?
    ensures Finish(f, c, s, Sync(Unlock, d)) == Finish(f, c, WithDecryption(s, d), Sync(Account, d))
  {
    var s1 := Effect(f, c, s, Sync(Unlock, d));
    var s2 := if d.userDecryption.value.masterPasswordUnlock.Some? then Effect(f, c, s1, Sync(SetKdf, d)) else s1;
    var s3 := Effect(f, c, s2, Sync(Token, d));
    var s4 := Effect(f, c, s3, Sync(Prf, d));
    var s5 := Effect(f, c, s4, Sync(KeyId, d));
    assert s5 == WithDecryption(s, d);
    assert Finish(f, c, s4, Sync(KeyId, d)) == Finish(f, c, s5, Sync(Account, d));
    assert Finish(f, c, s3, Sync(Prf, d)) == Finish(f, c, s4, Sync(KeyId, d));
    assert Finish(f, c, s2, Sync(Token, d)) == Finish(f, c, s3, Sync(Prf, d));
    assert Finish(f, c, s1, Next(f, c, s, Sync(Unlock, d))) == Finish(f, c, s2, Sync(Token, d));
  }

  /** An uninterrupted sync does exactly the step of the sequential model. */
  lemma {:induction false} AloneIsStep(f: Features, c: Crypto, s: Stored, d: SyncData)
    ensures Finish(f, c, s, Sync(Check, d)) == Step(f, c, s, d)
  {
    if Refused(s, d) {
      assert Finish(f, c, s, Sync(Done, d)) == s;
    } else {
      var t := WithDecryption(s, d);
      FinishUpgrade(f, c, WithAccount(t, d), d);
      assert Finish(f, c, t, Sync(Account, d)) == Finish(f, c, WithAccount(t, d), Sync(Reinit, d));
      if d.userDecryption.Some? {
        FinishOptions(f, c, s, d);
      }
    }
  }

  // ---------------------------------------------------------------- a stored V2 account

  predicate HoldsV2(s: Stored) {
    s.account.Some? && s.account.value.V2?
  }

  /** A sync with a V1 state that is past its downgrade check and has not written it yet. */
  predicate PendingV1(t: Sync) {
    t.data.accountState.Some? && t.data.accountState.value.V1? && Rank(Account) <= Rank(t.pc) < Rank(Check)
  }

  ghost predicate Exposed(w: World) {
    exists i :: 0 <= i < |w.syncs| && PendingV1(w.syncs[i])
  }

  lemma {:induction false} TurnKeepsV2(f: Features, c: Crypto, w: World, i: nat)
    requires AllPlaced(w) && HoldsV2(w.stored) && !Exposed(w)
    ensures HoldsV2(Turn(f, c, w, i).stored) && !Exposed(Turn(f, c, w, i))
  {
    var v := Turn(f, c, w, i);
    if i < |w.syncs| {
      assert !PendingV1(w.syncs[i]);
      forall k | 0 <= k < |v.syncs| ensures !PendingV1(v.syncs[k]) {
        assert !PendingV1(w.syncs[k]);
      }
    }
  }

  /** Without a pending V1 write, a stored V2 account survives every schedule, whatever else is in flight. */
  lemma {:induction false} V2StaysInterleaved(f: Features, c: Crypto, w: World, schedule: seq<nat>)
    requires AllPlaced(w) && HoldsV2(w.stored) && !Exposed(w)
    ensures HoldsV2(Play(f, c, w, schedule).stored)
    decreases schedule
  {
    if schedule != [] {
      TurnKeepsV2(f, c, w, schedule[0]);
      V2StaysInterleaved(f, c, Turn(f, c, w, schedule[0]), schedule[1..]);
    }
  }

  /** Turns of one sync until it has written its account state; the others stay where they are. */
  lemma {:induction false} RunToWrite(f: Features, c: Crypto, w: World, i: nat) returns (schedule: seq<nat>)
    requires AllPlaced(w) && i < |w.syncs| && w.syncs[i].data.accountState.Some?
    requires Rank(Account) <= Rank(w.syncs[i].pc) && (w.syncs[i].pc == Check ==> !Refused(w.stored, w.syncs[i].data))
    ensures Play(f, c, w, schedule).stored.account == w.syncs[i].data.accountState
    ensures forall k :: 0 <= k < |w.syncs| && k != i ==> Play(f, c, w, schedule).syncs[k] == w.syncs[k]
    decreases Rank(w.syncs[i].pc)
  {
    var v := Turn(f, c, w, i);
    var rest := [];
    if w.syncs[i].pc == Account {
      assert Play(f, c, v, rest) == v;
    } else {
      rest := RunToWrite(f, c, v, i);
    }
    schedule := [i] + rest;
    assert schedule[1..] == rest;
  }

  /** A stored V2 account survives all schedules exactly when no sync has a V1 write pending. */
  lemma {:induction false} V2SafeIff(f: Features, c: Crypto, w: World)
    requires AllPlaced(w) && HoldsV2(w.stored)
    ensures (forall schedule :: HoldsV2(Play(f, c, w, schedule).stored)) <==> !Exposed(w)
  {
    if Exposed(w) {
      var i :| 0 <= i < |w.syncs| && PendingV1(w.syncs[i]);
      var schedule := RunToWrite(f, c, w, i);
      assert !HoldsV2(Play(f, c, w, schedule).stored);
    } else {
      forall schedule ensures HoldsV2(Play(f, c, w, schedule).stored) {
        V2StaysInterleaved(f, c, w, schedule);
      }
    }
  }

  // ---------------------------------------------------------------- how it is lost

  lemma {:induction false} PlayConcat(f: Features, c: Crypto, w: World, a: seq<nat>, b: seq<nat>)
    requires AllPlaced(w)
    ensures Play(f, c, w, a + b) == Play(f, c, Play(f, c, w, a), b)
    decreases a
  {
    if a == [] {
      assert a + b == b;
    } else {
      assert (a + b)[1..] == a[1..] + b;
      PlayConcat(f, c, Turn(f, c, w, a[0]), a[1..], b);
    }
  }

  /** Two syncs started together, one with a V1 and one with a V2 state: the upgrade can be stored and then lost. */
  lemma {:induction false} UpgradeLost(f: Features, c: Crypto, s: Stored, d: SyncData, e: SyncData)
    returns (before: seq<nat>, after: seq<nat>)
    requires !HoldsV2(s) && d.accountState.Some? && d.accountState.value.V1?
    requires e.accountState.Some? && e.accountState.value.V2?
    ensures var w := World(s, [Sync(Check, d), Sync(Check, e)]);
            && Play(f, c, w, before).stored.account == e.accountState
            && Play(f, c, w, before + after).stored.account == d.accountState
  {
    var w := World(s, [Sync(Check, d), Sync(Check, e)]);
    var checked := Turn(f, c, w, 0);
    assert PendingV1(checked.syncs[0]);
    var write := RunToWrite(f, c, checked, 1);
    before := [0] + write;
    assert before[1..] == write;
    after := RunToWrite(f, c, Play(f, c, w, before), 0);
    PlayConcat(f, c, w, before, after);
  }

  // ---------------------------------------------------------------- what every schedule keeps

  /** The key in memory stays or moves from V1 to V2, and a stored PRF list is never empty, under every schedule. */
  lemma {:induction false} KeptInterleaved(f: Features, c: Crypto, w: World, schedule: seq<nat>)
    requires AllPlaced(w)
    ensures var r, m := Play(f, c, w, schedule).stored, w.stored.memoryKey;
            && (r.memoryKey == m || (m.Some? && m.value.V1Key? && r.memoryKey.Some? && r.memoryKey.value.V2Key?))
            && (w.stored.prf != Some([]) ==> r.prf != Some([]))
    decreases schedule
  {
    if schedule != [] {
      KeptInterleaved(f, c, Turn(f, c, w, schedule[0]), schedule[1..]);
    }
  }
}
