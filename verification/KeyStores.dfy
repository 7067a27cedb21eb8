/** The key store context: local keys of one context and the shared global keys. */
module KeyStores {
  import opened Wrappers
  import opened SymmetricKeys

  datatype Slot = Local(id: nat) | Global(id: nat)

  datatype CryptoError = MissingKeyId | ReadOnlyKeyStore | InvalidKeyStoreOperation | OperationNotSupported | KeyOperationNotSupported

  class KeyStoreContext {
    const writable: bool
    var local: map<nat, SymmetricKey>
    var global: map<nat, SymmetricKey>
    var nextLocal: nat

    ghost predicate Valid()
      reads this
    {
      forall i :: i in local ==> i < nextLocal
    }

    constructor (writable: bool, global: map<nat, SymmetricKey>)
      ensures Valid() && this.writable == writable && this.global == global && local == map[]
    {
      this.writable := writable;
      this.global := global;
      local := map[];
      nextLocal := 0;
    }

    function GetSymmetricKey(slot: Slot): Option<SymmetricKey>
      reads this
    {
      match slot
      case Local(i) => if i in local then Some(local[i]) else None
      case Global(i) => if i in global then Some(global[i]) else None
    }

    method SetSymmetricKey(slot: Slot, key: SymmetricKey) returns (r: Result<(), CryptoError>)
      requires Valid() && (slot.Local? ==> slot.id < nextLocal)
      modifies this`local, this`global
      ensures Valid()
      ensures r.Err? <==> slot.Global? && !writable
      ensures r.Err? ==> r.error == ReadOnlyKeyStore && local == old(local) && global == old(global)
      ensures r.Ok? ==> local == (if slot.Local? then old(local)[slot.id := key] else old(local))
      ensures r.Ok? ==> global == (if slot.Global? then old(global)[slot.id := key] else old(global))
    {
      if slot.Local? {
        local := local[slot.id := key];
      } else if !writable {
        return Err(ReadOnlyKeyStore);
      } else {
        global := global[slot.id := key];
      }
      return Ok(());
    }

    /** Adds a key under a local slot that was never used before. */
    method AddLocalSymmetricKey(key: SymmetricKey) returns (slot: Slot)
      requires Valid()
      modifies this`local, this`nextLocal
      ensures Valid()
      ensures slot == Local(old(nextLocal)) && slot.id !in old(local)
      ensures local == old(local)[slot.id := key] && nextLocal == old(nextLocal) + 1
    {
      slot := Local(nextLocal);
      local := local[nextLocal := key];
      nextLocal := nextLocal + 1;
    }

    /** Moves a key from a local slot to a global one. */
    method PersistSymmetricKey(from: Slot, to: Slot) returns (r: Result<(), CryptoError>)
      requires Valid()
      modifies this`local, this`global
      ensures Valid()
      ensures r.Ok? <==> from.Local? && to.Global? && from.id in old(local) && writable
      ensures r.Ok? ==> global == old(global)[to.id := old(local)[from.id]] && local == old(local) - {from.id}
      ensures r.Err? ==> global == old(global)
      ensures r.Err? ==>
                if !from.Local? || to.Local? then r.error == InvalidKeyStoreOperation && local == old(local)
                else if from.id !in old(local) then r.error == MissingKeyId && local == old(local)
                else r.error == ReadOnlyKeyStore && local == old(local) - {from.id}
    {
      if !from.Local? || to.Local? {
        return Err(InvalidKeyStoreOperation);
      }
      var key := GetSymmetricKey(from);
      if key.None? {
        return Err(MissingKeyId);
      }
      local := local - {from.id};
      r := SetSymmetricKey(to, key.value);
    }
  }
}
