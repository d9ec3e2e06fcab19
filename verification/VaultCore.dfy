/** app/core/vault_service.py: wrapping the DEK once and opening it again. */
module VaultCore {
  import opened Basics
  import opened Validation
  import opened Contexts
  import opened Crypto
  import opened Database
  import opened VaultModel

  /** The one configuration row wraps the one DEK, and memory holds that DEK or nothing. */
  ghost predicate CoreAgrees(config: Option<VaultConfig>, dek: Option<Bytes>, core: Core, log: SealLog) {
    match core.master
    case None => config == None && dek == None && !core.unlocked && At(log, DEK_AAD) == map[]
    case Some(m) =>
      && config.Some? && config.value.salt == m.salt
      && At(log, DEK_AAD) == map[Box(m.derived, config.value.nonce, config.value.wrappedDek) := m.dek]
      && dek == if core.unlocked then Some(m.dek) else None
  }

  class VaultService {
    const db: Tables
    const state: VaultState
    const crypto: CryptoService

    constructor (db: Tables, state: VaultState, crypto: CryptoService)
      ensures this.db == db && this.state == state && this.crypto == crypto
    {
      this.db, this.state, this.crypto := db, state, crypto;
    }

    ghost predicate Valid()
      reads this, db, state, crypto
    {
      crypto.Valid() && CoreAgrees(db.vaultConfig, state.dek, db.core, crypto.log)
    }

    method Init(passphrase: string, confirmation: string, salt: Bytes, dek: Bytes, nonce: Nonce) returns (r: Result<()>)
      requires Valid()
      modifies db`vaultConfig, db`core, state, crypto`log, crypto`calls
      ensures Valid()
      ensures (db.core, r) == VaultModel.Init(crypto.suite, old(db.core), passphrase, confirmation, salt, dek)
      ensures TouchesOnly(old(crypto.log), crypto.log, {'m'})
      ensures AtMostOneSeal(old(crypto.calls), crypto.calls, Some(nonce))
    {
      if db.vaultConfig.Some? {
        return Err(VaultAlreadyInitialized);
      }
      if passphrase != confirmation {
        return Err(ValidationError);
      }
      if !StrongPassphrase(passphrase) {
        return Err(WeakPassphrase);
      }
      var derived := crypto.suite.kdf(passphrase, salt);
      var wrapped := crypto.Encrypt(derived, nonce, dek, DEK_AAD);
      db.vaultConfig := Some(VaultConfig(salt, wrapped, nonce));
      state.Lock();
      db.core := Core(Some(Master(salt, derived, dek)), false);
      r := Ok(());
    }

    method Unlock(passphrase: string) returns (r: Result<()>)
      requires Valid()
      modifies state, db`core
      ensures Valid()
      ensures (db.core, r) == VaultModel.Unlock(crypto.suite, old(db.core), passphrase)
      ensures r.Err? ==> state.dek == old(state.dek)
    {
      if db.vaultConfig.None? {
        return Err(VaultNotInitialized);
      }
      var config := db.vaultConfig.value;
      var derived := crypto.suite.kdf(passphrase, config.salt);
      var dek := crypto.Decrypt(derived, config.nonce, config.wrappedDek, DEK_AAD);
      if dek.None? {
        return Err(InvalidMasterPassphrase);
      }
      state.Unlock(dek.value);
      db.core := db.core.(unlocked := true);
      r := Ok(());
    }

    method Lock()
      requires Valid()
      modifies state, db`core
      ensures Valid() && db.core == VaultModel.Lock(old(db.core))
    {
      state.Lock();
      db.core := VaultModel.Lock(db.core);
    }
  }
}
