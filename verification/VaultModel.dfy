/** What the vault core promises: one data-encryption key for ever, held in memory only while unlocked. */
module VaultModel {
  import opened Basics
  import opened Validation
  import opened Crypto

  /** Fixed by the one successful `init`: the salt, the key derived from the passphrase, and the DEK. */
  datatype Master = Master(salt: Bytes, derived: Bytes, dek: Bytes)

  datatype Core = Core(master: Option<Master>, unlocked: bool)

  function Init(suite: Suite, core: Core, passphrase: string, confirmation: string, salt: Bytes, dek: Bytes)
    : (Core, Result<()>)
  {
    if core.master.Some? then (core, Err(VaultAlreadyInitialized))
    else if passphrase != confirmation then (core, Err(ValidationError))
    else if !StrongPassphrase(passphrase) then (core, Err(WeakPassphrase))
    else (Core(Some(Master(salt, suite.kdf(passphrase, salt), dek)), false), Ok(()))
  }

  /** Exactly the passphrases that derive the original wrapping key unlock. */
  function Unlock(suite: Suite, core: Core, passphrase: string): (Core, Result<()>) {
    match core.master
    case None => (core, Err(VaultNotInitialized))
    case Some(m) =>
      if suite.kdf(passphrase, m.salt) == m.derived then (core.(unlocked := true), Ok(()))
      else (core, Err(InvalidMasterPassphrase))
  }

  function Lock(core: Core): Core {
    core.(unlocked := false)
  }
}
