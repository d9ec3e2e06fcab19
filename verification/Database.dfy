/** The tables of app/models.py, by primary key, and the process-wide vault state. */
module Database {
  import opened Basics
  import opened Contexts
  import opened Versions
  import KeyringModel
  import SecretsModel
  import LockoutModel
  import VaultModel

  datatype VaultConfig = VaultConfig(salt: Bytes, wrappedDek: Bytes, nonce: Nonce)

  datatype User = User(password: string, failedLoginAttempts: int, lockedUntil: Option<Time>)

  datatype SecretRow = SecretRow(path: string, owner: string, nonce: Nonce, body: Bytes, createdAt: Time,
    updatedAt: Time)

  /** `kid` is the pair of columns owner_email and key_name. */
  datatype KeyRow = KeyRow(
    kid: KeyId, usage: KeyringModel.Usage, algorithm: string,
    nonce: Nonce, material: Bytes, public: Option<Bytes>, revokedAt: Option<Time>, createdAt: Time)

  /** The ghost fields are what the services' tables stand for. */
  class Tables {
    var vaultConfig: Option<VaultConfig>
    var users: map<string, User>
    var secrets: map<int, SecretRow>
    var secretVersions: VersionTable
    var keys: map<int, KeyRow>
    var keyVersions: VersionTable

    ghost var core: VaultModel.Core
    ghost var accounts: LockoutModel.Accounts
    ghost var values: SecretsModel.Secrets
    ghost var valueHistory: History
    ghost var ring: KeyringModel.Keyring
    ghost var keyHistory: History

    constructor ()
      ensures vaultConfig == None && users == map[] && secrets == map[] && secretVersions == map[]
      ensures keys == map[] && keyVersions == map[]
      ensures core == VaultModel.Core(None, false) && accounts == map[] && values == map[] && ring == map[]
      ensures valueHistory == map[] && keyHistory == map[]
    {
      vaultConfig, users, secrets, secretVersions, keys, keyVersions := None, map[], map[], map[], map[], map[];
      core, accounts, values, ring := VaultModel.Core(None, false), map[], map[], map[];
      valueHistory, keyHistory := map[], map[];
    }
  }

  /** app/core/vault_state.py: the only place the plaintext DEK lives. */
  class VaultState {
    var dek: Option<Bytes>

    constructor ()
      ensures dek == None
    {
      dek := None;
    }

    method Unlock(key: Bytes)
      modifies this
      ensures dek == Some(key)
    {
      dek := Some(key);
    }

    method Lock()
      modifies this
      ensures dek == None
    {
      dek := None;
    }

    method RequireDek() returns (r: Result<Bytes>)
      ensures r == if dek.Some? then Ok(dek.value) else Err(VaultLocked)
    {
      r := if dek.Some? then Ok(dek.value) else Err(VaultLocked);
    }
  }
}
