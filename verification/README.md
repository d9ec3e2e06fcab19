# Mini Vault: a verified model

Mini Vault keeps secrets and named keys encrypted under one data-encryption key (DEK), which lives in memory
only while the vault is unlocked. This project models the whole service as one state machine and proves what
its runs guarantee.

## How it is built

There are two layers, and a proof that the lower one is the upper one.

* **What the service promises** is a pure state machine without rows, wrapped keys or nonces to look up:
  `VaultModel` (one DEK for ever), `KeyringModel` (a key version remembers the boxes it issued),
  `SecretsModel` (a path has a list of values), `LockoutModel` (an account has a history of checked
  passwords), `AuditModel` (a log is a sequence of rows). `System` puts them together: a request is one
  atomic step, `Run` takes a sequence of requests from a state, `Before` and `Answer` are the state before
  and the answer to the i-th request of a run from the empty database.
* **What the code does** is imperative, over tables and memory in their own form: `VaultCore`, `Database`,
  `Login`, `Audit`, `Transit`, `KeyValue`, and the handlers in `Router`. Ghost fields hold what the tables
  stand for. `KeyTables`, `Wrappings` and `SecretTables` say how rows and sealed bytes stand for a keyring and
  for a map.
  Every service method is proved to return exactly what the upper layer returns and to move to exactly the
  state the upper layer moves to, error cases and their order included; `Router.App.Serve` states this for
  every sequence of requests.

The theorems about runs (`Lineage`, `Durability`, `SignTheorems`, `SecretTheorems`, `VaultTheorems`,
`LoginTheorems`, `AuditRuns`, `Isolation`) are then proved of the upper layer and hold of the code through
`Serve`. `LockHistory`, `AccountHistory`, `SecretHistory`, `KeyHistory`, `KeyAnswers` and `Denials` tell the
answer to every kind of request from earlier requests and their answers alone, without naming any operation of
the model: whether the vault is open, what is registered, stored, created, revoked and rotated, and then when
each request succeeds, what exactly it answers, and which refusal comes first. `Formats` spells out the texts
and constants. The theorems about stored rows (`Binding`) are proved of the tables of every valid `App`.

## What is assumed

* AES-256-GCM is idealised with a memory: a body opens exactly when it was sealed under that key, nonce and
  associated data. Sealing adds 16 bytes and can be decoded (`Crypto.Sound`; `Crypto.TOY` shows that this is
  consistent). Where a theorem needs that no nonce was used twice under one key it says so
  (`DistinctNonces`); `Router.App.Serve` keeps this as long as no two requests draw the same nonce.
* Ed25519 is idealised the same way: exactly the signatures that were made verify. That two key pairs have
  different public keys is a stated hypothesis where it is used. Argon2id is an arbitrary function; the
  comparison of passwords is equality.
* SHA-256 is an arbitrary function to 32 bytes. No theorem assumes that it is injective; collision-freeness
  is a hypothesis about the finitely many lines of the logs at hand.
* Random draws and the clock are part of a request. The clock has to be non-decreasing only for the guess
  bound. New row ids of keys and secrets are any unused ids, so ids of deleted rows come back. Audit ids are
  the largest id plus one.
* An address has an `@`, no second `@` or `/` after it, and no `:`. Where a theorem about the audit log needs
  a domain without `|`, it says so; the local part may contain `|`.
* Runs start from the empty database.

`hide` statements in proofs only keep definitions from the solver; they assume nothing.

## Where the code and its documentation differ

The documentation promises that any direct edit of the audit table is detected (line 150 of Mini Vault's own
README). Of the code this is not true. What the checker accepts is exactly the logs that the backfill would leave as they are
(`AuditTheorems.IntactIffReplayed`), and the chain has no key, so whoever can write the table can make such a
log:

* Replacing one row of a valid log by any other row goes unnoticed if and only if the new row carries the
  hashes that link it to the rows before it and, unless it is the last, the hash that its successor points to
  (`AuditTheorems.ReplacementIsReported`). The last row can therefore be rewritten at will with its hash
  recomputed (`ForgedRowIsInvisible` is an input), and so can any end of the log with all its hashes
  recomputed (`RelinkedEndIsInvisible`).
* Cutting rows off the end goes unnoticed (`AuditModel.TruncationIsInvisible`).
* An editor who leaves the id and the hash columns alone is reported if and only if the text between the
  separators changes (`EditIsReported`). Any change of a hashed field changes it when the fields around the
  identifier have no `|` outside the local part of the address (`FieldEditIsReported`); moving a `|` from the
  identifier into the action does not (`MovedSeparatorIsInvisible`), nor does an edit of the resource type or
  the client address.
* Deleting a row that is not the last, hash columns untouched, is reported at its successor
  (`DeletionIsReported`).

The last two hold as long as SHA-256 tells the lines at hand apart.

What a hash kept outside the database catches is exactly a change of that text: two logs that verify, whoever
wrote them and whatever they contain, end in the same hash if and only if they agree in length and, row by row,
in the id and in the text between the separators (`KeptHeadTellsTextsApart`); forged and missing ends are
included. Even this does not catch every change of a hashed field: the moved separator leaves the last hash as
it was (`KeptHeadMissesMovedSeparator`). It does among logs whose domains, actions and results have no `|`
(`KeptHeadTellsFieldsApart`). These, too, hold as long as SHA-256 tells the lines at hand apart.

For secrets the associated data is the path alone, as the documentation says. What follows from that is proved
too: two versions of a path can be exchanged without anybody noticing (`Binding.VersionsOfAPathInterchange`).
What opens as a payload, as wrapped key material or as the DEK is genuine whatever the rows contain
(`PayloadsAreAuthentic`, `WrappedKeysAreAuthentic`, `WrappedDekIsAuthentic`); columns that are not encrypted,
such as a stored public key, have no such protection.

## Model

| member | source | states |
|---|---|---|
| Router.App.Serve | app/router.py:20-177 | any sequence of requests served by the imperative services over their tables ends in the state, and gives the answers, of the abstract machine; the table invariant holds throughout, and fresh nonces keep every nonce unique to one seal |
| Router.App.Handle | app/router.py:20-177 | one request is one step of the abstract machine |
| Router.App.HandleVault | app/router.py:20-32 | init, unlock, lock and a restart keep every wrapped key and secret readable under the DEK and take the machine's step; when they succeed and what they do to the lock is told by the rows of LockHistory |
| Router.App.HandleUse | app/router.py:60-158 | a denied call is logged once, after the service call, and nothing else is; which calls are denied is told by the rows of Denials |
| Router.App.DeniedAudit | app/router.py:60-64 | appends one row exactly for PERMISSION_DENIED on calls with a hook |
| LockHistory.OpenExactly | app/core/vault_state.py:16-28 | the vault is open before a request if and only if some earlier unlock was answered Done with no lock, restart or successful init since |
| LockHistory.ShutUntilUnlocked | app/router.py:30-32 | after a lock, a restart or the init, up to the next successful unlock every KV and transit request fails and changes nothing but the audit log |
| LockHistory.InitAnswered | app/core/vault_service.py:19-33 | init succeeds exactly for a confirmed strong passphrase when no earlier init did; the refusals in their order |
| LockHistory.InitStores | app/core/vault_service.py:25-32 | ever after a successful init the salt, the derived key and the DEK are the ones of that request |
| LockHistory.UnlockAnswered | app/core/vault_service.py:35-47 | unlock fails as not initialised before an init, and afterwards succeeds exactly for passphrases deriving its key |
| LockHistory.LockAnswered | app/router.py:30-32 | a lock and a restart always succeed |
| AccountHistory.RegisteredExactly | app/auth/service.py:25-34 | an account exists exactly if an earlier registration of the address was answered, and has the password of that one |
| AccountHistory.RegisterAnswered | app/auth/service.py:25-34 | a registration succeeds exactly for a confirmed strong password and a free address; mismatch, weak, taken in this order |
| AccountHistory.LoginAnswered | app/auth/service.py:36-64 | a login answers the token exactly if it is not refused as locked and its password is the one registered earlier; the lock is told from earlier logins and answers |
| SecretHistory.PathAnswered | app/utils/validation.py:19-26 | a path is invalid exactly if malformed; otherwise it is allowed exactly to the address whose namespace and a non-empty rest it is, and denied to others |
| SecretHistory.StoreIsWritten | app/kv/service.py:22-101 | what is stored at a path is exactly what answered writes put there since the last answered delete |
| SecretHistory.WriteAnswered | app/kv/service.py:22-44 | an allowed write of at most 1048576 bytes always succeeds and answers the next version with the times of the first and this write |
| SecretHistory.ReadAnswered | app/kv/service.py:50-74 | an allowed reading answers the last or N-th value written since the last delete, or exactly why not |
| SecretHistory.VersionsAnswered | app/kv/service.py:76-86 | the versions 1..n with the times of their writes |
| SecretHistory.DeleteAnswered | app/kv/service.py:88-95 | a delete succeeds exactly if something is stored |
| SecretHistory.ListAnswered | app/kv/service.py:97-101 | a listing has exactly the paths in the address's namespace where something is stored, in strict order, with their number of versions and times |
| KeyHistory.KeysExactly | app/transit/service.py:36-64 | the keys are exactly the created ones, each of the kind, time and seed of its one creation |
| KeyHistory.RevokedExactly | app/transit/service.py:88-89 | a key is revoked exactly if an earlier revocation of it was answered |
| KeyHistory.MaterialsExactly | app/transit/service.py:36-103 | the material of an AES key's versions is what its creation drew and then what each answered rotation drew |
| KeyHistory.RotationAddsVersion | app/transit/service.py:91-103 | an answered rotation appends one version with the material it drew and answers the new number |
| KeyAnswers.VersionsCount | app/transit/service.py:91-103 | the number that encryptions print and descriptions tell is one more than the answered rotations |
| KeyAnswers.CreationAnswered | app/transit/service.py:36-70 | a creation succeeds exactly for a valid name that was never created, while open; the refusals in their order |
| KeyAnswers.RefusalAnswered | app/transit/service.py:20-34 | every call on a locked, never created or revoked key is refused in the same way |
| KeyAnswers.GetAnswered | app/transit/service.py:66-86 | name, usage, algorithm, number of versions and creation time of a key that is not refused |
| KeyAnswers.RotationAnswered | app/transit/service.py:91-103 | a rotation of an AES key that is not refused answers one version more |
| KeyAnswers.RevocationAnswered | app/transit/service.py:88-89 | a revocation succeeds exactly for a key that is not refused |
| KeyAnswers.RevokedIsGone | app/transit/service.py:20-34 | after an answered revocation, while open, every call on the name finds no key, no listing shows it, no creation takes it |
| KeyAnswers.ListAnswered | app/transit/service.py:80-83 | a listing has exactly the descriptions of the owner's created and unrevoked keys |
| KeyAnswers.EncryptionAnswered | app/transit/service.py:126-133 | the exact text: newest version number, name, and the seal under the material drawn for that version, of at most 1048576 bytes, bound to owner, name and version |
| KeyAnswers.DecryptionAnswered | app/transit/service.py:135-153 | decryption answers p exactly if an earlier encryption of the same user answered that version, name and blob for p, and fails otherwise; earlier refusals in their order |
| KeyAnswers.MalformedAnswered | app/transit/service.py:135-146 | a malformed envelope is answered as such before the lock or any key is looked at |
| KeyAnswers.SigningAnswered | app/transit/service.py:155-160 | the signature of the decoded bytes under the key pair drawn at creation, or exactly why not |
| KeyAnswers.VerificationAnswered | app/transit/service.py:162-176 | true exactly for signatures answered earlier for these bytes under a key pair with this public key; refusals in their order |
| Denials.ForeignPathIsDenied | app/router.py:72-96 | reading, writing, listing the versions of or deleting another address's path answers PERMISSION_DENIED, changes nothing, and appends exactly one row with the literal action, type, path and result, correctly numbered and hashed |
| Denials.MissingKeyIsDenied | app/router.py:119-158 | the same for every call on a key the caller never created, whether or not somebody else has one of that name |
| Denials.OnlyDenialsAreLogged | app/router.py:60-64 | no other request touches the log |
| Formats.AlphabetOfTheStandard | app/utils/base64_utils.py:6-7 | the Base64 alphabet of section 4 of RFC 4648 |
| Formats.VectorsOfTheStandard | app/utils/base64_utils.py:6-7 | the test vectors of section 10 of RFC 4648 |
| Formats.DecodesExactly | app/utils/base64_utils.py:10-15 | exactly complete groups of the alphabet, the last padded with at most two '=', are decoded |
| Formats.ParsesExactly | app/transit/service.py:135-146 | exactly texts `vault:v` number `:` name `:` Base64, with a positive number, a non-empty name and at least 28 bytes, are accepted as envelopes |
| Formats.EnvelopeText | app/transit/service.py:133 | the printed envelope, literally |
| Formats.ContextTexts | app/transit/service.py:117-132 | the associated data of payloads and wrapped keys, literally; version 1 of a key without suffix |
| Formats.Numerals | app/transit/service.py:133 | version numbers are printed in decimal |
| Formats.LineText | app/audit/service.py:52 | the hashed line, literally |
| Formats.StrongExactly | app/utils/validation.py:7-11 | at least twelve characters and one of each of the four classes |
| Durability.EncryptStep | app/transit/service.py:126-133 | every answered envelope prints the newest version, the key's name and a blob of 12 + 16 bytes more than the plaintext, and its box is remembered under that version |
| Durability.EnvelopesStayReadable | app/transit/service.py:91-153 | any envelope ever answered decrypts for its owner to the same bytes at every later moment of any run when the vault is unlocked and the key not revoked; otherwise the answer is exactly VAULT_LOCKED or KEY_NOT_FOUND |
| Durability.DecryptedWasEncrypted | app/transit/service.py:126-153 | authenticity over runs: bytes returned by decrypt were given to encrypt by the same user under that name, and that call answered the canonical envelope of that version and blob |
| Durability.BoxesAreEncrypted | app/transit/service.py:126-133 | every box a key version remembers comes from an earlier encrypt request that answered its envelope |
| Durability.DecryptPrinted | app/transit/service.py:135-153 | decrypting a printed envelope depends on the lock, the revocation mark and the box only |
| Lineage.KeysOnlyGrow | app/transit/service.py:36-103 | between any two moments of a run a key keeps its kind, its creation time, its versions in order with their material, and everything it issued; revocation is never undone |
| Lineage.AlwaysGenuine | app/transit/service.py:126-133 | in every reachable state every remembered box seals what it is remembered to hold, in the context of its own owner, name and version |
| VaultTheorems.MasterIsForever | app/core/vault_service.py:19-47 | once set, salt, wrapping key and DEK are the same at every later moment |
| VaultTheorems.InitOnce | app/core/vault_service.py:19-33 | after a successful init every later init is refused as already initialised |
| VaultTheorems.UnlockNeedsThePassphrase | app/core/vault_service.py:35-47 | after init, exactly the passphrases deriving the same key from the same salt unlock, at any later moment |
| VaultTheorems.FailedVaultCallChangesNothing | app/core/vault_service.py:19-47 | a failed init or unlock changes no part of the state |
| VaultTheorems.LockedMeansUntouched | app/core/vault_state.py:24-28 | while locked every KV and transit call fails and changes nothing but the audit log |
| VaultTheorems.RevokedForever | app/transit/service.py:80-89 | once revoked, no later request uses, lists or re-creates that owner's key of that name |
| VaultTheorems.NamesAreNeverReused | app/transit/service.py:36-54 | a name that exists, revoked or not, is refused for creation at every later moment |
| SignTheorems.SignaturesStayValid | app/transit/service.py:155-176 | a signature verifies under its key at every later moment until the vault is locked or the key revoked, also across RAW and DIGEST when the message has 32 bytes |
| SignTheorems.OnlySignedVerifies | app/transit/service.py:162-176 | verify answers true only if an earlier sign request of that user under that key answered this very signature for these very bytes, provided no two signing keys share a public key |
| SignTheorems.SignedEarlier | app/transit/service.py:155-160 | every signature that verifies was answered by an earlier sign request |
| SecretTheorems.WrittenStaysReadable | app/kv/service.py:22-74 | what the N-th write stored is what reading version N returns at every later moment until the path is deleted |
| SecretTheorems.ReadWasWritten | app/kv/service.py:22-74 | what a reading returns was stored under that version by an earlier write of the same user to that path, with no deletion since; without a version it is the newest write |
| SecretTheorems.StoredWasWritten | app/kv/service.py:22-44 | every stored version was written, and answered with that version, by an earlier request, and its path was not deleted since |
| SecretTheorems.DeletionStartsAfresh | app/kv/service.py:22-101 | after a deletion and until the next write, reading, listing the versions and deleting again all fail for everybody, no listing shows the path, and that write is version 1 again |
| SecretTheorems.ValueStays | app/kv/service.py:22-101 | no request but a successful delete of the path removes or changes a stored version |
| SecretsModel.SortedIsOrdered | app/kv/service.py:97-101 | the listing is strictly increasing in code-point order |
| SecretsModel.SortedIsComplete | app/kv/service.py:97-101 | the listing has exactly the owner's paths |
| LoginTheorems.WrongGuessesAreBounded | app/auth/service.py:36-64 | from any reachable state, a window of length T without a success sees at most 5 * (T / 300s + 1) checked wrong passwords of an account, whatever else is requested |
| LoginTheorems.AlwaysLawful | app/auth/service.py:36-64 | in every reachable state of a run with a forward clock, no password was ever checked during a lock |
| LoginTheorems.RefusedExactlyDuringLock | app/auth/service.py:36-64 | at any moment of any run an attempt is refused as locked exactly when the failures since the last success or expired lock are five and the fifth is less than 300 seconds old; otherwise the password decides |
| Login.CounterCountsTheRun | app/auth/service.py:40-58 | the counter is the length of the present run of failures, a run being stated on the history alone: it begins at the start, after a success, or after a full run of five |
| Login.RunIsUnique | app/auth/service.py:40-58 | a history has one such run only, so the counter is determined by it |
| Login.LockedIsFullRun | app/auth/service.py:40-43 | the account is locked exactly while a full run is the present one and its fifth failure is less than 300 seconds old |
| Login.LawfulRunExpired | app/auth/service.py:40-45 | a run that follows a full run began when that one's lock had expired |
| LockoutModel.GuessBound | app/auth/service.py:38-58 | the bound on any lawful history, by induction over completed groups of five |
| Login.AuthService.Login | app/auth/service.py:36-64 | the counter and the deadline behave as the rule stated on the history of checks |
| Login.AuthService.Register | app/auth/service.py:25-34 | a new account has the given password and an empty history, as AccountHistory.RegisteredExactly tells over runs; mismatch, weak, taken in this order |
| Login.CounterRange | app/auth/service.py:52-58 | in every history the counter stays in 0..5 and is 5 exactly when a deadline is set |
| AuditModel.CheckPinpoints | app/router.py:167-177 | the reported row is the first whose prefix is not a valid chain, with the reason that applies |
| AuditModel.IntactIffChain | app/router.py:167-177 | the checker answers valid exactly for linked chains |
| AuditModel.ReplayIsChain | app/audit/service.py:26-35 | appending any legacy rows again one by one gives a log that verifies |
| AuditModel.ReplayFixesChain | app/audit/service.py:18-35 | backfilling a log that already verifies, so also one just backfilled, changes nothing |
| AuditModel.TruncationIsInvisible | app/router.py:167-177 | a log cut to any prefix still verifies: the checker cannot see a missing end |
| Audit.AuditTable.EnsureSchema | app/audit/service.py:11-35 | the backfill loop yields exactly the rows appended one by one with their own ids, or touches nothing when both columns exist or the table is missing |
| Audit.AuditTable.Record | app/audit/service.py:38-56 | one row with the next id, linked to the head, and a chain stays a chain |
| Audit.AuditTable.Verify | app/router.py:167-177 | the loop with its early exits answers the verdict that the lemmas above characterise |
| AuditTheorems.LineDecodes | app/audit/service.py:52 | the hashed line can be read back in one way only, though identifiers and the local parts of addresses may contain the separator |
| AuditTheorems.HeadFixesLog | app/router.py:167-177 | two valid logs with the same last hash have the same length, the same hashed fields and the same hash columns row by row, when SHA-256 tells their lines apart and domains, actions and results have no separator |
| AuditTheorems.KeptHeadTellsTextsApart | app/router.py:167-177 | two logs that verify, whatever they contain, have the same last hash if and only if they agree in length and row by row in id and in the text between the separators, when SHA-256 tells their lines apart |
| AuditTheorems.KeptHeadTellsFieldsApart | app/router.py:167-177 | among logs without separators in domains, actions and results, the same last hash means exactly the same hashed fields |
| AuditTheorems.KeptHeadMissesMovedSeparator | app/router.py:167-177 | without that condition it does not: a concrete pair of logs that verify, end in the same hash and differ in hashed fields |
| AuditTheorems.ReplacementIsReported | app/router.py:168-177 | replacing a row of a valid log by any row goes unnoticed if and only if the new one links backwards and, unless last, keeps the hash its successor points to |
| AuditTheorems.IntactIffReplayed | app/router.py:167-177 | the checker accepts exactly the logs that appending their rows again would reproduce |
| AuditTheorems.RelinkedEndIsInvisible | app/router.py:167-177 | any end of a valid log can be replaced by any rows with their hashes recomputed, the rows before untouched, and the checker is satisfied |
| AuditTheorems.ForgedRowIsInvisible | app/router.py:167-177 | a concrete row that blames another user after its hash was recomputed and still verifies |
| AuditTheorems.EditIsReported | app/router.py:168-176 | an edit of one row, id and hash columns kept, is reported at that row if and only if the text between the separators changed |
| AuditTheorems.FieldEditIsReported | app/router.py:168-176 | id and hash columns kept, and no separator in domain, action and result, every change of a hashed field is reported at its row, and only those |
| AuditTheorems.MovedSeparatorIsInvisible | app/audit/service.py:52 | a concrete edit of two hashed fields that still verifies |
| AuditTheorems.DeletionIsReported | app/router.py:168-171 | deleting a row that is not the last is reported at its successor as a previous-hash mismatch |
| AuditRuns.AuditAlwaysVerifies | app/router.py:161-177 | whenever it is asked in a run, the checker answers that the log is intact |
| AuditRuns.BackfilledLogVerifies | app/audit/service.py:11-56 | a log backfilled from any legacy rows keeps verifying after any later requests |
| AuditRuns.LogIsComplete | app/router.py:60-158 | the log tells exactly the denied calls of the run, each once, in order |
| AuditRuns.LogOnlyGrows | app/audit/service.py:38-56 | no request removes or rewrites a row |
| AuditRuns.HeadFixesHistory | app/router.py:161-177 | two runs whose logs end in the same hash denied the same users the same actions on the same resources, types included, in the same order, under the same two conditions; only client addresses may differ |
| Isolation.OthersDoNotInterfere | app/transit/service.py:20-34 | dropping every other user's registrations, logins, KV and transit requests from any run leaves every answer to one user unchanged, listings of keys read as sets, provided nobody else ever generates a key pair that the user also generates |
| Isolation.OwnStep | app/router.py:20-177 | states that look the same to a user give that user the same answers and stay the same for that user |
| Isolation.OthersStep | app/kv/service.py:22-101 | a request of another user leaves the state looking the same |
| Binding.OpensOnlyThere | app/core/crypto_service.py:5-11 | a sealed body opens in one context and in no other |
| Binding.KeyVersionRowIsBound | app/transit/service.py:105-124 | a stored key version opens under the DEK for its own owner, name and version, and in no other context of any kind, in all reachable tables |
| Binding.SigningRowIsBound | app/transit/service.py:51-64 | the same for the private key of a signing key |
| Binding.SecretVersionRowIsBound | app/kv/service.py:28-41 | a stored secret version opens at its own path and in no other context |
| Binding.PayloadIsBound | app/transit/service.py:126-133 | an issued payload opens for its owner, name and version and in no other context |
| Binding.DekRowIsBound | app/core/vault_service.py:25-32 | the wrapped DEK opens as nothing else |
| Binding.PayloadsAreAuthentic | app/transit/service.py:126-153 | whatever the rows contain and whatever key bytes are used, what opens in the payload context of a key version is exactly what that version issued |
| Binding.WrappedKeysAreAuthentic | app/transit/service.py:105-124 | whatever the rows contain, what opens as a version of a key is the material that version really has |
| Binding.WrappedDekIsAuthentic | app/core/vault_service.py:35-47 | whatever the configuration row contains, what opens as the DEK is the one DEK, and under the one derived key only |
| Binding.HeldDekIsTheFirst | app/core/vault_state.py:5-28 | whatever memory holds is the one DEK drawn by init |
| Binding.VersionsOfAPathInterchange | app/kv/service.py:50-74 | the limit of the binding: with the ciphertexts of two versions of a path exchanged the tables are as valid as before, and reading the one version answers the other one's value |
| Exchange.ExchangeGoesUnnoticed | app/kv/service.py:22-74 | exchanged tables stand for the map with the two values exchanged |
| Binding.VersionLadder | app/transit/service.py:36-103 | in all reachable tables the rows of an AES key are exactly 1..n, each once, the parent row mirrors row n, and signing keys have none |
| Binding.KeyPairsMatch | app/transit/service.py:51-64 | the private key unwrapped from a row always belongs to the public key stored beside it |
| Binding.OwnerIsNamedByPath | app/kv/service.py:29-39 | a secret is acceptable to an address exactly when that address is its owner |
| Contexts.AadInjective | app/transit/service.py:117-124 | associated data of distinct contexts is distinct, across DEK, key version 1, key version N, payloads and paths |
| Validation.OneOwner | app/utils/validation.py:19-26 | a path lies in the namespace of one address at most |
| Envelope.RoundTrip | app/transit/service.py:131-147 | a printed envelope is read back exactly, for every version, key name and blob |
| Envelope.AuditNameIsLookedUp | app/router.py:144 | the audited name is the name decrypt looks up |
| Base64.RoundTrip | app/utils/base64_utils.py:6-15 | decoding inverts encoding for every byte string |
| Crypto.MovedBodyFails | app/core/crypto_service.py:5-11 | moved to another context, a sealed body cannot be opened there with the same key |
| Transit.TransitService.Find | app/transit/service.py:20-34 | the order lock, existence, revocation, usage |
| Transit.TransitService.CreateAes | app/transit/service.py:36-49 | adds a key with one version and keeps tables and keyring in agreement; touches wrapped-key contexts only |
| Transit.TransitService.CreateSigning | app/transit/service.py:51-64 | adds a signing key without version rows |
| Transit.TransitService.Rotate | app/transit/service.py:91-103 | appends the version that KeyHistory.RotationAddsVersion describes, mirrors it in the parent row, and loses no older version |
| Transit.TransitService.Revoke | app/transit/service.py:88-89 | marks the key, as KeyHistory.RevokedExactly tells over runs, and changes nothing else |
| Transit.TransitService.Material | app/transit/service.py:105-124 | opens the material of the asked or current version; its decryption never fails on reachable tables |
| Transit.TransitService.Encrypt | app/transit/service.py:126-133 | stamps the newest version and records the box under it |
| Transit.TransitService.Decrypt | app/transit/service.py:135-153 | opens exactly what that version issued, with errors in the order of the code |
| Transit.TransitService.Sign | app/transit/service.py:155-160 | signs with the key's own private key |
| Transit.TransitService.Verify | app/transit/service.py:162-176 | the verdict and the errors in their order |
| Transit.TransitService.List | app/transit/service.py:80-83 | descriptions of exactly the owner's unrevoked keys |
| KeyValue.KVService.Write | app/kv/service.py:22-44 | appends to the list of values of the path, though the row is looked up by path alone |
| KeyValue.KVService.Read | app/kv/service.py:50-74 | the last or the N-th value, as SecretHistory.ReadAnswered tells over runs; the owner filter and the decryption never fail on reachable tables |
| KeyValue.KVService.Versions | app/kv/service.py:76-86 | the versions 1..n with their times |
| KeyValue.KVService.Delete | app/kv/service.py:88-95 | forgets the path and its history, so that its row id can be used again |
| KeyValue.KVService.List | app/kv/service.py:97-101 | the owner's paths in order with their lengths |
| VaultCore.VaultService.Init | app/core/vault_service.py:19-33 | wraps the DEK under the derived key and leaves the vault locked |
| VaultCore.VaultService.Unlock | app/core/vault_service.py:35-47 | puts the original DEK into memory, or changes nothing |

## Left out

- HTTP, FastAPI and pydantic plumbing, the request-size limit, response envelopes and error texts; the missing
  and the illegal fields they refuse never reach the services.
- Sessions, logout, `me` and `status`: an authenticated address is part of a request, and a login answers the
  token it drew.
- The database below the tables: transactions, SQLite's 64-bit integers (a version number in an envelope
  beyond them), and column widths. Rows hold the bytes that the code stores as Base64 text.
- JSON: a secret is the bytes of its serialisation.
- The insides of AES-GCM, Argon2id, Ed25519 and SHA-256, and of the random generators.
- Threads: a handler is one atomic step, as the services contain no suspension point; locks, constant-time
  comparison and memory zeroing have no counterpart.
- Unicode beyond code points: surrogates in paths, non-ASCII digits that `\d` and `int()` accept, and
  Python's limit on the length of an integer literal.
- Tables written by releases without version rows: there rotation overwrites the only copy of version 1
  (app/transit/service.py:94-101) and a write that of an unversioned secret (app/kv/service.py:31-34).
- The normalisation of addresses by `strip` and `lower`: addresses are taken normalised.
- The leniency of Python's strict Base64 decoder that differs between releases: text after the padding, and
  surplus padding after a complete group; the model refuses both.
- Transit.TransitService.List: the order of the listing is not fixed by the code and is read as a set.
