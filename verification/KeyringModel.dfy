/**
 What the transit engine promises. There are no rows, wrapped keys or ciphertext checks here: every key
 version simply remembers the boxes it issued and what each of them holds.
 */
module KeyringModel {
  import opened Basics
  import opened Base64
  import opened Validation
  import opened Contexts
  import opened Crypto
  import Envelope

  datatype Usage = EncryptDecrypt | SignVerify

  datatype KeyVersion = KeyVersion(material: Bytes, issued: map<Box, Bytes>)

  type KeyVersions = s: seq<KeyVersion> | s != [] witness [KeyVersion([], map[])]

  datatype Key =
    | AesKey(createdAt: Time, revoked: bool, versions: KeyVersions)
    | SigningKey(createdAt: Time, revoked: bool, seed: Bytes)
  {
    function Usage(): Usage {
      if AesKey? then EncryptDecrypt else SignVerify
    }

    function Algorithm(): string {
      if AesKey? then "AES-256-GCM" else "ED25519"
    }

    function CurrentVersion(): nat {
      if AesKey? then |versions| else 1
    }
  }

  type Keyring = map<KeyId, Key>

  datatype Metadata = Metadata(name: string, usage: Usage, algorithm: string, currentVersion: nat, createdAt: Time,
    revoked: bool)

  function Describe(name: string, key: Key): Metadata {
    Metadata(name, key.Usage(), key.Algorithm(), key.CurrentVersion(), key.createdAt, key.revoked)
  }

  /** The checks every key operation starts with, in their order. */
  function Find(unlocked: bool, ring: Keyring, kid: KeyId, usage: Option<Usage>): (r: Result<Key>)
    ensures r.Ok? ==> unlocked && kid in ring && r.value == ring[kid] && !r.value.revoked
    ensures r.Ok? && usage.Some? ==> r.value.Usage() == usage.value
  {
    if !unlocked then Err(VaultLocked)
    else if kid !in ring then Err(PermissionDenied)
    else if ring[kid].revoked then Err(KeyNotFound)
    else if usage.Some? && ring[kid].Usage() != usage.value then Err(InvalidKeyUsage)
    else Ok(ring[kid])
  }

  function Create(unlocked: bool, ring: Keyring, kid: KeyId, key: Key): (Keyring, Result<Metadata>) {
    if !ValidKeyName(kid.name) then (ring, Err(ValidationError))
    else if !unlocked then (ring, Err(VaultLocked))
    else if kid in ring then (ring, Err(KeyAlreadyExists))
    else (ring[kid := key], Ok(Describe(kid.name, key)))
  }

  function NewAesKey(material: Bytes, now: Time): Key {
    AesKey(now, false, [KeyVersion(material, map[])])
  }

  function NewSigningKey(seed: Bytes, now: Time): Key {
    SigningKey(now, false, seed)
  }

  function Get(unlocked: bool, ring: Keyring, kid: KeyId): Result<Metadata> {
    var key :- Find(unlocked, ring, kid, None);
    Ok(Describe(kid.name, key))
  }

  function UsableKeys(ring: Keyring, owner: string): set<KeyId> {
    set kid | kid in ring && kid.owner == owner && !ring[kid].revoked
  }

  function Descriptions(ring: Keyring, kids: set<KeyId>): set<Metadata> {
    set kid | kid in kids && kid in ring :: Describe(kid.name, ring[kid])
  }

  function List(unlocked: bool, ring: Keyring, owner: string): Result<set<Metadata>> {
    if !unlocked then Err(VaultLocked) else Ok(Descriptions(ring, UsableKeys(ring, owner)))
  }

  function Revoke(unlocked: bool, ring: Keyring, kid: KeyId): (Keyring, Result<()>) {
    match Find(unlocked, ring, kid, None)
    case Err(e) => (ring, Err(e))
    case Ok(key) => (ring[kid := key.(revoked := true)], Ok(()))
  }

  function Rotated(key: Key, material: Bytes): Key
    requires key.AesKey?
  {
    key.(versions := key.versions + [KeyVersion(material, map[])])
  }

  function Rotate(unlocked: bool, ring: Keyring, kid: KeyId, material: Bytes): (Keyring, Result<Metadata>) {
    match Find(unlocked, ring, kid, Some(EncryptDecrypt))
    case Err(e) => (ring, Err(e))
    case Ok(key) =>
      var key' := Rotated(key, material);
      (ring[kid := key'], Ok(Describe(kid.name, key')))
  }

  /** The key after its newest version issued a box for `plaintext`. */
  function Issue(key: Key, box: Box, plaintext: Bytes): Key
    requires key.AesKey?
  {
    var n := |key.versions|;
    var newest := key.versions[n - 1];
    key.(versions := key.versions[n - 1 := newest.(issued := newest.issued[box := plaintext])])
  }

  function SealWith(suite: Suite, key: Key, kid: KeyId, plaintext: Bytes, nonce: Nonce): Box
    requires key.AesKey?
  {
    var n := |key.versions|;
    var material := key.versions[n - 1].material;
    Box(material, nonce, suite.seal(material, nonce, plaintext, PayloadAad(kid, n)))
  }

  function Encrypt(suite: Suite, unlocked: bool, ring: Keyring, kid: KeyId, plaintext64: string,
    nonce: Nonce): (Keyring, Result<string>)
  {
    match Find(unlocked, ring, kid, Some(EncryptDecrypt))
    case Err(e) => (ring, Err(e))
    case Ok(key) =>
      match B64d(plaintext64)
      case None => (ring, Err(ValidationError))
      case Some(plaintext) =>
        if |plaintext| > MAX_PAYLOAD then (ring, Err(ValidationError))
        else
          var box := SealWith(suite, key, kid, plaintext, nonce);
          (ring[kid := Issue(key, box, plaintext)],
           Ok(Envelope.Print(|key.versions|, kid.name, nonce + box.body)))
  }

  function Decrypt(unlocked: bool, ring: Keyring, owner: string, envelope: string): Result<string> {
    var parsed :- Envelope.Parse(envelope);
    var key :- Find(unlocked, ring, KeyId(owner, parsed.name), Some(EncryptDecrypt));
    if parsed.version > |key.versions| then Err(KeyVersionNotFound)
    else
      var version := key.versions[parsed.version - 1];
      var box := Box(version.material, parsed.blob[..12], parsed.blob[12..]);
      if box in version.issued then Ok(B64e(version.issued[box])) else Err(DecryptionFailed)
  }

  function Sign(suite: Suite, unlocked: bool, ring: Keyring, signed: set<Signature>, kid: KeyId, message64: string,
    isDigest: bool): (set<Signature>, Result<string>)
  {
    match Find(unlocked, ring, kid, Some(SignVerify))
    case Err(e) => (signed, Err(e))
    case Ok(key) =>
      match B64d(message64)
      case None => (signed, Err(ValidationError))
      case Some(message) =>
        if isDigest && |message| != 32 then (signed, Err(InvalidDigestLength))
        else
          var bytes := suite.sign(key.seed, message);
          (signed + {Signature(suite.public(key.seed), message, bytes)}, Ok(B64e(bytes)))
  }

  function Verify(suite: Suite, unlocked: bool, ring: Keyring, signed: set<Signature>, kid: KeyId, message64: string,
    isDigest: bool, signature64: string, algorithm: Option<string>): Result<bool>
  {
    var key :- Find(unlocked, ring, kid, Some(SignVerify));
    var message :- Decode(message64, ValidationError);
    if algorithm.Some? && algorithm.value != "" && algorithm.value != key.Algorithm() then Err(InvalidSigningAlgorithm)
    else if isDigest && |message| != 32 then Err(InvalidDigestLength)
    else
      match B64d(signature64)
      case None => Ok(false)
      case Some(bytes) => Ok(Signature(suite.public(key.seed), message, bytes) in signed)
  }
}
